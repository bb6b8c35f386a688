/** Crockford Base32 recovery codes (`recovery_code.py`), over ASCII text.

    A code is 27 data symbols and a mod-37 check symbol ("Check Symbol" in Douglas Crockford's
    Base32 specification).  Positions are read as values, never compared as characters. */
module RecoveryCode {
  import opened Wrappers
  import opened Mod37

  const DATA_ALPHABET: string := "0123456789ABCDEFGHJKMNPQRSTVWXYZ"
  const CHECK_ALPHABET: string := DATA_ALPHABET + "*~$=U"
  const PAYLOAD_BITS: nat := 135
  const PAYLOAD_SYMBOLS: nat := 27
  const PAYLOAD_BYTES: nat := 17
  const CODE_SYMBOLS: nat := PAYLOAD_SYMBOLS + 1
  const GROUP_SIZE: nat := 4

  datatype CodeError = WrongLength | NotADataSymbol

  // ----- text -----

  function Upper(c: char): char {
    if 'a' <= c <= 'z' then (c as int - 'a' as int + 'A' as int) as char else c
  }

  /** ASCII characters for which Python's `str.isspace` holds. */
  predicate IsSpace(c: char) {
    '\U{09}' <= c <= '\U{0D}' || '\U{1C}' <= c <= '\U{20}'
  }

  predicate Dropped(c: char) {
    IsSpace(c) || c == '-'
  }

  function Normalise(text: string): string {
    if text == "" then ""
    else if Dropped(text[0]) then Normalise(text[1..])
    else [Upper(text[0])] + Normalise(text[1..])
  }

  function FormatCode(symbols: string): string {
    if |symbols| <= GROUP_SIZE then symbols
    else symbols[..GROUP_SIZE] + "-" + FormatCode(symbols[GROUP_SIZE..])
  }

  // ----- symbols -----

  function IndexOf(s: string, c: char): Option<nat> {
    if s == "" then None
    else if s[0] == c then Some(0)
    else match IndexOf(s[1..], c)
         case None => None
         case Some(k) => Some(k + 1)
  }

  /** The value `c` has in `alphabet`, with Crockford's folding of I, L and O. */
  function Fold(alphabet: string, c: char): Option<nat> {
    if c == 'I' || c == 'L' then Some(1) else if c == 'O' then Some(0) else IndexOf(alphabet, c)
  }

  function DataValue(c: char): Option<nat> {
    Fold(DATA_ALPHABET, Upper(c))
  }

  function CheckValue(c: char): Option<nat> {
    Fold(CHECK_ALPHABET, Upper(c))
  }

  predicate AllData(s: string) {
    forall i :: 0 <= i < |s| ==> DataValue(s[i]).Some?
  }

  function DataValues(s: string): (vs: seq<nat>)
    requires AllData(s)
  {
    seq(|s|, i requires 0 <= i < |s| => DataValue(s[i]).value)
  }

  /** The number a payload denotes, or None when some character is not a data symbol. */
  function PayloadValue(s: string): Option<nat> {
    if AllData(s) then Some(Horner(DataValues(s), 32)) else None
  }

  /** `_payload_int`: one pass, accumulating in base 32. */
  method PayloadInt(payload: string) returns (r: Result<nat, CodeError>)
    ensures r == match PayloadValue(payload)
                 case Some(n) => Returned(n)
                 case None => Raised(NotADataSymbol)
  {
    var value := 0;
    for i := 0 to |payload|
      invariant AllData(payload[..i])
      invariant value == Horner(DataValues(payload[..i]), 32)
    {
      match DataValue(payload[i]) {
        case None =>
          return Raised(NotADataSymbol);
        case Some(v) =>
          assert payload[..i + 1] == payload[..i] + [payload[i]];
          assert DataValues(payload[..i + 1]) == DataValues(payload[..i]) + [v];
          HornerSnoc(DataValues(payload[..i]), v, 32);
          value := value * 32 + v;
      }
    }
    assert payload[..|payload|] == payload;
    return Returned(value);
  }

  // ----- codes -----

  function CheckSymbol(payload: string): Result<char, CodeError> {
    if |payload| != PAYLOAD_SYMBOLS then Raised(WrongLength)
    else match PayloadValue(payload)
         case None => Raised(NotADataSymbol)
         case Some(n) => Returned(CHECK_ALPHABET[n % 37])
  }

  predicate VerifyCheckSymbol(code: string) {
    && |code| == CODE_SYMBOLS
    && CheckValue(code[PAYLOAD_SYMBOLS]).Some?
    && match PayloadValue(code[..PAYLOAD_SYMBOLS])
       case None => false
       case Some(n) => n % 37 == CheckValue(code[PAYLOAD_SYMBOLS]).value
  }

  function DecodePayload(payload: string): Result<seq<nat>, CodeError> {
    if |payload| != PAYLOAD_SYMBOLS then Raised(WrongLength)
    else match PayloadValue(payload)
         case None => Raised(NotADataSymbol)
         case Some(n) => Returned(Digits(n, 256, PAYLOAD_BYTES))
  }

  function Decode(code: string): Result<seq<nat>, CodeError> {
    if |code| != CODE_SYMBOLS then Raised(WrongLength) else DecodePayload(code[..PAYLOAD_SYMBOLS])
  }

  /** The 27 data symbols of `value`, most significant first. */
  function PayloadOf(value: nat): string {
    var ds := Digits(value, 32, PAYLOAD_SYMBOLS);
    seq(PAYLOAD_SYMBOLS, i requires 0 <= i < PAYLOAD_SYMBOLS => DATA_ALPHABET[ds[i]])
  }

  function CodeOf(value: nat): string {
    PayloadOf(value) + [CHECK_ALPHABET[value % 37]]
  }

  /** `generate_code`, with the random value as a parameter: symbols come out least significant
      first and are reversed. */
  method GenerateCode(random: nat) returns (code: string)
    requires random < Pow(2, PAYLOAD_BITS)
    ensures code == FormatCode(CodeOf(random))
    ensures |code| == 34
    ensures forall p :: 0 <= p < 34 ==> code[p] == if p % 5 == 4 then '-' else CodeOf(random)[p - p / 5]
  {
    var symbols := SymbolsReversed(random);
    var payload := seq(PAYLOAD_SYMBOLS, i requires 0 <= i < PAYLOAD_SYMBOLS => symbols[PAYLOAD_SYMBOLS - 1 - i]);
    PayloadComplete(random, payload);
    PayloadDenotes(random);
    code := FormatCode(payload + [CheckSymbol(payload).value]);
    forall p | 0 <= p < 34 ensures |code| == 34 && code[p] == if p % 5 == 4 then '-' else CodeOf(random)[p - p / 5] {
      FormatSpelledOut(CodeOf(random), p);
    }
    FormatSpelledOut(CodeOf(random), 0);
  }

  method SymbolsReversed(random: nat) returns (symbols: string)
    ensures |symbols| == PAYLOAD_SYMBOLS
    ensures forall i :: 0 <= i < PAYLOAD_SYMBOLS ==>
              symbols[i] == DATA_ALPHABET[Digits(random, 32, PAYLOAD_SYMBOLS)[PAYLOAD_SYMBOLS - 1 - i]]
  {
    var value := random;
    symbols := "";
    ghost var ds := Digits(random, 32, PAYLOAD_SYMBOLS);
    assert ds[..PAYLOAD_SYMBOLS] == ds;
    for k := 0 to PAYLOAD_SYMBOLS
      invariant |symbols| == k && ds[..PAYLOAD_SYMBOLS - k] == Digits(value, 32, PAYLOAD_SYMBOLS - k)
      invariant forall i :: 0 <= i < k ==> symbols[i] == DATA_ALPHABET[ds[PAYLOAD_SYMBOLS - 1 - i]]
    {
      NextDigit(ds, value, PAYLOAD_SYMBOLS - k);
      symbols := symbols + [DATA_ALPHABET[value % 32]];
      value := value / 32;
    }
  }

  lemma PayloadComplete(value: nat, payload: string)
    requires |payload| == PAYLOAD_SYMBOLS
    requires forall i :: 0 <= i < PAYLOAD_SYMBOLS ==> payload[i] == DATA_ALPHABET[Digits(value, 32, PAYLOAD_SYMBOLS)[i]]
    ensures payload == PayloadOf(value)
  {
  }

  lemma NextDigit(ds: seq<nat>, value: nat, left: nat)
    requires 0 < left <= |ds| && ds[..left] == Digits(value, 32, left)
    ensures ds[left - 1] == value % 32
    ensures ds[..left - 1] == Digits(value / 32, 32, left - 1)
  {
    assert ds[..left - 1] == ds[..left][..left - 1];
    assert ds[left - 1] == ds[..left][left - 1];
  }

  // ----- the alphabets -----

  lemma {:induction false} AlphabetIndex(s: string, v: nat)
    requires v < |s| && forall i, j :: 0 <= i < j < |s| ==> s[i] != s[j]
    ensures IndexOf(s, s[v]) == Some(v)
  {
    if v > 0 {
      AlphabetIndex(s[1..], v - 1);
    }
  }

  lemma {:induction false} IndexInAlphabet(s: string, c: char)
    ensures IndexOf(s, c).Some? <==> c in s
    ensures IndexOf(s, c).Some? ==> IndexOf(s, c).value < |s| && s[IndexOf(s, c).value] == c
  {
    if s != "" && s[0] != c {
      IndexInAlphabet(s[1..], c);
    }
  }

  lemma {:induction false} IndexInConcatenation(s: string, t: string, c: char)
    ensures IndexOf(s + t, c) == match IndexOf(s, c)
                                 case Some(k) => Some(k)
                                 case None => match IndexOf(t, c) case Some(k) => Some(|s| + k) case None => None
  {
    if s == "" {
      assert s + t == t;
    } else {
      assert (s + t)[1..] == s[1..] + t;
      IndexInConcatenation(s[1..], t, c);
    }
  }

  lemma FoldBounds(s: string, t: string, c: char)
    requires |s| > 1
    ensures Fold(s, c).Some? ==> Fold(s, c).value < |s|
    ensures Fold(s + t, c).Some? ==> Fold(s + t, c).value < |s| + |t|
    ensures Fold(s, c).Some? <==> Fold(s + t, c).Some? && Fold(s + t, c).value < |s|
    ensures Fold(s, c).Some? ==> Fold(s + t, c) == Fold(s, c)
  {
    IndexInAlphabet(s, c);
    IndexInAlphabet(s + t, c);
    IndexInConcatenation(s, t, c);
  }

  /** A data symbol keeps its value as a check symbol; the check-only symbols come after. */
  lemma ValueBounds(c: char)
    ensures DataValue(c).Some? ==> DataValue(c).value < 32
    ensures CheckValue(c).Some? ==> CheckValue(c).value < 37
    ensures DataValue(c).Some? <==> CheckValue(c).Some? && CheckValue(c).value < 32
    ensures DataValue(c).Some? ==> CheckValue(c) == DataValue(c)
  {
    FoldBounds(DATA_ALPHABET, "*~$=U", Upper(c));
  }

  lemma DataAlphabetIncreases(i: nat)
    requires i + 1 < |DATA_ALPHABET|
    ensures DATA_ALPHABET[i] < DATA_ALPHABET[i + 1]
  {
  }

  lemma {:induction false} DataAlphabetOrdered(i: nat, j: nat)
    requires i < j < |DATA_ALPHABET|
    ensures DATA_ALPHABET[i] < DATA_ALPHABET[j]
  {
    DataAlphabetIncreases(j - 1);
    if i < j - 1 {
      DataAlphabetOrdered(i, j - 1);
    }
  }

  lemma DataAlphabetAlphanumeric(i: nat)
    requires i < |DATA_ALPHABET|
    ensures '0' <= DATA_ALPHABET[i] <= '9' || 'A' <= DATA_ALPHABET[i] <= 'T' || 'V' <= DATA_ALPHABET[i] <= 'Z'
  {
  }

  lemma SymbolsDiffer(i: nat, j: nat)
    requires i < j < 37
    ensures CHECK_ALPHABET[i] != CHECK_ALPHABET[j]
  {
    var extra := "*~$=U";
    assert CHECK_ALPHABET == DATA_ALPHABET + extra;
    if j < 32 {
      DataAlphabetOrdered(i, j);
    } else if i < 32 {
      DataAlphabetAlphanumeric(i);
      assert CHECK_ALPHABET[j] == extra[j - 32];
    } else {
      assert CHECK_ALPHABET[i] == extra[i - 32] && CHECK_ALPHABET[j] == extra[j - 32];
    }
  }

  /** Printed symbols are upper case, survive normalisation and need no folding. */
  lemma PlainSymbol(v: nat)
    requires v < 37
    ensures Upper(CHECK_ALPHABET[v]) == CHECK_ALPHABET[v] && !Dropped(CHECK_ALPHABET[v])
    ensures Fold(CHECK_ALPHABET, CHECK_ALPHABET[v]) == IndexOf(CHECK_ALPHABET, CHECK_ALPHABET[v])
  {
  }

  /** Printed symbols have the value of their place in the alphabet. */
  lemma PrintedSymbol(v: nat)
    requires v < 37
    ensures CheckValue(CHECK_ALPHABET[v]) == Some(v)
    ensures v < 32 ==> DATA_ALPHABET[v] == CHECK_ALPHABET[v] && DataValue(CHECK_ALPHABET[v]) == Some(v)
    ensures Upper(CHECK_ALPHABET[v]) == CHECK_ALPHABET[v] && !Dropped(CHECK_ALPHABET[v])
  {
    PlainSymbol(v);
    SymbolHasItsIndex(v);
    ValueBounds(CHECK_ALPHABET[v]);
  }

  lemma SymbolHasItsIndex(v: nat)
    requires v < 37
    ensures IndexOf(CHECK_ALPHABET, CHECK_ALPHABET[v]) == Some(v)
  {
    forall i, j | 0 <= i < j < 37 ensures CHECK_ALPHABET[i] != CHECK_ALPHABET[j] {
      SymbolsDiffer(i, j);
    }
    AlphabetIndex(CHECK_ALPHABET, v);
  }

  // ----- round trip -----

  lemma PayloadDenotes(value: nat)
    requires value < Pow(2, PAYLOAD_BITS)
    ensures AllData(PayloadOf(value)) && DataValues(PayloadOf(value)) == Digits(value, 32, PAYLOAD_SYMBOLS)
    ensures PayloadValue(PayloadOf(value)) == Some(value)
    ensures CheckSymbol(PayloadOf(value)) == Returned(CHECK_ALPHABET[value % 37])
  {
    var payload, ds := PayloadOf(value), Digits(value, 32, PAYLOAD_SYMBOLS);
    forall i | 0 <= i < PAYLOAD_SYMBOLS ensures DataValue(payload[i]) == Some(ds[i]) {
      PrintedSymbol(ds[i]);
    }
    assert DataValues(payload) == ds;
    assert Pow(2, 5) == 32;
    PowOfPow(2, 5, PAYLOAD_SYMBOLS);
    DigitsDenote(value, 32, PAYLOAD_SYMBOLS);
  }

  /** `c` is a way of writing the printed symbol `symbol`: either case, and I/L for 1, O for 0. */
  predicate Reads(c: char, symbol: char) {
    || c == symbol
    || ('A' <= symbol <= 'Z' && c as int == symbol as int + 32)
    || (symbol == '1' && (c == 'I' || c == 'i' || c == 'L' || c == 'l'))
    || (symbol == '0' && (c == 'O' || c == 'o'))
  }

  /** What may stand between symbols: the hyphen, the space and the other ASCII white space. */
  const FILLER: string := "- \t\n\U{0B}\U{0C}\r\U{1C}\U{1D}\U{1E}\U{1F}"

  lemma FillerIsDropped(c: char)
    ensures c in FILLER <==> Dropped(c)
  {
    if Dropped(c) {
      var n := c as int;
      assert n == 9 || n == 10 || n == 11 || n == 12 || n == 13 || n == 28 || n == 29 || n == 30 || n == 31 || n == 32
             || n == 45;
      assert FILLER[0] == '-' && FILLER[1] == ' ' && FILLER[2] == '\t' && FILLER[3] == '\n' && FILLER[4] == '\U{0B}';
      assert FILLER[5] == '\U{0C}' && FILLER[6] == '\r' && FILLER[7] == '\U{1C}' && FILLER[8] == '\U{1D}';
      assert FILLER[9] == '\U{1E}' && FILLER[10] == '\U{1F}';
    }
  }

  /** `text` spells `symbols`: spaces and hyphens anywhere, each symbol in any of its readings. */
  predicate Spells(text: string, symbols: string) {
    if text == "" then symbols == ""
    else if text[0] in FILLER then Spells(text[1..], symbols)
    else symbols != "" && Reads(text[0], symbols[0]) && Spells(text[1..], symbols[1..])
  }

  /** The same for a character already in upper case. */
  predicate ReadsUpper(u: char, symbol: char) {
    u == symbol || (symbol == '1' && (u == 'I' || u == 'L')) || (symbol == '0' && u == 'O')
  }

  lemma UpperReads(c: char, symbol: char)
    requires Upper(symbol) == symbol && Reads(c, symbol)
    ensures ReadsUpper(Upper(c), symbol)
  {
  }

  lemma {:induction false} SpellingNormalises(text: string, symbols: string)
    requires Spells(text, symbols) && forall i :: 0 <= i < |symbols| ==> Upper(symbols[i]) == symbols[i]
    ensures |Normalise(text)| == |symbols|
    ensures forall i :: 0 <= i < |symbols| ==>
              ReadsUpper(Normalise(text)[i], symbols[i]) && Upper(Normalise(text)[i]) == Normalise(text)[i]
  {
    if text != "" {
      FillerIsDropped(text[0]);
      if Dropped(text[0]) {
        SpellingNormalises(text[1..], symbols);
      } else {
        SpellingNormalises(text[1..], symbols[1..]);
        UpperReads(text[0], symbols[0]);
        assert Upper(Upper(text[0])) == Upper(text[0]);
        assert Normalise(text) == [Upper(text[0])] + Normalise(text[1..]);
        assert symbols == [symbols[0]] + symbols[1..];
      }
    }
  }

  lemma ReadingsAgree(c: char, v: nat)
    requires v < 37 && Upper(c) == c && ReadsUpper(c, CHECK_ALPHABET[v])
    ensures CheckValue(c) == Some(v)
    ensures v < 32 ==> DataValue(c) == Some(v)
  {
    PrintedSymbol(v);
    ValueBounds(c);
    ValueBounds(CHECK_ALPHABET[v]);
    if c != CHECK_ALPHABET[v] {
      FoldedSymbol(v);
    }
  }

  lemma FoldedSymbol(v: nat)
    requires v < 37
    ensures CHECK_ALPHABET[v] == '0' ==> v == 0
    ensures CHECK_ALPHABET[v] == '1' ==> v == 1
  {
    assert CHECK_ALPHABET[0] == '0' && CHECK_ALPHABET[1] == '1';
    if v > 0 {
      SymbolsDiffer(0, v);
    }
    if v > 1 {
      SymbolsDiffer(1, v);
    }
  }

  /** The printed form spells its own symbols. */
  lemma {:induction false} PrintedSpells(symbols: string)
    requires forall i :: 0 <= i < |symbols| ==> Upper(symbols[i]) == symbols[i] && !Dropped(symbols[i])
    ensures Spells(FormatCode(symbols), symbols)
    decreases |symbols|
  {
    if |symbols| <= GROUP_SIZE {
      PlainSpells(symbols, "", "");
      assert symbols + "" == symbols;
    } else {
      PrintedSpells(symbols[GROUP_SIZE..]);
      var rest := "-" + FormatCode(symbols[GROUP_SIZE..]);
      assert rest[1..] == FormatCode(symbols[GROUP_SIZE..]);
      PlainSpells(symbols[..GROUP_SIZE], rest, symbols[GROUP_SIZE..]);
      assert symbols[..GROUP_SIZE] + symbols[GROUP_SIZE..] == symbols;
      assert symbols[..GROUP_SIZE] + rest == FormatCode(symbols);
    }
  }

  lemma {:induction false} PlainSpells(group: string, text: string, symbols: string)
    requires forall i :: 0 <= i < |group| ==> Upper(group[i]) == group[i] && !Dropped(group[i])
    requires Spells(text, symbols)
    ensures Spells(group + text, group + symbols)
  {
    if group == "" {
      assert group + text == text && group + symbols == symbols;
    } else {
      FillerIsDropped(group[0]);
      PlainSpells(group[1..], text, symbols);
      assert (group + text)[1..] == group[1..] + text;
      assert (group + symbols)[1..] == group[1..] + symbols;
    }
  }

  /** Round trip: however a generated code is written down, it passes the check and decodes to
      the 17 big-endian bytes of its 135-bit value. */
  lemma RoundTrip(value: nat, text: string)
    requires value < Pow(2, PAYLOAD_BITS)
    requires Spells(text, CodeOf(value))
    ensures VerifyCheckSymbol(Normalise(text))
    ensures Decode(Normalise(text)) == Returned(Digits(value, 256, PAYLOAD_BYTES))
    ensures Horner(Digits(value, 256, PAYLOAD_BYTES), 256) == value
  {
    var code, typed := CodeOf(value), Normalise(text);
    CodeIsPlain(value);
    SpellingNormalises(text, code);
    SpelledPayload(value, typed);
    ReadingsAgree(typed[PAYLOAD_SYMBOLS], value % 37);
    PayloadDenotes(value);
    BytesHoldPayloads(value);
    DigitsDenote(value, 256, PAYLOAD_BYTES);
  }

  lemma SpelledPayload(value: nat, typed: string)
    requires |typed| == CODE_SYMBOLS
    requires forall i :: 0 <= i < CODE_SYMBOLS ==>
               ReadsUpper(typed[i], CodeOf(value)[i]) && Upper(typed[i]) == typed[i]
    ensures AllData(typed[..PAYLOAD_SYMBOLS])
    ensures DataValues(typed[..PAYLOAD_SYMBOLS]) == Digits(value, 32, PAYLOAD_SYMBOLS)
  {
    var ds := Digits(value, 32, PAYLOAD_SYMBOLS);
    forall i | 0 <= i < PAYLOAD_SYMBOLS ensures DataValue(typed[i]) == Some(ds[i]) {
      PrintedSymbol(ds[i]);
      assert ReadsUpper(typed[i], CodeOf(value)[i]);
      ReadingsAgree(typed[i], ds[i]);
    }
    assert DataValues(typed[..PAYLOAD_SYMBOLS]) == ds;
  }

  lemma BytesHoldPayloads(value: nat)
    requires value < Pow(2, PAYLOAD_BITS)
    ensures value < Pow(256, PAYLOAD_BYTES)
  {
    assert Pow(2, 8) == 256;
    PowOfPow(2, 8, PAYLOAD_BYTES);
    PowSplit(2, 1, PAYLOAD_BITS);
    assert Pow(2, 1) == 2;
  }

  /** The symbols of a code are in upper case and no filler. */
  lemma CodeIsPlain(value: nat)
    ensures forall i :: 0 <= i < CODE_SYMBOLS ==>
              Upper(CodeOf(value)[i]) == CodeOf(value)[i] && !Dropped(CodeOf(value)[i])
  {
    var ds := Digits(value, 32, PAYLOAD_SYMBOLS);
    forall i | 0 <= i < CODE_SYMBOLS ensures Upper(CodeOf(value)[i]) == CodeOf(value)[i] && !Dropped(CodeOf(value)[i]) {
      PrintedSymbol(if i < PAYLOAD_SYMBOLS then ds[i] else value % 37);
    }
  }

  /** What `generate_code` shows is itself such a spelling. */
  lemma PrintedFormRoundTrips(value: nat)
    requires value < Pow(2, PAYLOAD_BITS)
    ensures Spells(FormatCode(CodeOf(value)), CodeOf(value))
    ensures Decode(Normalise(FormatCode(CodeOf(value)))) == Returned(Digits(value, 256, PAYLOAD_BYTES))
  {
    CodeIsPlain(value);
    PrintedSpells(CodeOf(value));
    RoundTrip(value, FormatCode(CodeOf(value)));
  }

  /** Groups of four between hyphens. */
  lemma {:induction false} FormatSpelledOut(symbols: string, p: nat)
    requires symbols != ""
    ensures |FormatCode(symbols)| == |symbols| + (|symbols| - 1) / 4
    ensures p < |FormatCode(symbols)| ==>
              && (p % 5 != 4 ==> p - p / 5 < |symbols|)
              && FormatCode(symbols)[p] == if p % 5 == 4 then '-' else symbols[p - p / 5]
    decreases |symbols|
  {
    if |symbols| > 4 {
      var rest := symbols[4..];
      FormatSpelledOut(rest, if p < 5 then 0 else p - 5);
      if 5 <= p < |FormatCode(symbols)| {
        assert FormatCode(symbols)[p] == FormatCode(rest)[p - 5];
        assert p / 5 == (p - 5) / 5 + 1 && p % 5 == (p - 5) % 5;
      }
    }
  }

  /** The symbols and their values: ten digits, the letters but I, L, O and U, and five check-only ones. */
  lemma AlphabetsSpelledOut(v: nat)
    requires v < 37
    ensures CheckValue("0123456789ABCDEFGHJKMNPQRSTVWXYZ*~$=U"[v]) == Some(v)
    ensures DataValue("0123456789ABCDEFGHJKMNPQRSTVWXYZ*~$=U"[v]) == if v < 32 then Some(v) else None
  {
    var spelled := "0123456789ABCDEFGHJKMNPQRSTVWXYZ*~$=U";
    assert spelled == CHECK_ALPHABET;
    PrintedSymbol(v);
    ValueBounds(spelled[v]);
  }

  /** Two codes decode to the same key material only if every payload symbol has the same value. */
  lemma DecodeIsInjective(code: string, other: string)
    requires Decode(code).Returned? && Decode(code) == Decode(other)
    ensures DataValues(code[..PAYLOAD_SYMBOLS]) == DataValues(other[..PAYLOAD_SYMBOLS])
  {
    var vs, ws := DataValues(code[..PAYLOAD_SYMBOLS]), DataValues(other[..PAYLOAD_SYMBOLS]);
    DataValuesBound(code[..PAYLOAD_SYMBOLS]);
    DataValuesBound(other[..PAYLOAD_SYMBOLS]);
    DigitsDenote(Horner(vs, 32), 256, PAYLOAD_BYTES);
    DigitsDenote(Horner(ws, 32), 256, PAYLOAD_BYTES);
    HornerInjective(vs, ws, 32);
  }

  lemma DataValuesBound(s: string)
    requires AllData(s) && |s| == PAYLOAD_SYMBOLS
    ensures forall i :: 0 <= i < |s| ==> DataValues(s)[i] < 32
    ensures Horner(DataValues(s), 32) < Pow(256, PAYLOAD_BYTES)
  {
    forall i | 0 <= i < |s| ensures DataValues(s)[i] < 32 {
      ValueBounds(s[i]);
    }
    HornerBound(DataValues(s), 32);
    assert Pow(2, 5) == 32;
    PowOfPow(2, 5, PAYLOAD_SYMBOLS);
    BytesHoldPayloads(Horner(DataValues(s), 32));
  }

  // ----- what the check symbol detects -----

  /** The value read at position `i`: a data value in the payload, a check value at the end. */
  function ValueAt(code: string, i: nat): Option<nat>
    requires |code| == CODE_SYMBOLS && i < CODE_SYMBOLS
  {
    if i < PAYLOAD_SYMBOLS then DataValue(code[i]) else CheckValue(code[i])
  }

  function Weight(i: nat): nat
    requires i < PAYLOAD_SYMBOLS
  {
    Pow(32, PAYLOAD_SYMBOLS - 1 - i)
  }

  /** The payload number of a code all of whose payload symbols are data symbols. */
  function Number(code: string): nat
    requires |code| == CODE_SYMBOLS && AllData(code[..PAYLOAD_SYMBOLS])
  {
    Horner(DataValues(code[..PAYLOAD_SYMBOLS]), 32)
  }

  /** What the check compares. */
  lemma VerifyMeans(code: string)
    requires |code| == CODE_SYMBOLS
    ensures VerifyCheckSymbol(code) <==>
              && AllData(code[..PAYLOAD_SYMBOLS]) && CheckValue(code[PAYLOAD_SYMBOLS]).Some?
              && Number(code) % 37 == CheckValue(code[PAYLOAD_SYMBOLS]).value
  {
  }

  /** The payload's values, position by position. */
  lemma PayloadValues(code: string)
    requires |code| == CODE_SYMBOLS && AllData(code[..PAYLOAD_SYMBOLS])
    ensures forall j :: 0 <= j < PAYLOAD_SYMBOLS ==>
              DataValue(code[j]).Some? && DataValues(code[..PAYLOAD_SYMBOLS])[j] == DataValue(code[j]).value < 32
  {
    var payload := code[..PAYLOAD_SYMBOLS];
    forall j | 0 <= j < PAYLOAD_SYMBOLS
      ensures DataValue(code[j]).Some? && DataValues(payload)[j] == DataValue(code[j]).value < 32
    {
      assert payload[j] == code[j];
      ValueBounds(code[j]);
    }
  }

  /** Every single-symbol error is detected: no two valid codes differ in exactly one value. */
  lemma SingleErrorDetected(code: string, typed: string, i: nat)
    requires VerifyCheckSymbol(code) && |typed| == CODE_SYMBOLS && i < CODE_SYMBOLS
    requires forall j :: 0 <= j < CODE_SYMBOLS && j != i ==> ValueAt(typed, j) == ValueAt(code, j)
    requires ValueAt(typed, i) != ValueAt(code, i)
    ensures !VerifyCheckSymbol(typed)
  {
    VerifyMeans(code);
    VerifyMeans(typed);
    if AllData(typed[..PAYLOAD_SYMBOLS]) {
      var vs, ws := DataValues(code[..PAYLOAD_SYMBOLS]), DataValues(typed[..PAYLOAD_SYMBOLS]);
      PayloadValues(code);
      PayloadValues(typed);
      forall j | 0 <= j < PAYLOAD_SYMBOLS && j != i ensures ws[j] == vs[j] {
        assert ValueAt(typed, j) == ValueAt(code, j);
      }
      if i < PAYLOAD_SYMBOLS {
        assert ValueAt(typed, PAYLOAD_SYMBOLS) == ValueAt(code, PAYLOAD_SYMBOLS);
        assert ws == vs[i := ws[i]];
        OneDigitDecidesIt(vs, i, ws[i]);
      } else {
        assert ws == vs;
      }
    }
  }

  lemma OneDigitDecidesIt(vs: seq<nat>, i: nat, v: nat)
    requires |vs| == PAYLOAD_SYMBOLS && i < PAYLOAD_SYMBOLS && vs[i] < 32 && v < 32 && v != vs[i]
    ensures Horner(vs[i := v], 32) % 37 != Horner(vs, 32) % 37
  {
    var d, w := v as int - vs[i], Weight(i);
    HornerUpdate(vs, i, v, 32);
    MultipleIffRemainder(Horner(vs[i := v], 32), Horner(vs, 32));
    if Multiple(d * w) {
      OnlyZeroKeepsTheCheck(d, i);
    }
  }

  lemma OnlyZeroKeepsTheCheck(d: int, i: nat)
    requires -37 < d < 37 && i < PAYLOAD_SYMBOLS && Multiple(d * Weight(i))
    ensures d == 0
  {
    WeightIsNoMultiple(i);
    Euclid(d, Weight(i));
    SmallMultipleIsZero(d);
  }

  lemma WeightIsNoMultiple(i: nat)
    requires i < PAYLOAD_SYMBOLS
    ensures !Multiple(Weight(i))
  {
    PowersOf32(PAYLOAD_SYMBOLS - 1 - i);
    MultipleIffRemainder(Weight(i), 0);
  }

  function Swap(code: string, i: nat, j: nat): string
    requires i < |code| && j < |code|
  {
    code[i := code[j]][j := code[i]]
  }

  /** Swapping any two payload symbols of different value is detected, at any distance. */
  lemma PayloadSwapDetected(code: string, i: nat, j: nat)
    requires VerifyCheckSymbol(code) && i < j < PAYLOAD_SYMBOLS
    requires ValueAt(code, i) != ValueAt(code, j)
    ensures !VerifyCheckSymbol(Swap(code, i, j))
  {
    var swapped := Swap(code, i, j);
    var vs := DataValues(code[..PAYLOAD_SYMBOLS]);
    SwapMovesTheNumber(code, i, j);
    MultipleIffRemainder(Number(swapped), Number(code));
    ValueBounds(code[i]);
    ValueBounds(code[j]);
    UnequalWeights(vs[j] as int - vs[i], i, j);
  }

  lemma SwapMovesTheNumber(code: string, i: nat, j: nat)
    requires |code| == CODE_SYMBOLS && AllData(code[..PAYLOAD_SYMBOLS]) && i < j < PAYLOAD_SYMBOLS
    ensures AllData(Swap(code, i, j)[..PAYLOAD_SYMBOLS])
    ensures var vs := DataValues(code[..PAYLOAD_SYMBOLS]);
            var d := vs[j] as int - vs[i];
            Number(Swap(code, i, j)) - Number(code) == d * Weight(i) - d * Weight(j)
  {
    var vs := DataValues(code[..PAYLOAD_SYMBOLS]);
    HornerSwap(vs, i, j, 32);
    SwapSwapsTheValues(code, i, j);
    assert Number(Swap(code, i, j)) == Horner(vs[i := vs[j]][j := vs[i]], 32);
  }

  lemma SwapSwapsTheValues(code: string, i: nat, j: nat)
    requires |code| == CODE_SYMBOLS && AllData(code[..PAYLOAD_SYMBOLS]) && i < j < PAYLOAD_SYMBOLS
    ensures AllData(Swap(code, i, j)[..PAYLOAD_SYMBOLS])
    ensures var vs := DataValues(code[..PAYLOAD_SYMBOLS]);
            DataValues(Swap(code, i, j)[..PAYLOAD_SYMBOLS]) == vs[i := vs[j]][j := vs[i]]
  {
    var payload, swapped := code[..PAYLOAD_SYMBOLS], Swap(code, i, j)[..PAYLOAD_SYMBOLS];
    forall m | 0 <= m < PAYLOAD_SYMBOLS
      ensures swapped[m] == payload[if m == i then j else if m == j then i else m]
    {
    }
    var vs := DataValues(payload);
    var moved := vs[i := vs[j]][j := vs[i]];
    forall m | 0 <= m < PAYLOAD_SYMBOLS ensures DataValues(swapped)[m] == moved[m] {
    }
  }

  lemma UnequalWeights(d: int, i: nat, j: nat)
    requires -37 < d < 37 && d != 0 && i < j < PAYLOAD_SYMBOLS
    ensures !Multiple(d * Weight(i) - d * Weight(j))
  {
    PowSplit(32, PAYLOAD_SYMBOLS - 1 - j, j - i);
    WeightIsNoMultiple(j);
    PowersOf32(j - i);
    UnequalMultiples(d, Weight(j), Pow(32, j - i));
  }

  lemma UnequalMultiples(d: int, w: int, p: int)
    requires -37 < d < 37 && d != 0 && !Multiple(w) && p % 37 != 1
    ensures !Multiple(d * (w * p) - d * w)
  {
    assert d * (w * p) - d * w == d * (w * (p - 1));
    NonzeroFactor(d, w * (p - 1));
    MultipleIffRemainder(p, 1);
    if Multiple(w * (p - 1)) {
      Euclid(w, p - 1);
    }
  }

  /** Swapping the check symbol with a payload symbol of another value is detected at every
      position but one: it passes exactly when the payload symbol is the ninth (weight
      32^18 = -1 modulo 37) and the check symbol is itself a data symbol. */
  lemma CheckSwapUndetectedIff(code: string, i: nat)
    requires VerifyCheckSymbol(code) && i < PAYLOAD_SYMBOLS
    requires CheckValue(code[i]) != CheckValue(code[PAYLOAD_SYMBOLS])
    ensures VerifyCheckSymbol(Swap(code, i, PAYLOAD_SYMBOLS)) <==>
              i == 8 && DataValue(code[PAYLOAD_SYMBOLS]).Some?
  {
    var swapped, v, k := Swap(code, i, PAYLOAD_SYMBOLS), code[i], code[PAYLOAD_SYMBOLS];
    VerifyMeans(code);
    VerifyMeans(swapped);
    PayloadValues(code);
    ValueBounds(v);
    ValueBounds(k);
    assert swapped[PAYLOAD_SYMBOLS] == v && swapped[..PAYLOAD_SYMBOLS][i] == k;
    if DataValue(k).Some? {
      CheckMovesIn(code, i, swapped);
      CheckSwapArithmetic(DataValues(code[..PAYLOAD_SYMBOLS]), i, DataValue(k).value);
    }
  }

  lemma CheckMovesIn(code: string, i: nat, swapped: string)
    requires |code| == CODE_SYMBOLS && AllData(code[..PAYLOAD_SYMBOLS]) && i < PAYLOAD_SYMBOLS
    requires DataValue(code[PAYLOAD_SYMBOLS]).Some? && swapped == Swap(code, i, PAYLOAD_SYMBOLS)
    ensures AllData(swapped[..PAYLOAD_SYMBOLS])
    ensures DataValues(swapped[..PAYLOAD_SYMBOLS])
         == DataValues(code[..PAYLOAD_SYMBOLS])[i := DataValue(code[PAYLOAD_SYMBOLS]).value]
  {
    var payload, moved := code[..PAYLOAD_SYMBOLS], swapped[..PAYLOAD_SYMBOLS];
    forall m | 0 <= m < PAYLOAD_SYMBOLS ensures moved[m] == if m == i then code[PAYLOAD_SYMBOLS] else payload[m] {
    }
    var vs := DataValues(payload)[i := DataValue(code[PAYLOAD_SYMBOLS]).value];
    forall m | 0 <= m < PAYLOAD_SYMBOLS ensures DataValues(moved)[m] == vs[m] {
    }
  }

  /** Such a code exists: in the code of 1 all payload symbols but the last are 0 and the check symbol
      is 1, so swapping the ninth symbol with it goes unnoticed, and the code then denotes another value. */
  lemma CheckSwapCanPass()
    ensures VerifyCheckSymbol(CodeOf(1)) && VerifyCheckSymbol(Swap(CodeOf(1), 8, PAYLOAD_SYMBOLS))
    ensures Swap(CodeOf(1), 8, PAYLOAD_SYMBOLS) != CodeOf(1)
  {
    OneIsInRange();
    CodeVerifies(1);
    CodeOfOne();
    PrintedSymbol(0);
    PrintedSymbol(1);
    CheckSwapUndetectedIff(CodeOf(1), 8);
  }

  lemma OneIsInRange()
    ensures 1 < Pow(2, PAYLOAD_BITS)
  {
    PowIsPositive(2, PAYLOAD_BITS - 1);
  }

  lemma CodeOfOne()
    ensures CodeOf(1)[8] == CHECK_ALPHABET[0] && CodeOf(1)[PAYLOAD_SYMBOLS] == CHECK_ALPHABET[1]
  {
    var ds := Digits(1, 32, PAYLOAD_SYMBOLS);
    ZeroHasZeroDigits(32, PAYLOAD_SYMBOLS - 1);
    assert ds == Digits(0, 32, PAYLOAD_SYMBOLS - 1) + [1];
    assert PayloadOf(1)[8] == DATA_ALPHABET[ds[8]];
  }

  /** Every generated code passes its own check. */
  lemma CodeVerifies(value: nat)
    requires value < Pow(2, PAYLOAD_BITS)
    ensures VerifyCheckSymbol(CodeOf(value))
  {
    PayloadDenotes(value);
    PrintedSymbol(value % 37);
    assert CodeOf(value)[..PAYLOAD_SYMBOLS] == PayloadOf(value);
    VerifyMeans(CodeOf(value));
  }

  lemma CheckSwapArithmetic(vs: seq<nat>, i: nat, k: nat)
    requires |vs| == PAYLOAD_SYMBOLS && i < PAYLOAD_SYMBOLS
    requires vs[i] < 32 && k < 32 && vs[i] != k && Horner(vs, 32) % 37 == k
    ensures Horner(vs[i := k], 32) % 37 == vs[i] <==> i == 8
  {
    HornerUpdate(vs, i, k, 32);
    SwappedRemainder(Horner(vs, 32), Horner(vs[i := k], 32), vs[i], k, Weight(i));
    PowersOf32(PAYLOAD_SYMBOLS - 1 - i);
  }

  lemma SwappedRemainder(n: int, m: int, v: int, k: int, w: int)
    requires 0 <= v < 32 && 0 <= k < 32 && v != k && n % 37 == k && m - n == (k - v) * w
    ensures m % 37 == v <==> w % 37 == 36
  {
    MultipleIffRemainder(m, v);
    MultipleIffRemainder(n, k);
    MultipleIffRemainder(w, -1);
    ShiftedMultiple(n - k, m - v, k - v, w);
  }

  lemma ShiftedMultiple(x: int, y: int, d: int, w: int)
    requires Multiple(x) && -37 < d < 37 && d != 0 && y == x + d * w + d
    ensures Multiple(y) <==> Multiple(w + 1)
  {
    assert d * (w + 1) == d * w + d;
    MultipleSum(x, d * (w + 1));
    NonzeroFactor(d, w + 1);
  }

  lemma NonzeroFactor(d: int, x: int)
    requires -37 < d < 37 && d != 0
    ensures Multiple(d * x) <==> Multiple(x)
  {
    if Multiple(d * x) {
      Euclid(d, x);
      if Multiple(d) {
        SmallMultipleIsZero(d);
      }
    }
    if Multiple(x) {
      var q :| x == 37 * q;
      assert d * x == 37 * (d * q);
    }
  }

  lemma MultipleSum(x: int, y: int)
    requires Multiple(x)
    ensures Multiple(x + y) <==> Multiple(y)
  {
    var p :| x == 37 * p;
    if Multiple(x + y) {
      var q :| x + y == 37 * q;
      assert y == 37 * (q - p);
    }
    if Multiple(y) {
      var q :| y == 37 * q;
      assert x + y == 37 * (p + q);
    }
  }
}
