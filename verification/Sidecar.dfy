/** The version-2 key record beside the vault, as JSON values (`crypto.py`, `keywrap.py`), over ideal
    key derivation and authenticated wrapping. */
module Sidecar {
  import opened Wrappers
  import opened Numerals

  type Bytes = seq<bv8>

  const SIDECAR_VERSION := 2
  const ARGON2_MEMORY_KIB := 47104
  const ARGON2_MEMORY_FLOOR_KIB := 47104
  const ARGON2_TIME_COST := 1
  const ARGON2_PARALLELISM := 1
  const KEY_LEN := 32
  const SALT_LEN := 16
  const NONCE_LEN := 12
  const WRAPPED_DEK_LEN := 48

  // ----- ideal cryptography -----

  /** The Argon2id costs a sidecar records. */
  datatype Costs = Costs(memoryKib: int, timeCost: int, parallelism: int, keyLen: int, saltLen: int)

  /** A key from the ideal derivation: another secret, salt or cost gives another key. */
  datatype Kek = Derived(secret: Bytes, salt: Blob, costs: Costs)

  /** Bytes on disk: plain ones, or an ideal authenticated ciphertext, which tells its inputs apart. */
  datatype Blob = Plain(bytes: Bytes) | Sealed(kek: Kek, nonce: Bytes, aad: string, dek: Bytes)

  function Length(b: Blob): nat {
    if b.Plain? then |b.bytes| else |b.dek| + 16
  }

  // ----- JSON -----

  /** The names the format gives meaning to, and every other text. */
  datatype Name =
    | SidecarVersion | Kdf | Slots | MigrationPending | CipherCompatibility
    | MemoryKib | TimeCost | Parallelism | KeyLen | SaltLen
    | SaltHex | NonceHex | WrappedDekHex
    | Master | Recovery
    | Other(text: string)

  /** A hex text is its bytes and whether it is spelled as the app writes it; `Text` is no hex. */
  datatype Json =
    | Null | Flag(b: bool) | Number(n: int) | Text(s: string)
    | Hex(blob: Blob, canonical: bool) | List(items: seq<Json>) | Object(fields: map<Name, Json>)

  /** `bytes.fromhex`. */
  function FromHex(j: Json): Option<Blob> {
    if j.Hex? then Some(j.blob) else None
  }

  /** `_json_int`: a JSON integer and nothing else. */
  function AsInt(j: Json): Option<int> {
    if j.Number? then Some(j.n) else None
  }

  // ----- records -----

  datatype SlotRecord =
    | Healthy(salt: Blob, nonce: Blob, wrapped: Blob, extra: map<Name, Json>)
    | Damaged(raw: Json)

  datatype VaultSidecar = VaultSidecar(costs: Costs, slots: map<Name, SlotRecord>, pending: bool, compat: Option<int>,
                                       extra: map<Name, Json>, kdfExtra: map<Name, Json>)

  function TopFields(): set<Name> { {SidecarVersion, Kdf, Slots, MigrationPending, CipherCompatibility} }

  function KdfFields(): set<Name> { {MemoryKib, TimeCost, Parallelism, KeyLen, SaltLen} }

  function SlotFields(): set<Name> { {SaltHex, NonceHex, WrappedDekHex} }

  /** `validate_params` for one slot's salt. */
  predicate ParamsValid(c: Costs, salt: Blob) {
    && c.keyLen == KEY_LEN
    && Length(salt) == SALT_LEN && c.saltLen == SALT_LEN
    && c.memoryKib >= ARGON2_MEMORY_FLOOR_KIB && c.timeCost >= 1 && c.parallelism >= 1
  }

  /** `validate_slot`; a damaged record has no bytes, so its lengths are wrong. */
  predicate SlotValid(c: Costs, r: SlotRecord) {
    r.Healthy? && Length(r.nonce) == NONCE_LEN && Length(r.wrapped) == WRAPPED_DEK_LEN && ParamsValid(c, r.salt)
  }

  // ----- reading -----

  /** `_parse_slot`; `None` where it raises. */
  function ParseSlot(j: Json): Option<SlotRecord> {
    if !j.Object? || !(SlotFields() <= j.fields.Keys) then None
    else
      var salt, nonce := FromHex(j.fields[SaltHex]), FromHex(j.fields[NonceHex]);
      var wrapped := FromHex(j.fields[WrappedDekHex]);
      if salt.None? || nonce.None? || wrapped.None? then None
      else Some(Healthy(salt.value, nonce.value, wrapped.value, j.fields - SlotFields()))
  }

  function SlotOf(j: Json): SlotRecord {
    if ParseSlot(j).Some? then ParseSlot(j).value else Damaged(j)
  }

  function SlotsOf(raw: map<Name, Json>): map<Name, SlotRecord> {
    map n | n in raw :: SlotOf(raw[n])
  }

  function ReadCosts(kdf: map<Name, Json>): Option<Costs> {
    if !(KdfFields() <= kdf.Keys) then None
    else
      var m, t, p := AsInt(kdf[MemoryKib]), AsInt(kdf[TimeCost]), AsInt(kdf[Parallelism]);
      var k, s := AsInt(kdf[KeyLen]), AsInt(kdf[SaltLen]);
      if m.None? || t.None? || p.None? || k.None? || s.None? then None
      else Some(Costs(m.value, t.value, p.value, k.value, s.value))
  }

  function ReadPending(top: map<Name, Json>): Option<bool> {
    if MigrationPending !in top then Some(false)
    else if top[MigrationPending].Flag? then Some(top[MigrationPending].b) else None
  }

  /** The outer option is the failure; an absent or null level is no level. */
  function ReadCompat(top: map<Name, Json>): Option<Option<int>> {
    if CipherCompatibility !in top || top[CipherCompatibility].Null? then Some(None)
    else if top[CipherCompatibility].Number? then Some(Some(top[CipherCompatibility].n)) else None
  }

  datatype VersionError = NotAVersion

  /** `_version_of`: the absent field is version 1. */
  function VersionOf(top: map<Name, Json>): Result<nat, VersionError> {
    if SidecarVersion !in top then Returned(1)
    else if top[SidecarVersion] == Number(SIDECAR_VERSION) then Returned(SIDECAR_VERSION)
    else Raised(NotAVersion)
  }

  /** `read_sidecar_v2`; `None` is its `KdfPolicyError`. Only damage to `master` bars the vault. */
  function ReadSidecar(j: Json): Option<VaultSidecar> {
    if !j.Object? || VersionOf(j.fields) != Returned(SIDECAR_VERSION) then None
    else if Kdf !in j.fields || !j.fields[Kdf].Object? || Slots !in j.fields || !j.fields[Slots].Object? then None
    else
      var costs, raw := ReadCosts(j.fields[Kdf].fields), j.fields[Slots].fields;
      var pending, compat := ReadPending(j.fields), ReadCompat(j.fields);
      if costs.None? || pending.None? || compat.None? || Master !in raw || !SlotValid(costs.value, SlotOf(raw[Master]))
      then None
      else Some(VaultSidecar(costs.value, SlotsOf(raw), pending.value, compat.value,
                             j.fields - TopFields(), j.fields[Kdf].fields - KdfFields()))
  }

  // ----- writing -----

  function ToHex(b: Blob): Json {
    Hex(b, true)
  }

  /** `SlotRecord.to_dict`: a damaged record goes back as it was found. */
  function SlotJson(r: SlotRecord): Json {
    match r
    case Damaged(raw) => raw
    case Healthy(salt, nonce, wrapped, extra) =>
      Object(extra + map[SaltHex := ToHex(salt), NonceHex := ToHex(nonce), WrappedDekHex := ToHex(wrapped)])
  }

  function CostFields(c: Costs): map<Name, Json> {
    map[MemoryKib := Number(c.memoryKib), TimeCost := Number(c.timeCost), Parallelism := Number(c.parallelism),
        KeyLen := Number(c.keyLen), SaltLen := Number(c.saltLen)]
  }

  /** The top level of a written sidecar. */
  function TopJson(extra: map<Name, Json>, kdf: map<Name, Json>, slots: map<Name, Json>, pending: bool,
                   compat: Option<int>): map<Name, Json> {
    var top := extra + map[SidecarVersion := Number(SIDECAR_VERSION), Kdf := Object(kdf), Slots := Object(slots)];
    var flagged := if pending then top[MigrationPending := Flag(true)] else top;
    if compat.Some? then flagged[CipherCompatibility := Number(compat.value)] else flagged
  }

  function SlotsJson(slots: map<Name, SlotRecord>): map<Name, Json> {
    map n | n in slots :: SlotJson(slots[n])
  }

  /** `VaultSidecar.to_dict`. */
  function ToJson(s: VaultSidecar): Json {
    Object(TopJson(s.extra, s.kdfExtra + CostFields(s.costs), SlotsJson(s.slots), s.pending, s.compat))
  }

  function WithSlot(s: VaultSidecar, name: Name, r: SlotRecord): VaultSidecar {
    s.(slots := s.slots[name := r])
  }

  function WithoutSlot(s: VaultSidecar, name: Name): VaultSidecar {
    s.(slots := s.slots - {name})
  }

  // ----- round trip -----

  /** What reading can yield, and what the app itself builds. */
  ghost predicate WellFormed(s: VaultSidecar) {
    && s.extra.Keys !! TopFields() && s.kdfExtra.Keys !! KdfFields()
    && Master in s.slots && SlotValid(s.costs, s.slots[Master])
    && forall n :: n in s.slots ==> RecordWellFormed(s.slots[n])
  }

  ghost predicate RecordWellFormed(r: SlotRecord) {
    match r
    case Damaged(raw) => ParseSlot(raw).None?
    case Healthy(_, _, _, extra) => extra.Keys !! SlotFields()
  }

  /** A record that reads is fit to write, and its costs and master slot are no weaker than the format's. */
  lemma ReadIsWellFormed(j: Json)
    requires ReadSidecar(j).Some?
    ensures WellFormed(ReadSidecar(j).value)
    ensures var v := ReadSidecar(j).value;
            && v.costs.memoryKib >= 47104 && v.costs.timeCost >= 1 && v.costs.parallelism >= 1
            && v.costs.keyLen == 32 && v.costs.saltLen == 16
            && v.slots[Master].Healthy? && Length(v.slots[Master].salt) == 16 && Length(v.slots[Master].nonce) == 12
            && Length(v.slots[Master].wrapped) == 48
  {
  }

  /** Which objects read as such a record: version 2, integer costs at or above the floors, flags of the
      right kind if present, and a sound master slot; unrecognised fields and other slots do not matter. */
  ghost predicate IsReadable(j: Json) {
    && j.Object? && SidecarVersion in j.fields && j.fields[SidecarVersion] == Number(2)
    && Kdf in j.fields && j.fields[Kdf].Object? && Slots in j.fields && j.fields[Slots].Object?
    && CostsReadable(j.fields[Kdf].fields)
    && (MigrationPending in j.fields ==> j.fields[MigrationPending].Flag?)
    && (CipherCompatibility in j.fields ==>
          j.fields[CipherCompatibility].Null? || j.fields[CipherCompatibility].Number?)
    && Master in j.fields[Slots].fields && MasterReadable(j.fields[Slots].fields[Master])
  }

  ghost predicate CostsReadable(kdf: map<Name, Json>) {
    && MemoryKib in kdf && kdf[MemoryKib].Number? && kdf[MemoryKib].n >= 47104
    && TimeCost in kdf && kdf[TimeCost].Number? && kdf[TimeCost].n >= 1
    && Parallelism in kdf && kdf[Parallelism].Number? && kdf[Parallelism].n >= 1
    && KeyLen in kdf && kdf[KeyLen] == Number(32) && SaltLen in kdf && kdf[SaltLen] == Number(16)
  }

  ghost predicate MasterReadable(j: Json) {
    && j.Object? && SaltHex in j.fields && NonceHex in j.fields && WrappedDekHex in j.fields
    && j.fields[SaltHex].Hex? && Length(j.fields[SaltHex].blob) == 16
    && j.fields[NonceHex].Hex? && Length(j.fields[NonceHex].blob) == 12
    && j.fields[WrappedDekHex].Hex? && Length(j.fields[WrappedDekHex].blob) == 48
  }

  /** Exactly these. */
  lemma ReadsIff(j: Json)
    ensures ReadSidecar(j).Some? <==> IsReadable(j)
  {
    if j.Object? && Kdf in j.fields && j.fields[Kdf].Object? && Slots in j.fields && j.fields[Slots].Object? {
      var kdf, raw := j.fields[Kdf].fields, j.fields[Slots].fields;
      if ReadCosts(kdf).Some? && Master in raw {
        MasterReadsIff(kdf, raw[Master]);
      }
      assert CostsReadable(kdf) ==> ReadCosts(kdf).Some?;
    }
  }

  lemma MasterReadsIff(kdf: map<Name, Json>, j: Json)
    requires ReadCosts(kdf).Some?
    ensures SlotValid(ReadCosts(kdf).value, SlotOf(j)) <==> CostsReadable(kdf) && MasterReadable(j)
  {
  }

  lemma SlotRoundTrip(r: SlotRecord)
    requires RecordWellFormed(r)
    ensures SlotOf(SlotJson(r)) == r
  {
    if r.Healthy? {
      var fields := SlotJson(r).fields;
      assert fields - SlotFields() == r.extra;
      assert SlotFields() <= fields.Keys;
    }
  }

  lemma CostsRoundTrip(s: VaultSidecar)
    requires s.kdfExtra.Keys !! KdfFields()
    ensures ReadCosts(s.kdfExtra + CostFields(s.costs)) == Some(s.costs)
    ensures (s.kdfExtra + CostFields(s.costs)) - KdfFields() == s.kdfExtra
  {
  }

  lemma TopReads(extra: map<Name, Json>, kdf: map<Name, Json>, slots: map<Name, Json>, pending: bool,
                 compat: Option<int>)
    requires extra.Keys !! TopFields()
    ensures var top := TopJson(extra, kdf, slots, pending, compat);
            && VersionOf(top) == Returned(SIDECAR_VERSION) && ReadPending(top) == Some(pending)
            && ReadCompat(top) == Some(compat)
            && Kdf in top && top[Kdf] == Object(kdf) && Slots in top && top[Slots] == Object(slots)
            && top - TopFields() == extra
            && forall n :: n !in TopFields() ==> (n in top <==> n in extra) && (n in top ==> top[n] == extra[n])
  {
  }

  lemma SlotsRoundTrip(slots: map<Name, SlotRecord>)
    requires forall n :: n in slots ==> RecordWellFormed(slots[n])
    ensures SlotsOf(SlotsJson(slots)) == slots
  {
    forall n | n in slots ensures SlotOf(SlotJson(slots[n])) == slots[n] {
      SlotRoundTrip(slots[n]);
    }
  }

  /** Writing loses nothing: reading back gives the same record. */
  lemma ReadsBack(s: VaultSidecar)
    requires WellFormed(s)
    ensures ReadSidecar(ToJson(s)) == Some(s)
  {
    CostsRoundTrip(s);
    SlotsRoundTrip(s.slots);
    TopReads(s.extra, s.kdfExtra + CostFields(s.costs), SlotsJson(s.slots), s.pending, s.compat);
    assert SlotOf(SlotsJson(s.slots)[Master]) == SlotsOf(SlotsJson(s.slots))[Master];
  }

  // ----- a rewrite keeps what it does not own -----

  /** The same record, its three hex fields spelled as the app spells them. */
  function Respelled(j: Json): Json {
    if ParseSlot(j).None? then j
    else Object(j.fields + map[SaltHex := ToHex(j.fields[SaltHex].blob), NonceHex := ToHex(j.fields[NonceHex].blob),
                               WrappedDekHex := ToHex(j.fields[WrappedDekHex].blob)])
  }

  lemma SlotRewrites(j: Json)
    ensures SlotJson(SlotOf(j)) == Respelled(j)
  {
    if ParseSlot(j).Some? {
      assert SlotJson(SlotOf(j)).fields == Respelled(j).fields;
    }
  }

  /** `after` differs from `before` in the slot `name` only: unrecognised fields at every level, costs and
      flags are the same, every other slot is the same record, and a damaged one the very same value. */
  ghost predicate KeepsTheRest(before: Json, after: Json, name: Name)
    requires ReadSidecar(before).Some?
  {
    && after.Object? && Kdf in after.fields && Slots in after.fields && after.fields[Slots].Object?
    && (forall n :: n !in TopFields() ==>
          (n in after.fields <==> n in before.fields) && (n in after.fields ==> after.fields[n] == before.fields[n]))
    && after.fields[Kdf] == before.fields[Kdf]
    && ReadPending(after.fields) == ReadPending(before.fields) && ReadCompat(after.fields) == ReadCompat(before.fields)
    && (forall n :: n != name ==>
          (n in after.fields[Slots].fields <==> n in before.fields[Slots].fields)
          && (n in after.fields[Slots].fields ==>
               after.fields[Slots].fields[n] == Respelled(before.fields[Slots].fields[n])))
  }

  lemma KdfRewrites(kdf: map<Name, Json>)
    requires ReadCosts(kdf).Some?
    ensures (kdf - KdfFields()) + CostFields(ReadCosts(kdf).value) == kdf
  {
  }

  /** Any edit of one slot, written back, keeps the rest. */
  lemma RewriteKeepsTheRest(before: Json, s: VaultSidecar, name: Name)
    requires ReadSidecar(before).Some? && s == ReadSidecar(before).value.(slots := s.slots)
    requires forall n :: n != name ==>
               (n in s.slots <==> n in ReadSidecar(before).value.slots)
               && (n in s.slots ==> s.slots[n] == ReadSidecar(before).value.slots[n])
    ensures KeepsTheRest(before, ToJson(s), name)
  {
    KdfRewrites(before.fields[Kdf].fields);
    TopReads(s.extra, s.kdfExtra + CostFields(s.costs), SlotsJson(s.slots), s.pending, s.compat);
    OtherSlotsRewrite(before.fields[Slots].fields, s.slots, name);
  }

  lemma OtherSlotsRewrite(raw: map<Name, Json>, slots: map<Name, SlotRecord>, name: Name)
    requires forall n :: n != name ==> (n in slots <==> n in raw) && (n in slots ==> slots[n] == SlotOf(raw[n]))
    ensures forall n :: n != name ==>
              && (n in SlotsJson(slots) <==> n in raw)
              && (n in raw ==> SlotsJson(slots)[n] == Respelled(raw[n]))
  {
    forall n | n != name && n in raw ensures SlotsJson(slots)[n] == Respelled(raw[n]) {
      SlotRewrites(raw[n]);
    }
  }

  // ----- the additional authenticated data -----

  function NameText(n: Name): string {
    match n
    case SidecarVersion => "sidecar_version" case Kdf => "kdf" case Slots => "slots"
    case MigrationPending => "migration_pending" case CipherCompatibility => "cipher_compatibility"
    case MemoryKib => "memory_kib" case TimeCost => "time_cost" case Parallelism => "parallelism"
    case KeyLen => "key_len" case SaltLen => "salt_len"
    case SaltHex => "salt_hex" case NonceHex => "nonce_hex" case WrappedDekHex => "wrapped_dek_hex"
    case Master => "master" case Recovery => "recovery"
    case Other(text) => text
  }

  /** Python's `str` of an integer. */
  function Str(n: int): string {
    if n < 0 then "-" + Decimal(-n) else Decimal(n)
  }

  /** `slot_aad`. */
  function SlotAad(slot: Name, c: Costs): string {
    "finbreak-kdf-v2|" + (NameText(slot) + ("|" + (Str(c.memoryKib) + ("|" + (Str(c.timeCost)
    + ("|" + (Str(c.parallelism) + ("|" + Str(c.keyLen)))))))))
  }

  predicate BarFree(s: string) {
    forall i :: 0 <= i < |s| ==> s[i] != '|'
  }

  lemma {:induction false} DecimalBarFree(n: nat)
    ensures BarFree(Decimal(n)) && |Decimal(n)| >= 1 && Decimal(n)[0] != '-'
  {
    if n >= 10 {
      DecimalBarFree(n / 10);
    }
  }

  lemma StrInjective(m: int, n: int)
    ensures BarFree(Str(m))
    ensures Str(m) == Str(n) ==> m == n
  {
    DecimalBarFree(if m < 0 then -m else m);
    DecimalBarFree(if n < 0 then -n else n);
    if Str(m) == Str(n) {
      if m < 0 && n < 0 {
        assert Str(m)[1..] == Decimal(-m) && Str(n)[1..] == Decimal(-n);
        DecimalInjective(-m, -n);
      } else if m >= 0 && n >= 0 {
        DecimalInjective(m, n);
      }
    }
  }

  /** The first bar ends the first part. */
  lemma {:induction false} BarSplits(a: string, x: string, b: string, y: string)
    requires BarFree(a) && BarFree(b) && a + ("|" + x) == b + ("|" + y)
    ensures a == b && x == y
    decreases |a|
  {
    var s, t := a + ("|" + x), b + ("|" + y);
    if a != "" && b != "" {
      assert s[1..] == a[1..] + ("|" + x) && t[1..] == b[1..] + ("|" + y);
      assert a == [s[0]] + a[1..] && b == [t[0]] + b[1..];
      BarSplits(a[1..], x, b[1..], y);
    } else {
      assert s[0] == t[0];
      assert x == s[|a| + 1..] && y == t[|b| + 1..];
    }
  }

  /** The wrapped key is bound to the slot's name and to the costs: equal data, equal inputs. */
  lemma AadBindsNameAndCosts(slot: Name, c: Costs, other: Name, d: Costs)
    requires BarFree(NameText(slot)) && BarFree(NameText(other)) && SlotAad(slot, c) == SlotAad(other, d)
    ensures NameText(slot) == NameText(other)
    ensures c.memoryKib == d.memoryKib && c.timeCost == d.timeCost
              && c.parallelism == d.parallelism && c.keyLen == d.keyLen
  {
    StrInjective(c.memoryKib, d.memoryKib);
    StrInjective(d.memoryKib, c.memoryKib);
    StrInjective(c.timeCost, d.timeCost);
    StrInjective(d.timeCost, c.timeCost);
    StrInjective(c.parallelism, d.parallelism);
    StrInjective(d.parallelism, c.parallelism);
    StrInjective(c.keyLen, d.keyLen);
    var l4, r4 := Str(c.parallelism) + ("|" + Str(c.keyLen)), Str(d.parallelism) + ("|" + Str(d.keyLen));
    var l3, r3 := Str(c.timeCost) + ("|" + l4), Str(d.timeCost) + ("|" + r4);
    var l2, r2 := Str(c.memoryKib) + ("|" + l3), Str(d.memoryKib) + ("|" + r3);
    assert NameText(slot) + ("|" + l2) == SlotAad(slot, c)[16..];
    assert NameText(other) + ("|" + r2) == SlotAad(other, d)[16..];
    BarSplits(NameText(slot), l2, NameText(other), r2);
    BarSplits(Str(c.memoryKib), l3, Str(d.memoryKib), r3);
    BarSplits(Str(c.timeCost), l4, Str(d.timeCost), r4);
    BarSplits(Str(c.parallelism), Str(c.keyLen), Str(d.parallelism), Str(d.keyLen));
  }
}
