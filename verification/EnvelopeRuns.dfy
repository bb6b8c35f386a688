/** What every run of the key envelope keeps: the database key never changes, and a credential opens a
    slot exactly if it is the last one written there (`services/auth.py`, `crypto.py`). */
module EnvelopeRuns {
  import opened Wrappers
  import opened Sidecar
  import opened Envelope

  /** One request; fresh salts, nonces and the database key are what the random source gives it. */
  datatype Operation =
    | DoFirstRun(password: Bytes, salt: Bytes, nonce: Bytes, dek: Bytes)
    | DoLock
    | DoUnlock(password: Bytes)
    | DoRecoveryUnlock(payload: Bytes)
    | ChangePassword(password: Bytes, salt: Bytes, nonce: Bytes)
    | AddRecovery(payload: Bytes, salt: Bytes, nonce: Bytes)
    | DropRecovery

  /** The lengths the random source is asked for. */
  predicate Drawn(op: Operation) {
    match op
    case DoFirstRun(_, salt, nonce, dek) => |salt| == SALT_LEN && |nonce| == NONCE_LEN && |dek| == KEY_LEN
    case ChangePassword(_, salt, nonce) => |salt| == SALT_LEN && |nonce| == NONCE_LEN
    case AddRecovery(_, salt, nonce) => |salt| == SALT_LEN && |nonce| == NONCE_LEN
    case _ => true
  }

  function After(s: Session, op: Operation): Session {
    match op
    case DoFirstRun(password, salt, nonce, dek) => FirstRun(s, password, salt, nonce, dek).session
    case DoLock => Locked(s)
    case DoUnlock(password) => Unlock(s, password).session
    case DoRecoveryUnlock(payload) => RecoveryUnlock(s, payload).session
    case ChangePassword(password, salt, nonce) => WriteSlot(s, Master, password, salt, nonce).session
    case AddRecovery(payload, salt, nonce) => WriteSlot(s, Recovery, payload, salt, nonce).session
    case DropRecovery => RemoveRecovery(s).session
  }

  // ----- an enrolled vault -----

  type Credentials = map<Name, Bytes>

  /** The record wraps `dek` for `secret`. */
  ghost predicate Wraps(r: SlotRecord, slot: Name, c: Costs, secret: Bytes, dek: Bytes) {
    && r.Healthy? && r.nonce.Plain? && Length(r.nonce) == NONCE_LEN && Length(r.salt) == SALT_LEN
    && r.wrapped == WrapDek(Derived(secret, r.salt, c), dek, r.nonce.bytes, slot, c)
  }

  /** A record no credential opens: damaged, or no ciphertext of the app's. */
  ghost predicate Dead(r: SlotRecord) {
    r.Damaged? || r.wrapped.Plain?
  }

  /** The sidecar record opens with these credentials and no others. */
  ghost predicate Opens(v: VaultSidecar, creds: Credentials, dek: Bytes) {
    && !v.pending && (v.compat.Some? ==> v.compat.value == 4)
    && Master in creds && creds.Keys <= {Master, Recovery}
    && (forall n :: n in creds ==> n in v.slots && Wraps(v.slots[n], n, v.costs, creds[n], dek))
    && (Recovery !in creds && Recovery in v.slots ==> Dead(v.slots[Recovery]))
  }

  /** A vault with its envelope, whatever unrecognised fields and other slots it carries. */
  ghost predicate Enrolled(s: Session, creds: Credentials, dek: Bytes) {
    && |dek| == KEY_LEN && s.database == Some(dek)
    && (s.key.Some? ==> s.key.value == dek)
    && s.sidecar.Some? && ReadSidecar(s.sidecar.value).Some?
    && Opens(ReadSidecar(s.sidecar.value).value, creds, dek)
  }

  /** Which credentials a request leaves: only an unlocked session writes. */
  function CredentialsAfter(s: Session, creds: Credentials, op: Operation): Credentials {
    if s.key.None? then creds
    else match op
      case ChangePassword(password, _, _) => creds[Master := password]
      case AddRecovery(payload, _, _) => creds[Recovery := payload]
      case DropRecovery => creds - {Recovery}
      case _ => creds
  }

  lemma LoadsEnrolled(s: Session, creds: Credentials, dek: Bytes)
    requires Enrolled(s, creds, dek)
    ensures LoadSidecar(s.sidecar) == Returned(ReadSidecar(s.sidecar.value).value)
    ensures WellFormed(ReadSidecar(s.sidecar.value).value)
  {
    ReadIsWellFormed(s.sidecar.value);
  }

  // ----- unlocking -----

  lemma UnwrapsIff(r: SlotRecord, slot: Name, c: Costs, secret: Bytes, dek: Bytes, other: Bytes)
    requires Wraps(r, slot, c, secret, dek)
    ensures UnwrapDek(Derived(other, r.salt, c), r, slot, c) == if other == secret then Some(dek) else None
  {
  }

  /** A secret opens the slot it was derived for exactly if it is the slot's credential. */
  lemma SlotOpensIff(s: Session, creds: Credentials, dek: Bytes, slot: Name, secret: Bytes)
    requires Enrolled(s, creds, dek) && slot in creds
    ensures var v := ReadSidecar(s.sidecar.value).value;
            && slot in v.slots && SlotValid(v.costs, v.slots[slot])
            && UnlockThroughSlot(s, Derived(secret, v.slots[slot].salt, v.costs), slot)
               == if secret == creds[slot] then Outcome(s.(open := true, key := Some(dek)), Returned(true))
                  else Outcome(s, Returned(false))
  {
    LoadsEnrolled(s, creds, dek);
    var v := ReadSidecar(s.sidecar.value).value;
    assert Wraps(v.slots[slot], slot, v.costs, creds[slot], dek);
    UnwrapsIff(v.slots[slot], slot, v.costs, creds[slot], dek, secret);
    ThroughSlot(s, v, Derived(secret, v.slots[slot].salt, v.costs), slot);
  }

  lemma ThroughSlot(s: Session, v: VaultSidecar, kek: Kek, slot: Name)
    requires s.sidecar.Some? && ReadSidecar(s.sidecar.value) == Some(v) && !v.pending
    requires slot in v.slots && SlotValid(v.costs, v.slots[slot])
    ensures UnlockThroughSlot(s, kek, slot) ==
            var dek := UnwrapDek(kek, v.slots[slot], slot, v.costs);
            if dek.None? then Outcome(s, Returned(false)) else OpenWith(s, dek.value, v.compat)
  {
  }

  /** The password opens the vault exactly if it is the last one set; a wrong one changes nothing. */
  lemma PasswordOpensIff(s: Session, creds: Credentials, dek: Bytes, password: Bytes)
    requires Enrolled(s, creds, dek)
    ensures Unlock(s, password)
         == if password == creds[Master] then Outcome(s.(open := true, key := Some(dek)), Returned(true))
            else Outcome(s, Returned(false))
  {
    LoadsEnrolled(s, creds, dek);
    SlotOpensIff(s, creds, dek, Master, password);
  }

  /** The recovery code opens it exactly if it is the last one kept and not removed since; a wrong one is
      turned down, and without a recovery slot, or with a damaged one, the route is refused. */
  lemma RecoveryOpensIff(s: Session, creds: Credentials, dek: Bytes, payload: Bytes)
    requires Enrolled(s, creds, dek)
    ensures var o := RecoveryUnlock(s, payload);
            if Recovery in creds && payload == creds[Recovery]
            then o == Outcome(s.(open := true, key := Some(dek)), Returned(true))
            else o.session == s && o.result != Returned(true)
    ensures Recovery in creds && payload != creds[Recovery] ==>
              RecoveryUnlock(s, payload).result == Returned(false)
    ensures var slots := ReadSidecar(s.sidecar.value).value.slots;
            && (Recovery !in slots ==> RecoveryUnlock(s, payload).result == Raised(VaultState))
            && (Recovery in slots && slots[Recovery].Damaged? ==>
                  RecoveryUnlock(s, payload).result == Raised(KdfPolicy))
  {
    LoadsEnrolled(s, creds, dek);
    if Recovery in creds {
      SlotOpensIff(s, creds, dek, Recovery, payload);
    } else {
      DeadSlotStaysShut(s, creds, dek, payload);
    }
  }

  /** A sidecar file without a version field is a version-1 record. */
  ghost predicate IsVersion1(j: Json) {
    j.Object? && SidecarVersion !in j.fields
  }

  /** What each route answers where it cannot go on; nothing is written. */
  lemma RefusalsAreTold(s: Session, slot: Name, secret: Bytes, salt: Bytes, nonce: Bytes, dek: Bytes)
    ensures s.sidecar.Some? || s.database.Some? ==>
              FirstRun(s, secret, salt, nonce, dek) == Outcome(s.(open := false), Raised(VaultState))
    ensures s.key.None? ==>
              && WriteSlot(s, slot, secret, salt, nonce) == Outcome(s, Raised(VaultLocked))
              && RemoveRecovery(s) == Outcome(s, Raised(VaultLocked))
              && VerifyPassword(s, secret) == Raised(VaultLocked)
    ensures s.sidecar.None? || (!IsReadable(s.sidecar.value) && !IsVersion1(s.sidecar.value)) ==>
              && Unlock(s, secret) == Outcome(s, Raised(KdfPolicy))
              && RecoveryUnlock(s, secret) == Outcome(s, Raised(KdfPolicy))
              && (s.key.Some? ==>
                    && WriteSlot(s, slot, secret, salt, nonce) == Outcome(s, Raised(KdfPolicy))
                    && RemoveRecovery(s) == Outcome(s, Raised(KdfPolicy))
                    && VerifyPassword(s, secret) == Raised(KdfPolicy))
    ensures s.sidecar.Some? && IsVersion1(s.sidecar.value) ==>
              && RecoveryUnlock(s, secret) == Outcome(s, Raised(VaultState))
              && (s.key.Some? ==>
                    && WriteSlot(s, slot, secret, salt, nonce) == Outcome(s, Raised(VaultState))
                    && RemoveRecovery(s) == Outcome(s, Raised(VaultState)))
  {
    if s.sidecar.Some? {
      ReadsIff(s.sidecar.value);
    }
  }

  lemma DeadSlotStaysShut(s: Session, creds: Credentials, dek: Bytes, payload: Bytes)
    requires Enrolled(s, creds, dek) && Recovery !in creds
    requires LoadSidecar(s.sidecar) == Returned(ReadSidecar(s.sidecar.value).value)
    ensures RecoveryUnlock(s, payload).session == s && RecoveryUnlock(s, payload).result != Returned(true)
    ensures var slots := ReadSidecar(s.sidecar.value).value.slots;
            && (Recovery !in slots ==> RecoveryUnlock(s, payload).result == Raised(VaultState))
            && (Recovery in slots && slots[Recovery].Damaged? ==>
                  RecoveryUnlock(s, payload).result == Raised(KdfPolicy))
  {
  }

  /** In an unlocked session `verify_password` accepts exactly the current password. */
  lemma VerifiesIff(s: Session, creds: Credentials, dek: Bytes, password: Bytes)
    requires Enrolled(s, creds, dek) && s.key.Some?
    ensures VerifyPassword(s, password) == Returned(password == creds[Master])
  {
    LoadsEnrolled(s, creds, dek);
    var v := ReadSidecar(s.sidecar.value).value;
    assert Wraps(v.slots[Master], Master, v.costs, creds[Master], dek);
  }

  // ----- writing a slot -----

  lemma FreshRecordWraps(secret: Bytes, salt: Bytes, nonce: Bytes, slot: Name, c: Costs, dek: Bytes)
    requires |salt| == SALT_LEN && |nonce| == NONCE_LEN && |dek| == KEY_LEN
    ensures Wraps(SlotFor(secret, salt, nonce, slot, c, dek), slot, c, secret, dek)
    ensures RecordWellFormed(SlotFor(secret, salt, nonce, slot, c, dek))
    ensures c.keyLen == KEY_LEN && c.saltLen == SALT_LEN && c.memoryKib >= ARGON2_MEMORY_FLOOR_KIB
              && c.timeCost >= 1 && c.parallelism >= 1
            ==> SlotValid(c, SlotFor(secret, salt, nonce, slot, c, dek))
  {
  }

  lemma StillOpens(v: VaultSidecar, creds: Credentials, dek: Bytes, slot: Name, record: SlotRecord, secret: Bytes)
    requires Opens(v, creds, dek) && slot in {Master, Recovery} && Wraps(record, slot, v.costs, secret, dek)
    ensures Opens(WithSlot(v, slot, record), creds[slot := secret], dek)
  {
  }

  lemma StillOpensWithout(v: VaultSidecar, creds: Credentials, dek: Bytes)
    requires Opens(v, creds, dek)
    ensures Opens(WithoutSlot(v, Recovery), creds - {Recovery}, dek)
  {
  }

  /** Writing back a sidecar whose slots differ in one place. */
  lemma Rewritten(s: Session, v: VaultSidecar, slot: Name)
    requires s.sidecar.Some? && ReadSidecar(s.sidecar.value).Some?
    requires v == ReadSidecar(s.sidecar.value).value.(slots := v.slots) && WellFormed(v)
    requires forall n :: n != slot ==>
               (n in v.slots <==> n in ReadSidecar(s.sidecar.value).value.slots)
               && (n in v.slots ==> v.slots[n] == ReadSidecar(s.sidecar.value).value.slots[n])
    ensures ReadSidecar(ToJson(v)) == Some(v) && KeepsTheRest(s.sidecar.value, ToJson(v), slot)
  {
    ReadsBack(v);
    RewriteKeepsTheRest(s.sidecar.value, v, slot);
  }

  lemma RewrittenWith(s: Session, v: VaultSidecar, slot: Name, record: SlotRecord)
    requires s.sidecar.Some? && ReadSidecar(s.sidecar.value) == Some(v) && WellFormed(v) && slot in {Master, Recovery}
    requires RecordWellFormed(record) && (slot == Master ==> SlotValid(v.costs, record))
    ensures ReadSidecar(ToJson(WithSlot(v, slot, record))) == Some(WithSlot(v, slot, record))
    ensures KeepsTheRest(s.sidecar.value, ToJson(WithSlot(v, slot, record)), slot)
  {
    Rewritten(s, WithSlot(v, slot, record), slot);
  }

  lemma RewrittenWithout(s: Session, v: VaultSidecar)
    requires s.sidecar.Some? && ReadSidecar(s.sidecar.value) == Some(v) && WellFormed(v)
    ensures ReadSidecar(ToJson(WithoutSlot(v, Recovery))) == Some(WithoutSlot(v, Recovery))
    ensures KeepsTheRest(s.sidecar.value, ToJson(WithoutSlot(v, Recovery)), Recovery)
  {
    WithoutDiffers(v, WithoutSlot(v, Recovery));
    Rewritten(s, WithoutSlot(v, Recovery), Recovery);
  }

  lemma WithoutDiffers(v: VaultSidecar, w: VaultSidecar)
    requires WellFormed(v) && w == WithoutSlot(v, Recovery)
    ensures WellFormed(w) && w == v.(slots := w.slots)
    ensures forall n :: n != Recovery ==>
              && (n in w.slots <==> n in v.slots)
              && (n in w.slots ==> w.slots[n] == v.slots[n])
  {
  }

  /** A sidecar that opens with other credentials, put in place of the one that stands. */
  lemma Reenrolled(s: Session, creds: Credentials, dek: Bytes, json: Json, v: VaultSidecar, now: Credentials)
    requires Enrolled(s, creds, dek) && ReadSidecar(json) == Some(v) && Opens(v, now, dek)
    ensures Enrolled(s.(sidecar := Some(json)), now, dek)
  {
  }

  lemma WritesSlot(s: Session, v: VaultSidecar, slot: Name, secret: Bytes, salt: Bytes, nonce: Bytes)
    requires s.key.Some? && LoadSidecar(s.sidecar) == Returned(v)
    ensures WriteSlot(s, slot, secret, salt, nonce).session
         == s.(sidecar := Some(ToJson(WithSlot(v, slot, SlotFor(secret, salt, nonce, slot, v.costs, s.key.value)))))
  {
  }

  /** Every credential change re-wraps the same key and touches one slot only: unrecognised fields,
      untouched slots and damaged ones come through as they were. */
  lemma WriteKeepsTheRest(s: Session, creds: Credentials, dek: Bytes, slot: Name, secret: Bytes, salt: Bytes,
                          nonce: Bytes)
    requires Enrolled(s, creds, dek) && s.key.Some? && slot in {Master, Recovery}
    requires |salt| == SALT_LEN && |nonce| == NONCE_LEN
    ensures var after := WriteSlot(s, slot, secret, salt, nonce).session;
            && Enrolled(after, creds[slot := secret], dek)
            && after == s.(sidecar := after.sidecar) && KeepsTheRest(s.sidecar.value, after.sidecar.value, slot)
  {
    LoadsEnrolled(s, creds, dek);
    var v := ReadSidecar(s.sidecar.value).value;
    var record := SlotFor(secret, salt, nonce, slot, v.costs, dek);
    FreshRecordWraps(secret, salt, nonce, slot, v.costs, dek);
    StillOpens(v, creds, dek, slot, record, secret);
    RewrittenWith(s, v, slot, record);
    Reenrolled(s, creds, dek, ToJson(WithSlot(v, slot, record)), WithSlot(v, slot, record), creds[slot := secret]);
    WritesSlot(s, v, slot, secret, salt, nonce);
  }

  lemma RemovesSlot(s: Session, v: VaultSidecar)
    requires s.key.Some? && LoadSidecar(s.sidecar) == Returned(v)
    ensures RemoveRecovery(s).session == s.(sidecar := Some(ToJson(WithoutSlot(v, Recovery))))
  {
  }

  lemma RemoveKeepsTheRest(s: Session, creds: Credentials, dek: Bytes)
    requires Enrolled(s, creds, dek) && s.key.Some?
    ensures var after := RemoveRecovery(s).session;
            && Enrolled(after, creds - {Recovery}, dek)
            && after == s.(sidecar := after.sidecar) && KeepsTheRest(s.sidecar.value, after.sidecar.value, Recovery)
  {
    LoadsEnrolled(s, creds, dek);
    var v := ReadSidecar(s.sidecar.value).value;
    StillOpensWithout(v, creds, dek);
    RewrittenWithout(s, v);
    Reenrolled(s, creds, dek, ToJson(WithoutSlot(v, Recovery)), WithoutSlot(v, Recovery), creds - {Recovery});
    RemovesSlot(s, v);
  }

  /** A first run on an empty disk enrols the vault with its master password alone. */
  lemma FirstRunEnrols(s: Session, password: Bytes, salt: Bytes, nonce: Bytes, dek: Bytes)
    requires s.sidecar.None? && s.database.None?
    requires |salt| == SALT_LEN && |nonce| == NONCE_LEN && |dek| == KEY_LEN
    ensures var after := FirstRun(s, password, salt, nonce, dek).session;
            && Enrolled(after, map[Master := password], dek) && after.open && after.key == Some(dek)
            && ReadSidecar(after.sidecar.value).value.costs == Costs(47104, 1, 1, 32, 16)
  {
    var c := NewCosts();
    FreshRecordWraps(password, salt, nonce, Master, c, dek);
    ReadsBack(NewSidecar(c, SlotFor(password, salt, nonce, Master, c, dek)));
  }

  // ----- runs -----

  /** No request takes an enrolled vault out of the envelope or changes its key. */
  lemma OperationKeepsEnrolled(s: Session, creds: Credentials, dek: Bytes, op: Operation)
    requires Enrolled(s, creds, dek) && Drawn(op)
    ensures Enrolled(After(s, op), CredentialsAfter(s, creds, op), dek)
  {
    LoadsEnrolled(s, creds, dek);
    match op
    case DoFirstRun(_, _, _, _) =>
    case DoLock =>
    case DoUnlock(password) => PasswordOpensIff(s, creds, dek, password);
    case DoRecoveryUnlock(payload) => RecoveryOpensIff(s, creds, dek, payload);
    case ChangePassword(password, salt, nonce) =>
      if s.key.Some? {
        WriteKeepsTheRest(s, creds, dek, Master, password, salt, nonce);
      }
    case AddRecovery(payload, salt, nonce) =>
      if s.key.Some? {
        WriteKeepsTheRest(s, creds, dek, Recovery, payload, salt, nonce);
      }
    case DropRecovery =>
      if s.key.Some? {
        RemoveKeepsTheRest(s, creds, dek);
      }
  }

  /** What stands on the disk: nothing yet, or a vault that opens with these credentials. */
  datatype Enrolment = Unset | Kept(creds: Credentials, dek: Bytes)

  ghost predicate Standing(s: Session, e: Enrolment) {
    match e
    case Unset => s == Session(None, None, false, None)
    case Kept(creds, dek) => Enrolled(s, creds, dek)
  }

  function EnrolmentAfter(s: Session, e: Enrolment, op: Operation): Enrolment {
    match e
    case Unset => if op.DoFirstRun? then Kept(map[Master := op.password], op.dek) else Unset
    case Kept(creds, dek) => Kept(CredentialsAfter(s, creds, op), dek)
  }

  lemma OperationStands(s: Session, e: Enrolment, op: Operation)
    requires Standing(s, e) && Drawn(op)
    ensures Standing(After(s, op), EnrolmentAfter(s, e, op))
  {
    match e
    case Kept(creds, dek) => OperationKeepsEnrolled(s, creds, dek, op);
    case Unset =>
      if op.DoFirstRun? {
        FirstRunEnrols(s, op.password, op.salt, op.nonce, op.dek);
      }
  }

  function RunTo(s: Session, ops: seq<Operation>): Session {
    if ops == [] then s else After(RunTo(s, ops[..|ops| - 1]), ops[|ops| - 1])
  }

  function EnrolmentTo(s: Session, e: Enrolment, ops: seq<Operation>): Enrolment {
    if ops == [] then e
    else
      var before := ops[..|ops| - 1];
      EnrolmentAfter(RunTo(s, before), EnrolmentTo(s, e, before), ops[|ops| - 1])
  }

  /** After every run, from an empty disk or an enrolled vault: the disk is as empty as it was, or what
      opens the vault are the last credentials written. */
  lemma {:induction false} RunsStand(s: Session, e: Enrolment, ops: seq<Operation>)
    requires Standing(s, e) && forall op :: op in ops ==> Drawn(op)
    ensures Standing(RunTo(s, ops), EnrolmentTo(s, e, ops))
    decreases |ops|
  {
    if ops != [] {
      var n := |ops| - 1;
      RunsStand(s, e, ops[..n]);
      assert ops[n] in ops;
      OperationStands(RunTo(s, ops[..n]), EnrolmentTo(s, e, ops[..n]), ops[n]);
    }
  }

  /** The database key of a vault never changes. */
  lemma {:induction false} RunsKeepTheKey(s: Session, creds: Credentials, dek: Bytes, ops: seq<Operation>)
    requires Enrolled(s, creds, dek) && forall op :: op in ops ==> Drawn(op)
    ensures EnrolmentTo(s, Kept(creds, dek), ops).Kept? && EnrolmentTo(s, Kept(creds, dek), ops).dek == dek
    ensures RunTo(s, ops).database == Some(dek)
    decreases |ops|
  {
    RunsStand(s, Kept(creds, dek), ops);
    if ops != [] {
      RunsKeepTheKey(s, creds, dek, ops[..|ops| - 1]);
    }
  }

  lemma {:induction false} RunsCompose(s: Session, ops: seq<Operation>, more: seq<Operation>)
    ensures RunTo(s, ops + more) == RunTo(RunTo(s, ops), more)
    decreases |more|
  {
    var all := ops + more;
    if more == [] {
      assert all == ops;
    } else {
      var n := |more| - 1;
      RunsCompose(s, ops, more[..n]);
      assert all[..|all| - 1] == ops + more[..n] && all[|all| - 1] == more[n];
    }
  }

  lemma {:induction false} NothingBeforeTheFirstRun(ops: seq<Operation>)
    requires forall op :: op in ops ==> !op.DoFirstRun?
    ensures var empty := Session(None, None, false, None);
            RunTo(empty, ops) == empty && EnrolmentTo(empty, Unset, ops) == Unset
    decreases |ops|
  {
    if ops != [] {
      var n := |ops| - 1;
      NothingBeforeTheFirstRun(ops[..n]);
      assert ops[n] in ops;
    }
  }

  /** From an empty disk, requests before the first run change nothing, and whatever follows it, later
      first runs included, the database stays under the key the first one drew. */
  lemma FirstRunDecidesTheKey(before: seq<Operation>, first: Operation, after: seq<Operation>)
    requires first.DoFirstRun? && forall op :: op in before ==> !op.DoFirstRun?
    requires forall op :: op in before + [first] + after ==> Drawn(op)
    ensures var end := RunTo(Session(None, None, false, None), before + [first] + after);
            && end.database == Some(first.dek)
            && exists creds :: Enrolled(end, creds, first.dek)
  {
    var empty, ops := Session(None, None, false, None), before + [first];
    assert first in ops + after && forall op :: op in after ==> op in ops + after;
    NothingBeforeTheFirstRun(before);
    assert ops[..|before|] == before && ops[|before|] == first;
    var s := RunTo(empty, ops);
    FirstRunEnrols(empty, first.password, first.salt, first.nonce, first.dek);
    RunsCompose(empty, ops, after);
    RunsKeepTheKey(s, map[Master := first.password], first.dek, after);
    RunsStand(s, Kept(map[Master := first.password], first.dek), after);
  }

  // ----- a key is held exactly while the vault is open -----

  predicate KeyHeldIffOpen(s: Session) {
    s.key.Some? <==> s.open
  }

  /** This holds after a request exactly if the request is no first run on a session that holds a key:
      that one closes the connection and leaves the key. */
  lemma KeyHeldIffOpenAfterIff(s: Session, e: Enrolment, op: Operation)
    requires Standing(s, e) && KeyHeldIffOpen(s) && Drawn(op)
    ensures KeyHeldIffOpen(After(s, op)) <==> !(op.DoFirstRun? && s.key.Some?)
  {
    if e.Kept? {
      LoadsEnrolled(s, e.creds, e.dek);
      match op
      case DoUnlock(password) => PasswordOpensIff(s, e.creds, e.dek, password);
      case DoRecoveryUnlock(payload) => RecoveryOpensIff(s, e.creds, e.dek, payload);
      case _ =>
    }
  }

  /** Request `n` of the run is a first run on a session that holds a key. */
  predicate FirstRunOnAKey(s: Session, ops: seq<Operation>, n: nat)
    requires n < |ops|
  {
    ops[n].DoFirstRun? && RunTo(s, ops[..n]).key.Some?
  }

  /** Over a run: a key is held exactly while the vault is open, in every state, if and only if no
      request of the run is a first run on a session that holds a key. */
  lemma KeyHeldThroughoutIff(s: Session, e: Enrolment, ops: seq<Operation>)
    requires Standing(s, e) && KeyHeldIffOpen(s) && forall op :: op in ops ==> Drawn(op)
    ensures (forall n :: 0 <= n <= |ops| ==> KeyHeldIffOpen(RunTo(s, ops[..n])))
            <==> forall n :: 0 <= n < |ops| ==> !FirstRunOnAKey(s, ops, n)
  {
    if forall n :: 0 <= n <= |ops| ==> KeyHeldIffOpen(RunTo(s, ops[..n])) {
      forall n | 0 <= n < |ops| ensures !FirstRunOnAKey(s, ops, n) {
        HeldStep(s, e, ops, n);
      }
    }
    if forall n :: 0 <= n < |ops| ==> !FirstRunOnAKey(s, ops, n) {
      forall n | 0 <= n <= |ops| ensures KeyHeldIffOpen(RunTo(s, ops[..n])) {
        HeldUpTo(s, e, ops, n);
      }
    }
  }

  lemma HeldStep(s: Session, e: Enrolment, ops: seq<Operation>, n: nat)
    requires Standing(s, e) && (forall op :: op in ops ==> Drawn(op)) && n < |ops|
    requires KeyHeldIffOpen(RunTo(s, ops[..n]))
    ensures KeyHeldIffOpen(RunTo(s, ops[..n + 1])) <==> !FirstRunOnAKey(s, ops, n)
  {
    var before, more := ops[..n], ops[..n + 1];
    assert more[..n] == before && more[n] == ops[n] && ops[n] in ops;
    assert forall op :: op in before ==> op in ops;
    RunsStand(s, e, before);
    KeyHeldIffOpenAfterIff(RunTo(s, before), EnrolmentTo(s, e, before), ops[n]);
    assert RunTo(s, more) == After(RunTo(s, more[..n]), more[n]);
  }

  lemma {:induction false} HeldUpTo(s: Session, e: Enrolment, ops: seq<Operation>, n: nat)
    requires Standing(s, e) && KeyHeldIffOpen(s) && (forall op :: op in ops ==> Drawn(op)) && n <= |ops|
    requires forall m :: 0 <= m < |ops| ==> !FirstRunOnAKey(s, ops, m)
    ensures KeyHeldIffOpen(RunTo(s, ops[..n]))
  {
    if n > 0 {
      HeldUpTo(s, e, ops, n - 1);
      HeldStep(s, e, ops, n - 1);
    }
  }

  /** A concrete run that parts them: a first run, and another while it is unlocked. */
  lemma SecondFirstRunKeepsTheKey(password: Bytes, salt: Bytes, nonce: Bytes, dek: Bytes)
    requires |salt| == SALT_LEN && |nonce| == NONCE_LEN && |dek| == KEY_LEN
    ensures var op := DoFirstRun(password, salt, nonce, dek);
            var s := RunTo(Session(None, None, false, None), [op, op]);
            s.key == Some(dek) && !s.open
  {
    var op := DoFirstRun(password, salt, nonce, dek);
    var empty := Session(None, None, false, None);
    assert [op, op][..1] == [op] && [op][..0] == [];
    assert RunTo(empty, [op]) == After(empty, op);
  }
}
