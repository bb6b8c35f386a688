/** The key envelope's session: first run, unlock, credential changes (`services/auth.py`, `keywrap.py`). */
module Envelope {
  import opened Wrappers
  import opened Sidecar

  /** The one cipher level a sidecar may record (`SQLCIPHER_COMPAT_ACCEPTED`). */
  const SQLCIPHER_COMPAT := 4

  /** `LeftOut` stands where the version-1 unlock or the migration's resume takes over. */
  datatype AuthError = VaultLocked | VaultState | KdfPolicy | LeftOut

  /** The sidecar file, the key the database file is encrypted under, whether the vault is open, and
      the key the session holds. */
  datatype Session = Session(sidecar: Option<Json>, database: Option<Bytes>, open: bool, key: Option<Bytes>)

  datatype Outcome<T> = Outcome(session: Session, result: Result<T, AuthError>)

  // ----- wrapping -----

  function WrapDek(kek: Kek, dek: Bytes, nonce: Bytes, slot: Name, c: Costs): Blob {
    Sealed(kek, nonce, SlotAad(slot, c), dek)
  }

  /** `None` is the one undifferentiated `KeyUnwrapError`. */
  function UnwrapDek(kek: Kek, r: SlotRecord, slot: Name, c: Costs): Option<Bytes>
    requires r.Healthy?
  {
    if r.wrapped.Sealed? && r.wrapped.kek == kek && r.nonce == Plain(r.wrapped.nonce)
       && r.wrapped.aad == SlotAad(slot, c)
    then Some(r.wrapped.dek) else None
  }

  /** A record written for one slot does not open under another slot's name. */
  lemma RenamedSlotIsRefused(kek: Kek, dek: Bytes, nonce: Bytes, salt: Blob, slot: Name, c: Costs, other: Name,
                             d: Costs)
    requires BarFree(NameText(slot)) && BarFree(NameText(other)) && NameText(slot) != NameText(other)
    ensures UnwrapDek(kek, Healthy(salt, Plain(nonce), WrapDek(kek, dek, nonce, slot, c), map[]), other, d).None?
  {
    if SlotAad(slot, c) == SlotAad(other, d) {
      AadBindsNameAndCosts(slot, c, other, d);
    }
  }

  /** A wrapped key opens exactly as it was written: under the same derived key and nonce, for a slot of the
      same name, and with the same four costs beside it. */
  lemma OpensOnlyAsWritten(kek: Kek, dek: Bytes, nonce: Bytes, slot: Name, c: Costs,
                           other: Kek, record: SlotRecord, under: Name, d: Costs)
    requires BarFree(NameText(slot)) && BarFree(NameText(under))
    requires record.Healthy? && record.wrapped == WrapDek(kek, dek, nonce, slot, c)
    ensures UnwrapDek(other, record, under, d)
         == if other == kek && record.nonce == Plain(nonce) && NameText(under) == NameText(slot)
               && d.memoryKib == c.memoryKib && d.timeCost == c.timeCost && d.parallelism == c.parallelism
               && d.keyLen == c.keyLen
            then Some(dek) else None
  {
    if SlotAad(slot, c) == SlotAad(under, d) {
      AadBindsNameAndCosts(slot, c, under, d);
    }
  }

  // ----- the operations as functions -----

  /** `read_sidecar`. */
  function LoadSidecar(j: Option<Json>): Result<VaultSidecar, AuthError> {
    if j.None? || !j.value.Object? || VersionOf(j.value.fields).Raised? then Raised(KdfPolicy)
    else if VersionOf(j.value.fields) != Returned(SIDECAR_VERSION) then Raised(VaultState)
    else if ReadSidecar(j.value).None? then Raised(KdfPolicy)
    else Returned(ReadSidecar(j.value).value)
  }

  function NewCosts(): Costs {
    Costs(ARGON2_MEMORY_KIB, ARGON2_TIME_COST, ARGON2_PARALLELISM, KEY_LEN, SALT_LEN)
  }

  /** A slot record for `secret` under a fresh salt and nonce. */
  function SlotFor(secret: Bytes, salt: Bytes, nonce: Bytes, slot: Name, c: Costs, dek: Bytes): SlotRecord {
    Healthy(Plain(salt), Plain(nonce), WrapDek(Derived(secret, Plain(salt), c), dek, nonce, slot, c), map[])
  }

  function NewSidecar(c: Costs, master: SlotRecord): VaultSidecar {
    VaultSidecar(c, map[Master := master], false, None, map[], map[])
  }

  /** `first_run`: over an existing file it refuses, and closes the connection as every failure does. */
  function FirstRun(s: Session, password: Bytes, salt: Bytes, nonce: Bytes, dek: Bytes): Outcome<()> {
    if s.sidecar.Some? || s.database.Some? then Outcome(s.(open := false), Raised(VaultState))
    else
      var json := ToJson(NewSidecar(NewCosts(), SlotFor(password, salt, nonce, Master, NewCosts(), dek)));
      Outcome(Session(Some(json), Some(dek), true, Some(dek)), Returned(()))
  }

  /** `_write_slot`: the new slot inherits the vault's recorded costs. */
  function WriteSlot(s: Session, slot: Name, secret: Bytes, salt: Bytes, nonce: Bytes): Outcome<()> {
    var loaded := LoadSidecar(s.sidecar);
    if s.key.None? then Outcome(s, Raised(VaultLocked))
    else if loaded.Raised? then Outcome(s, Raised(loaded.error))
    else
      var record := SlotFor(secret, salt, nonce, slot, loaded.value.costs, s.key.value);
      Outcome(s.(sidecar := Some(ToJson(WithSlot(loaded.value, slot, record)))), Returned(()))
  }

  /** `remove_recovery_key`. */
  function RemoveRecovery(s: Session): Outcome<()> {
    var loaded := LoadSidecar(s.sidecar);
    if s.key.None? then Outcome(s, Raised(VaultLocked))
    else if loaded.Raised? then Outcome(s, Raised(loaded.error))
    else Outcome(s.(sidecar := Some(ToJson(WithoutSlot(loaded.value, Recovery)))), Returned(()))
  }

  /** `lock`. */
  function Locked(s: Session): Session {
    s.(open := false, key := None)
  }

  /** `_open_with`: a key that was unwrapped but does not open the database is a broken pairing. */
  function OpenWith(s: Session, dek: Bytes, compat: Option<int>): Outcome<bool> {
    if compat.Some? && compat.value != SQLCIPHER_COMPAT then Outcome(s, Raised(VaultState))
    else if s.database != Some(dek) then Outcome(s, Raised(VaultState))
    else Outcome(s.(open := true, key := Some(dek)), Returned(true))
  }

  /** `_unlock_through_slot`. */
  function UnlockThroughSlot(s: Session, kek: Kek, slot: Name): Outcome<bool> {
    if s.sidecar.None? || ReadSidecar(s.sidecar.value).None? then Outcome(s, Raised(KdfPolicy))
    else
      var v := ReadSidecar(s.sidecar.value).value;
      if slot !in v.slots then Outcome(s, Returned(false))
      else if !SlotValid(v.costs, v.slots[slot]) then Outcome(s, Raised(KdfPolicy))
      else
        var dek := UnwrapDek(kek, v.slots[slot], slot, v.costs);
        if dek.None? then Outcome(s, Returned(false))
        else if v.pending && slot == Master then Outcome(s, Raised(LeftOut))
        else OpenWith(s, dek.value, v.compat)
  }

  /** `unlock`: derive under the master slot's params, then through that slot. */
  function Unlock(s: Session, password: Bytes): Outcome<bool> {
    var loaded := LoadSidecar(s.sidecar);
    if loaded == Raised(VaultState) then Outcome(s, Raised(LeftOut))
    else if loaded.Raised? then Outcome(s, Raised(loaded.error))
    else UnlockThroughSlot(s, Derived(password, loaded.value.slots[Master].salt, loaded.value.costs), Master)
  }

  /** The recovery route: `recovery_params`, derive, `complete_recovery_unlock`. */
  function RecoveryUnlock(s: Session, payload: Bytes): Outcome<bool> {
    var loaded := LoadSidecar(s.sidecar);
    if loaded.Raised? then Outcome(s, Raised(loaded.error))
    else if Recovery !in loaded.value.slots then Outcome(s, Raised(VaultState))
    else if !SlotValid(loaded.value.costs, loaded.value.slots[Recovery]) then Outcome(s, Raised(KdfPolicy))
    else UnlockThroughSlot(s, Derived(payload, loaded.value.slots[Recovery].salt, loaded.value.costs), Recovery)
  }

  /** The recovery route gets as far as deriving a key: there is a recovery slot, and it is sound. */
  predicate RecoveryDerives(s: Session) {
    var loaded := LoadSidecar(s.sidecar);
    loaded.Returned? && Recovery in loaded.value.slots && SlotValid(loaded.value.costs, loaded.value.slots[Recovery])
  }

  /** `verify_password` of an unlocked session. */
  function VerifyPassword(s: Session, password: Bytes): Result<bool, AuthError> {
    var loaded := LoadSidecar(s.sidecar);
    if s.key.None? then Raised(VaultLocked)
    else if loaded == Raised(VaultState) then Raised(LeftOut)
    else if loaded.Raised? then Raised(loaded.error)
    else
      var v := loaded.value;
      Returned(UnwrapDek(Derived(password, v.slots[Master].salt, v.costs), v.slots[Master], Master, v.costs) == s.key)
  }

  // ----- the service, with its wipeable buffers -----

  ghost predicate Wiped(buffer: array<bv8>)
    reads buffer
  {
    forall i :: 0 <= i < buffer.Length ==> buffer[i] == 0
  }

  /** `_wipe`. */
  method Wipe(buffer: array<bv8>)
    modifies buffer
    ensures Wiped(buffer)
  {
    for i := 0 to buffer.Length
      invariant forall j :: 0 <= j < i ==> buffer[j] == 0
    {
      buffer[i] := 0;
    }
  }

  class AuthService {
    var sidecar: Option<Json>
    var database: Option<Bytes>
    var open: bool
    var key: array?<bv8>

    constructor (sidecar: Option<Json>, database: Option<Bytes>)
      ensures Now() == Session(sidecar, database, false, None)
    {
      this.sidecar, this.database, open, key := sidecar, database, false, null;
    }

    ghost function Now(): Session
      reads this, key
    {
      Session(sidecar, database, open, if key == null then None else Some(key[..]))
    }

    /** `key` becomes a buffer of its own that holds `dek`. */
    method TakeKey(dek: Bytes)
      modifies this`key
      ensures key != null && fresh(key) && key[..] == dek
    {
      key := new bv8[|dek|](i requires 0 <= i < |dek| => dek[i]);
    }

    /** `first_run`, with the random salt, nonce and database key it draws. */
    method CompleteFirstRun(password: array<bv8>, salt: Bytes, nonce: Bytes, dek: Bytes)
        returns (r: Result<(), AuthError>)
      requires password != key
      modifies this, password
      ensures Outcome(Now(), r) == FirstRun(old(Now()), old(password[..]), salt, nonce, dek)
      ensures Wiped(password)
    {
      var kek := Derived(password[..], Plain(salt), NewCosts());
      Wipe(password);
      if sidecar.Some? || database.Some? {
        open := false;
        return Raised(VaultState);
      }
      database, open := Some(dek), true;
      var record := Healthy(Plain(salt), Plain(nonce), WrapDek(kek, dek, nonce, Master, NewCosts()), map[]);
      sidecar := Some(ToJson(NewSidecar(NewCosts(), record)));
      TakeKey(dek);
      return Returned(());
    }

    /** `_write_slot`: the secret is wiped on every exit. */
    method WriteCredential(slot: Name, secret: array<bv8>, salt: Bytes, nonce: Bytes) returns (r: Result<(), AuthError>)
      requires secret != key
      modifies this`sidecar, secret
      ensures Outcome(Now(), r) == WriteSlot(old(Now()), slot, old(secret[..]), salt, nonce)
      ensures Wiped(secret)
    {
      var bytes := secret[..];
      Wipe(secret);
      if key == null {
        return Raised(VaultLocked);
      }
      var loaded := LoadSidecar(sidecar);
      if loaded.Raised? {
        return Raised(loaded.error);
      }
      var record := SlotFor(bytes, salt, nonce, slot, loaded.value.costs, key[..]);
      sidecar := Some(ToJson(WithSlot(loaded.value, slot, record)));
      return Returned(());
    }

    /** `remove_recovery_key`. */
    method RemoveRecoveryKey() returns (r: Result<(), AuthError>)
      modifies this`sidecar
      ensures Outcome(Now(), r) == RemoveRecovery(old(Now()))
    {
      if key == null {
        return Raised(VaultLocked);
      }
      var loaded := LoadSidecar(sidecar);
      if loaded.Raised? {
        return Raised(loaded.error);
      }
      sidecar := Some(ToJson(WithoutSlot(loaded.value, Recovery)));
      return Returned(());
    }

    /** `_unlock_through_slot` and `_open_with`. */
    method OpenThroughSlot(kek: Kek, slot: Name) returns (r: Result<bool, AuthError>)
      modifies this
      ensures Outcome(Now(), r) == UnlockThroughSlot(old(Now()), kek, slot)
    {
      if sidecar.None? || ReadSidecar(sidecar.value).None? {
        return Raised(KdfPolicy);
      }
      var v := ReadSidecar(sidecar.value).value;
      if slot !in v.slots {
        return Returned(false);
      }
      if !SlotValid(v.costs, v.slots[slot]) {
        return Raised(KdfPolicy);
      }
      var dek := UnwrapDek(kek, v.slots[slot], slot, v.costs);
      if dek.None? {
        return Returned(false);
      }
      if v.pending && slot == Master {
        return Raised(LeftOut);
      }
      if v.compat.Some? && v.compat.value != SQLCIPHER_COMPAT {
        return Raised(VaultState);
      }
      if database != Some(dek.value) {
        return Raised(VaultState);
      }
      open := true;
      TakeKey(dek.value);
      return Returned(true);
    }

    /** `unlock`: the password is wiped on every exit. */
    method UnlockWithPassword(password: array<bv8>) returns (r: Result<bool, AuthError>)
      requires password != key
      modifies this, password
      ensures Outcome(Now(), r) == Unlock(old(Now()), old(password[..]))
      ensures Wiped(password)
    {
      var bytes := password[..];
      Wipe(password);
      var loaded := LoadSidecar(sidecar);
      if loaded.Raised? {
        return Raised(if loaded.error == VaultState then LeftOut else loaded.error);
      }
      var kek := Derived(bytes, loaded.value.slots[Master].salt, loaded.value.costs);
      r := OpenThroughSlot(kek, Master);
    }

    /** The recovery route: the payload is wiped as soon as a key is derived from it. */
    method UnlockWithRecovery(payload: array<bv8>) returns (r: Result<bool, AuthError>)
      requires payload != key
      modifies this, payload
      ensures Outcome(Now(), r) == RecoveryUnlock(old(Now()), old(payload[..]))
      ensures if RecoveryDerives(old(Now())) then Wiped(payload) else payload[..] == old(payload[..])
    {
      var loaded := LoadSidecar(sidecar);
      if loaded.Raised? {
        return Raised(loaded.error);
      }
      if Recovery !in loaded.value.slots {
        return Raised(VaultState);
      }
      if !SlotValid(loaded.value.costs, loaded.value.slots[Recovery]) {
        return Raised(KdfPolicy);
      }
      var kek := Derived(payload[..], loaded.value.slots[Recovery].salt, loaded.value.costs);
      Wipe(payload);
      r := OpenThroughSlot(kek, Recovery);
    }

    /** `lock`: the key's buffer is wiped, then dropped. */
    method Lock()
      modifies this, key
      ensures Now() == Locked(old(Now()))
      ensures old(key) != null ==> Wiped(old(key))
    {
      open := false;
      if key != null {
        Wipe(key);
      }
      key := null;
    }
  }
}
