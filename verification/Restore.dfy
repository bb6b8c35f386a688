/** Installing a restored vault over an incumbent one, and pruning the copies it leaves
    (`services/backup.py`, `vault.py`). */
module Restore {
  import opened Wrappers
  import opened Sequences

  /** A vault is four files. */
  datatype Part = Db | Wal | Shm | Sidecar

  /** A live file, or the copy a move-aside left under a stamp. */
  datatype Name = Live(part: Part) | Old(stamp: nat, part: Part)

  /** `owner` tells which vault the bytes belong to. */
  datatype Content = Content(owner: nat, bytes: string)

  type Files = map<Name, Content>

  // ----- presence -----

  datatype Presence = Unlock | FirstRun | MixedInstall

  /** `presence_state`; `MixedInstall` is its `VaultStateError`. */
  function PresenceOf(files: Files): Presence {
    if Live(Db) in files && Live(Sidecar) in files then Unlock
    else if Live(Db) !in files && Live(Sidecar) !in files then FirstRun
    else MixedInstall
  }

  // ----- the install, rename by rename -----

  function Renamed(files: Files, from: Name, to: Name): Files {
    if from in files then (files - {from})[to := files[from]] else files
  }

  /** The parts in the order the install moves them aside. */
  const ORDER: seq<Part> := [Db, Wal, Shm, Sidecar]

  /** The restored pair, assembled beside the vault. */
  datatype Pair = Pair(db: Content, sidecar: Content)

  /** Step `i` of the install; a missing file makes its rename a no-op. */
  function InstallStep(files: Files, stamp: nat, pair: Pair, i: nat): Files {
    if i < 4 then Renamed(files, Live(ORDER[i]), Old(stamp, ORDER[i]))
    else if i == 4 then files[Live(Db) := pair.db]
    else files[Live(Sidecar) := pair.sidecar]
  }

  /** The disk if the install crashes after its first `k` steps; 6 is completion. */
  function CrashAfter(files: Files, stamp: nat, pair: Pair, k: nat): Files {
    if k == 0 then files else InstallStep(CrashAfter(files, stamp, pair, k - 1), stamp, pair, k - 1)
  }

  /** The stamp of the set moved aside, if anything is live to move. */
  function MadeBy(files: Files, stamp: nat): Option<nat> {
    if Live(Db) in files || Live(Sidecar) in files || Live(Wal) in files || Live(Shm) in files
    then Some(stamp) else None
  }

  class Disk {
    var files: Files

    constructor (files: Files)
      ensures this.files == files
    {
      this.files := files;
    }

    /** `os.replace` on a file that exists. */
    method Replace(from: Name, to: Name)
      requires from in files
      modifies this
      ensures files == Renamed(old(files), from, to)
    {
      files := (files - {from})[to := files[from]];
    }

    /** `_install`, with the disk after each step for the crash argument. */
    method Install(stamp: nat, pair: Pair) returns (made: Option<nat>, ghost trace: seq<Files>)
      modifies this
      ensures made == MadeBy(old(files), stamp)
      ensures |trace| == 7 && forall k :: 0 <= k <= 6 ==> trace[k] == CrashAfter(old(files), stamp, pair, k)
      ensures files == trace[6]
    {
      made, trace := MadeBy(files, stamp), [files];
      for i := 0 to 4
        invariant |trace| == i + 1 && files == trace[i]
        invariant forall k :: 0 <= k <= i ==> trace[k] == CrashAfter(old(files), stamp, pair, k)
      {
        if Live(ORDER[i]) in files {
          Replace(Live(ORDER[i]), Old(stamp, ORDER[i]));
        }
        trace := trace + [files];
      }
      files := files[Live(Db) := pair.db];
      trace := trace + [files];
      files := files[Live(Sidecar) := pair.sidecar];
      trace := trace + [files];
    }

    /** `_prune_superseded_old_copies`; the files in `stuck` cannot be removed. */
    method Prune(made: Option<nat>, stuck: set<Name>)
      modifies this
      ensures files == Pruned(old(files), made, stuck)
    {
      var doomed := Superseded(files, made);
      ghost var before, gone: set<Name> := files, {};
      assert before - ({} - stuck) == before;
      while doomed != {}
        invariant files == before - (gone - stuck) && doomed + gone == Superseded(before, made)
        decreases |doomed|
      {
        var name :| name in doomed;
        UnlinkStep(before, gone, stuck, name);
        if name !in stuck {
          files := files - {name};
        }
        doomed, gone := doomed - {name}, gone + {name};
      }
    }
  }

  lemma UnlinkStep(before: Files, gone: set<Name>, stuck: set<Name>, name: Name)
    ensures before - ((gone + {name}) - stuck)
         == if name in stuck then before - (gone - stuck) else (before - (gone - stuck)) - {name}
  {
    if name in stuck {
      assert (gone + {name}) - stuck == gone - stuck;
    }
  }

  // ----- at every crash point -----

  /** No copy bears the stamp yet: stamps have microseconds. */
  predicate FreshStamp(files: Files, stamp: nat) {
    forall p: Part :: Old(stamp, p) !in files
  }

  /** Where part `p` is in the order of moves. */
  function Position(p: Part): nat {
    match p case Db => 0 case Wal => 1 case Shm => 2 case Sidecar => 3
  }

  /** The disk at every crash point, file by file: moved aside once its turn has come, restored once
      its turn has come, all other copies untouched. */
  lemma {:induction false} CrashState(files: Files, stamp: nat, pair: Pair, k: nat, n: Name)
    requires FreshStamp(files, stamp) && k <= 6
    ensures var now := CrashAfter(files, stamp, pair, k);
            match n
            case Old(s, p) =>
              if s == stamp
              then (n in now <==> Position(p) < k && Live(p) in files) && (n in now ==> now[n] == files[Live(p)])
              else (n in now <==> n in files) && (n in now ==> now[n] == files[n])
            case Live(p) =>
              if (p == Db && k >= 5) || (p == Sidecar && k >= 6)
              then n in now && now[n] == if p == Db then pair.db else pair.sidecar
              else (n in now <==> Position(p) >= k && n in files) && (n in now ==> now[n] == files[n])
  {
    if k != 0 {
      CrashState(files, stamp, pair, k - 1, n);
      if k <= 4 {
        var p := ORDER[k - 1];
        CrashState(files, stamp, pair, k - 1, Live(p));
      }
    }
  }

  /** Each incumbent file's bytes exist under the live or the stamped name. */
  lemma IncumbentSurvives(files: Files, stamp: nat, pair: Pair, k: nat, p: Part)
    requires FreshStamp(files, stamp) && k <= 6 && Live(p) in files
    ensures var now := CrashAfter(files, stamp, pair, k);
            || (Live(p) in now && now[Live(p)] == files[Live(p)])
            || (Old(stamp, p) in now && now[Old(stamp, p)] == files[Live(p)])
  {
    CrashState(files, stamp, pair, k, Live(p));
    CrashState(files, stamp, pair, k, Old(stamp, p));
  }

  /** Once the restored database is in place no journal is live; until then the live database, if
      there is one, is the incumbent with the journals it had. */
  lemma NoForeignJournal(files: Files, stamp: nat, pair: Pair, k: nat)
    requires FreshStamp(files, stamp) && k <= 6
    ensures var now := CrashAfter(files, stamp, pair, k);
            && (k >= 5 ==> Live(Db) in now && now[Live(Db)] == pair.db && Live(Wal) !in now && Live(Shm) !in now)
            && (k < 5 && Live(Db) in now ==>
                  now == files && forall p :: p in {Wal, Shm} ==> (Live(p) in now <==> Live(p) in files))
  {
    CrashState(files, stamp, pair, k, Live(Db));
    CrashState(files, stamp, pair, k, Live(Wal));
    CrashState(files, stamp, pair, k, Live(Shm));
  }

  /** The live database and sidecar, where both are there, belong to one vault. */
  predicate NotMispaired(files: Files) {
    PresenceOf(files) == Unlock ==> files[Live(Db)].owner == files[Live(Sidecar)].owner
  }

  /** "unlock" never pairs a database with another vault's sidecar. Over a whole incumbent a start after a
      crash unlocks at the two ends only, takes the vault for a first run once all four files are aside, and
      is refused as a mixed install in between; over an empty directory it stays a first run until the
      restored database arrives without its sidecar. */
  lemma UnlockNeverMispairs(files: Files, stamp: nat, pair: Pair, k: nat)
    requires FreshStamp(files, stamp) && k <= 6
    requires NotMispaired(files) && pair.db.owner == pair.sidecar.owner
    ensures NotMispaired(CrashAfter(files, stamp, pair, k))
    ensures Live(Db) in files && Live(Sidecar) in files ==>
              PresenceOf(CrashAfter(files, stamp, pair, k))
              == if k == 0 || k == 6 then Unlock else if k == 4 then FirstRun else MixedInstall
    ensures Live(Db) !in files && Live(Sidecar) !in files ==>
              PresenceOf(CrashAfter(files, stamp, pair, k))
              == if k == 6 then Unlock else if k == 5 then MixedInstall else FirstRun
  {
    CrashState(files, stamp, pair, k, Live(Db));
    CrashState(files, stamp, pair, k, Live(Sidecar));
  }

  // ----- the prune -----

  /** The stamps of the sets the prune takes for whole: those with a sidecar. */
  function Whole(files: Files): set<nat> {
    set n | n in files && n.Old? && n.part == Sidecar :: n.stamp
  }

  function Kept(files: Files, made: Option<nat>): set<nat> {
    var own := if made.Some? then {made.value} else {};
    if own != {} && own <= Whole(files) then own
    else if Whole(files) == {} then own
    else own + {MaxId(Whole(files))}
  }

  function Superseded(files: Files, made: Option<nat>): set<Name> {
    set n | n in files && n.Old? && n.stamp !in Kept(files, made)
  }

  function Pruned(files: Files, made: Option<nat>, stuck: set<Name>): Files {
    files - (Superseded(files, made) - stuck)
  }

  /** All that vault `was` had live stands complete under one stamp. */
  ghost predicate Recoverable(was: Files, now: Files, stamp: nat) {
    forall p: Part :: Live(p) in was ==> Old(stamp, p) in now && now[Old(stamp, p)] == was[Live(p)]
  }

  /** A restore that completes over a whole vault keeps that vault, journals and all, through the
      prune, whatever other copies there are and whatever the clock did. */
  lemma RestoreKeepsTheReplacedVault(files: Files, stamp: nat, pair: Pair, stuck: set<Name>)
    requires FreshStamp(files, stamp) && PresenceOf(files) == Unlock
    ensures var after := Pruned(CrashAfter(files, stamp, pair, 6), Some(stamp), stuck);
            && Recoverable(files, after, stamp)
            && PresenceOf(after) == Unlock && after[Live(Db)] == pair.db && after[Live(Sidecar)] == pair.sidecar
  {
    var installed := CrashAfter(files, stamp, pair, 6);
    CrashState(files, stamp, pair, 6, Old(stamp, Sidecar));
    assert stamp in Whole(installed);
    forall p: Part | Live(p) in files
      ensures Old(stamp, p) in installed && installed[Old(stamp, p)] == files[Live(p)]
    {
      CrashState(files, stamp, pair, 6, Old(stamp, p));
    }
    CrashState(files, stamp, pair, 6, Live(Db));
    CrashState(files, stamp, pair, 6, Live(Sidecar));
  }

  // ----- a crash, then a retry -----

  /** The disk after an install that crashed after `k` steps, a retry that completed, and its prune. */
  function Retried(files: Files, first: nat, second: nat, pair: Pair, k: nat): Files {
    var crashed := CrashAfter(files, first, pair, k);
    Pruned(CrashAfter(crashed, second, pair, 6), MadeBy(crashed, second), {})
  }

  /** The replaced database and sidecar stand under one stamp. */
  ghost predicate PairSurvives(was: Files, now: Files)
    requires Live(Db) in was && Live(Sidecar) in was
  {
    exists s :: Old(s, Db) in now && Old(s, Sidecar) in now
                && now[Old(s, Db)] == was[Live(Db)] && now[Old(s, Sidecar)] == was[Live(Sidecar)]
  }

  /** No earlier copy, nor the restored pair, is byte for byte the vault being replaced. */
  predicate ReplacedIsDistinct(files: Files, pair: Pair)
    requires Live(Db) in files
  {
    pair.db != files[Live(Db)] && forall n :: n in files && n.Old? ==> files[n] != files[Live(Db)]
  }

  /** What stands where after the retry's install. */
  lemma RetryCopies(files: Files, first: nat, second: nat, pair: Pair, k: nat, s: nat, p: Part)
    requires FreshStamp(files, first) && FreshStamp(files, second) && first != second && k <= 5
    ensures var crashed := CrashAfter(files, first, pair, k);
            var now := CrashAfter(crashed, second, pair, 6);
            if s == second
            then (Old(s, p) in now <==> Live(p) in crashed) && (Old(s, p) in now ==> now[Old(s, p)] == crashed[Live(p)])
            else if s == first
            then (Old(s, p) in now <==> Position(p) < k && Live(p) in files)
                && (Old(s, p) in now ==> now[Old(s, p)] == files[Live(p)])
            else (Old(s, p) in now <==> Old(s, p) in files) && (Old(s, p) in now ==> now[Old(s, p)] == files[Old(s, p)])
  {
    var crashed := CrashAfter(files, first, pair, k);
    forall q: Part ensures Old(second, q) !in crashed {
      CrashState(files, first, pair, k, Old(second, q));
    }
    CrashState(crashed, second, pair, 6, Old(s, p));
    CrashState(files, first, pair, k, Old(s, p));
  }

  /** What the crash left live. */
  lemma CrashLive(files: Files, first: nat, pair: Pair, k: nat)
    requires FreshStamp(files, first) && k <= 5 && PresenceOf(files) == Unlock
    ensures var crashed := CrashAfter(files, first, pair, k);
            && (Live(Sidecar) in crashed <==> k <= 3)
            && (Live(Sidecar) in crashed ==> crashed[Live(Sidecar)] == files[Live(Sidecar)])
            && (Live(Db) in crashed <==> k == 0 || k == 5)
            && (k == 0 ==> crashed == files) && (k == 5 ==> crashed[Live(Db)] == pair.db)
            && (k == 4 ==> forall p: Part :: Live(p) !in crashed)
  {
    CrashState(files, first, pair, k, Live(Db));
    CrashState(files, first, pair, k, Live(Sidecar));
    forall p: Part ensures k == 4 ==> Live(p) !in CrashAfter(files, first, pair, k) {
      CrashState(files, first, pair, k, Live(p));
    }
  }

  /** Which sets the retry's prune takes for whole. */
  lemma WholeAfterRetry(files: Files, first: nat, second: nat, pair: Pair, k: nat)
    requires FreshStamp(files, first) && FreshStamp(files, second) && first != second
               && k <= 5 && PresenceOf(files) == Unlock
    ensures Whole(CrashAfter(CrashAfter(files, first, pair, k), second, pair, 6))
         == Whole(files) + (if k <= 3 then {second} else {first})
  {
    var now := CrashAfter(CrashAfter(files, first, pair, k), second, pair, 6);
    CrashLive(files, first, pair, k);
    forall s ensures s in Whole(now) <==> s in Whole(files) + (if k <= 3 then {second} else {first}) {
      RetryCopies(files, first, second, pair, k, s, Sidecar);
      assert s in Whole(now) <==> Old(s, Sidecar) in now;
      assert s in Whole(files) <==> Old(s, Sidecar) in files;
    }
  }

  /** Which sets it keeps. */
  lemma KeptAfterRetry(files: Files, first: nat, second: nat, pair: Pair, k: nat)
    requires FreshStamp(files, first) && FreshStamp(files, second) && first != second
               && k <= 5 && PresenceOf(files) == Unlock
    ensures var crashed := CrashAfter(files, first, pair, k);
            var kept := Kept(CrashAfter(crashed, second, pair, 6), MadeBy(crashed, second));
            && (k <= 3 ==> kept == {second})
            && (k >= 4 ==> (first in kept <==> forall s :: s in Whole(files) ==> s < first))
  {
    WholeAfterRetry(files, first, second, pair, k);
    CrashLive(files, first, pair, k);
    assert first !in Whole(files) && second !in Whole(files);
  }

  /** A retry after a crash keeps the original pair together exactly if the crash did not fall between
      the move of the database and that of the sidecar and, once the pair is aside, no older whole copy
      bears a later stamp. */
  lemma RetryKeepsTheOriginalIff(files: Files, first: nat, second: nat, pair: Pair, k: nat)
    requires FreshStamp(files, first) && FreshStamp(files, second) && first != second && k <= 5
    requires PresenceOf(files) == Unlock && ReplacedIsDistinct(files, pair)
    ensures PairSurvives(files, Retried(files, first, second, pair, k))
            <==> k == 0 || (k >= 4 && forall s :: s in Whole(files) ==> s < first)
  {
    var crashed := CrashAfter(files, first, pair, k);
    var now, after := CrashAfter(crashed, second, pair, 6), Retried(files, first, second, pair, k);
    KeptAfterRetry(files, first, second, pair, k);
    CrashLive(files, first, pair, k);
    forall s, p: Part ensures Old(s, p) in after <==> Old(s, p) in now && s in Kept(now, MadeBy(crashed, second)) {
    }
    forall s | Old(s, Db) in after && after[Old(s, Db)] == files[Live(Db)]
      ensures s == first || (s == second && k == 0)
    {
      RetryCopies(files, first, second, pair, k, s, Db);
    }
    forall p: Part, s
      ensures s == first && Old(s, p) in now ==> Live(p) in files && now[Old(s, p)] == files[Live(p)]
      ensures s == first ==> (Old(s, p) in now <==> Position(p) < k && Live(p) in files)
      ensures s == second && k == 0 && Live(p) in files ==> Old(s, p) in now && now[Old(s, p)] == files[Live(p)]
    {
      RetryCopies(files, first, second, pair, k, s, p);
    }
    if k == 0 {
      assert Old(second, Db) in after && Old(second, Sidecar) in after;
    } else if k >= 4 && first in Kept(now, MadeBy(crashed, second)) {
      assert Old(first, Db) in after && Old(first, Sidecar) in after;
    }
  }

  /** For instance: a crash right after the database has moved aside, and the retry's prune takes it. */
  lemma CrashBetweenTheMoves(pair: Pair, db: Content, sidecar: Content)
    requires db != pair.db
    ensures !PairSurvives(map[Live(Db) := db, Live(Sidecar) := sidecar],
                          Retried(map[Live(Db) := db, Live(Sidecar) := sidecar], 1, 2, pair, 1))
  {
    RetryKeepsTheOriginalIff(map[Live(Db) := db, Live(Sidecar) := sidecar], 1, 2, pair, 1);
  }
}
