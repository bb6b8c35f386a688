/** The single-instance protocol of `single_instance.py`, driven by `app.run`.

    Every launch is a little program over one shared socket path and one recovery claim (an
    flock).  A state holds the path, the claim and the program counter of every launch; a step
    lets one launch take its next action.  The theorems range over every finite sequence of
    steps of any number of launches, so over every interleaving.  No launch exits. */
module SingleInstance {
  import opened Wrappers

  type Pid = nat

  /** What is at the socket path: nothing, a crash leftover nobody answers on, or a live socket. */
  datatype Path = Absent | Stale | Bound(owner: Pid)

  /** Where a launch is.  `gaveUp` records that its wait for the claim ran out. */
  datatype Pc =
    | Probing                     // about to probe, before any window exists
    | Listening                   // about to make the first attempt to bind
    | Claiming                    // saw AddressInUse, polling for the claim
    | RecoveryProbing             // holds the claim, about to probe again
    | Clearing                    // holds the claim, found nobody, about to unlink the path
    | Relistening                 // holds the claim, about to bind again
    | Releasing(won: bool)        // leaving the claim with a server, or with None
    | Reprobing(gaveUp: bool)     // `listen` returned None, about to probe a last time
    | Owner
    | HandedOver                  // the first probe was answered
    | StoodDown                   // the last probe was answered
    | Unguarded(gaveUp: bool)     // runs without the guard

  /** What the launches share: the socket path and the recovery claim. */
  datatype Shared = Shared(path: Path, claim: Option<Pid>)

  datatype State = State(shared: Shared, pcs: map<Pid, Pc>) {
    function Path(): Path { shared.path }
    function Claim(): Option<Pid> { shared.claim }
  }

  datatype Step =
    | Launch(p: Pid)              // a new process starts
    | Advance(p: Pid)             // a launch takes its next action
    | GiveUp(p: Pid)              // a launch's wait for the claim runs out

  predicate Finished(pc: Pc) {
    pc.Owner? || pc.HandedOver? || pc.StoodDown? || pc.Unguarded?
  }

  predicate Holding(pc: Pc) {
    pc.RecoveryProbing? || pc.Clearing? || pc.Relistening? || pc.Releasing?
  }

  predicate CanAct(sh: Shared, pc: Pc) {
    !Finished(pc) && (pc.Claiming? ==> sh.claim.None?)
  }

  /** The next action of launch `p` at `pc`.  A probe succeeds exactly on a bound path, binding
      succeeds exactly on an absent one, and unlinking clears whatever is there. */
  function Act(sh: Shared, p: Pid, pc: Pc): (Shared, Pc)
    requires CanAct(sh, pc)
  {
    match pc
    case Probing => (sh, if sh.path.Bound? then HandedOver else Listening)
    case Listening => if sh.path.Absent? then (sh.(path := Bound(p)), Owner) else (sh, Claiming)
    case Claiming => (sh.(claim := Some(p)), RecoveryProbing)
    case RecoveryProbing => (sh, if sh.path.Bound? then Releasing(false) else Clearing)
    case Clearing => (sh.(path := Absent), Relistening)
    case Relistening =>
      if sh.path.Absent? then (sh.(path := Bound(p)), Releasing(true)) else (sh, Releasing(false))
    case Releasing(won) => (sh.(claim := None), if won then Owner else Reprobing(false))
    case Reprobing(gaveUp) => (sh, if sh.path.Bound? then StoodDown else Unguarded(gaveUp))
  }

  predicate Enabled(s: State, step: Step) {
    match step
    case Launch(p) => p !in s.pcs
    case Advance(p) => p in s.pcs && CanAct(s.shared, s.pcs[p])
    case GiveUp(p) => p in s.pcs && s.pcs[p].Claiming? && s.Claim().Some?
  }

  function Apply(s: State, step: Step): State
    requires Enabled(s, step)
  {
    match step
    case Launch(p) => State(s.shared, s.pcs[p := Probing])
    case Advance(p) => var (sh, pc) := Act(s.shared, p, s.pcs[p]); State(sh, s.pcs[p := pc])
    case GiveUp(p) => State(s.shared, s.pcs[p := Reprobing(true)])
  }

  /** Nobody is launching yet; the path is absent, stale, or held by one settled owner. */
  predicate Init(s: State) {
    && s.Claim().None?
    && s.pcs == (if s.Path().Bound? then map[s.Path().owner := Owner] else map[])
  }

  /** The states a run from `s` visits: `states[i+1]` is one enabled step after `states[i]`. */
  ghost predicate IsRun(states: seq<State>, steps: seq<Step>) {
    && |states| == |steps| + 1
    && Init(states[0])
    && forall i :: 0 <= i < |steps| ==> Enabled(states[i], steps[i]) && states[i + 1] == Apply(states[i], steps[i])
  }

  /** `pc` is a launch that has concluded, from an answered probe, that somebody owns the name. */
  predicate KnowsOwner(pc: Pc) {
    pc == Releasing(false) || pc == Reprobing(false) || pc.HandedOver? || pc.StoodDown?
  }

  /** What must hold for launch `p` at `pc`.  The heart is the `Clearing` clause: a claim holder
      that found nobody really faces a stale path, because only a holder can take the path from
      stale to absent and only an absent path can become bound. */
  ghost predicate Fits(s: State, p: Pid, pc: Pc) {
    && (Holding(pc) <==> s.Claim() == Some(p))
    && (pc.Clearing? ==> s.Path().Stale?)
    && (pc.Relistening? ==> !s.Path().Stale?)
    && (pc.Owner? || pc == Releasing(true) ==> s.Path() == Bound(p))
    && (KnowsOwner(pc) ==> s.Path().Bound?)
    && (s.Path().Absent? ==> !pc.RecoveryProbing?)
    && (s.Path().Absent? && pc.Claiming? ==> s.Claim().Some?)
    && pc != Unguarded(false)
  }

  /** The inductive invariant. */
  ghost predicate Inv(s: State) {
    && (forall p :: p in s.pcs ==> Fits(s, p, s.pcs[p]))
    && (s.Claim().Some? ==> s.Claim().value in s.pcs && Holding(s.pcs[s.Claim().value]))
    && (s.Path().Bound? ==>
          && s.Path().owner in s.pcs
          && (s.pcs[s.Path().owner].Owner? || s.pcs[s.Path().owner] == Releasing(true)))
  }

  lemma InitEstablishesInv(s: State)
    requires Init(s)
    ensures Inv(s)
  {
  }

  lemma StepKeepsInv(s: State, step: Step)
    requires Inv(s) && Enabled(s, step)
    ensures Inv(Apply(s, step))
    ensures s.Path().Bound? ==> Apply(s, step).Path() == s.Path()
  {
    var t := Apply(s, step);
    forall p | p in t.pcs ensures Fits(t, p, t.pcs[p]) {
      if p != step.p {
        assert Fits(s, p, s.pcs[p]);
      }
      if step.p in s.pcs {
        assert Fits(s, step.p, s.pcs[step.p]);
      }
    }
  }

  lemma {:induction false} RunKeepsInv(states: seq<State>, steps: seq<Step>, i: nat)
    requires IsRun(states, steps) && i < |states|
    ensures Inv(states[i])
  {
    if i == 0 {
      InitEstablishesInv(states[0]);
    } else {
      RunKeepsInv(states, steps, i - 1);
      StepKeepsInv(states[i - 1], steps[i - 1]);
    }
  }

  /** INV-3a/INV-3b: in every run, no step unlinks a live socket. */
  lemma NeverUnlinksALiveSocket(states: seq<State>, steps: seq<Step>, i: nat)
    requires IsRun(states, steps) && i < |steps|
    requires steps[i].Advance? && states[i].pcs[steps[i].p].Clearing?
    ensures states[i].Path() == Stale
  {
    RunKeepsInv(states, steps, i);
  }

  /** In every state of every run at most one launch owns the name, and it is the launch the
      path is bound to. */
  lemma AtMostOneOwner(states: seq<State>, steps: seq<Step>, i: nat, p: Pid, q: Pid)
    requires IsRun(states, steps) && i < |states|
    requires p in states[i].pcs && states[i].pcs[p].Owner?
    requires q in states[i].pcs && states[i].pcs[q].Owner?
    ensures p == q && states[i].Path() == Bound(p)
  {
    RunKeepsInv(states, steps, i);
  }

  /** Once a launch has bound the name it keeps it for the rest of the run. */
  lemma {:induction false} BindingIsPermanent(states: seq<State>, steps: seq<Step>, i: nat, j: nat)
    requires IsRun(states, steps) && i <= j < |states| && states[i].Path().Bound?
    ensures states[j].Path() == states[i].Path()
  {
    if i < j {
      BindingIsPermanent(states, steps, i, j - 1);
      RunKeepsInv(states, steps, j - 1);
      StepKeepsInv(states[j - 1], steps[j - 1]);
    }
  }

  /** A launch that starts while the name is bound only ever probes: it hands over and touches nothing. */
  lemma {:induction false} LateLaunchHandsOver(states: seq<State>, steps: seq<Step>, k: nat, i: nat, p: Pid)
    requires IsRun(states, steps) && k < i < |states|
    requires states[k].Path().Bound? && steps[k] == Launch(p)
    ensures p in states[i].pcs && (states[i].pcs[p] == Probing || states[i].pcs[p] == HandedOver)
    ensures k < i - 1 && steps[i - 1] == Advance(p) ==> states[i].pcs[p] == HandedOver
    ensures k < i - 1 && steps[i - 1] == Advance(p) ==> states[i].shared == states[i - 1].shared
    decreases i
  {
    assert states[i] == Apply(states[i - 1], steps[i - 1]);
    if i > k + 1 {
      LateLaunchHandsOver(states, steps, k, i - 1, p);
      BindingIsPermanent(states, steps, k, i - 1);
    }
  }

  /** How many actions a launch has left at most. */
  function ActionsLeft(pc: Pc): nat {
    match pc
    case Probing => 8
    case Listening => 7
    case Claiming => 6
    case RecoveryProbing => 5
    case Clearing => 4
    case Relistening => 3
    case Releasing(_) => 2
    case Reprobing(_) => 1
    case _ => 0
  }

  /** Nobody is locked out: in every state of every run, if some launch has not finished, some launch can
      act, and whoever acts comes nearer to finishing. */
  lemma SomebodyCanAct(states: seq<State>, steps: seq<Step>, i: nat, p: Pid) returns (q: Pid)
    requires IsRun(states, steps) && i < |states| && p in states[i].pcs && !Finished(states[i].pcs[p])
    ensures Enabled(states[i], Advance(q))
    ensures var next := Apply(states[i], Advance(q));
            && next.pcs.Keys == states[i].pcs.Keys && ActionsLeft(next.pcs[q]) < ActionsLeft(states[i].pcs[q])
            && forall other :: other in next.pcs && other != q ==> next.pcs[other] == states[i].pcs[other]
  {
    RunKeepsInv(states, steps, i);
    assert Fits(states[i], p, states[i].pcs[p]);
    q := if states[i].pcs[p].Claiming? && states[i].Claim().Some? then states[i].Claim().value else p;
  }

  /** A launch whose wait for the claim did not run out never runs unguarded. */
  lemma UnguardedOnlyAfterGivingUp(states: seq<State>, steps: seq<Step>, i: nat, p: Pid)
    requires IsRun(states, steps) && i < |states|
    requires p in states[i].pcs && states[i].pcs[p].Unguarded?
    ensures states[i].pcs[p].gaveUp
    ensures exists k :: 0 <= k < i && steps[k] == GiveUp(p)
  {
    RunKeepsInv(states, steps, i);
    GaveUpHasAStep(states, steps, i, p);
  }

  lemma {:induction false} GaveUpHasAStep(states: seq<State>, steps: seq<Step>, i: nat, p: Pid)
    requires IsRun(states, steps) && i < |states| && p in states[i].pcs
    requires states[i].pcs[p] == Reprobing(true) || states[i].pcs[p] == Unguarded(true)
    ensures exists k :: 0 <= k < i && steps[k] == GiveUp(p)
  {
    assert i > 0;
    if steps[i - 1] != GiveUp(p) {
      assert p in states[i - 1].pcs;
      GaveUpHasAStep(states, steps, i - 1, p);
    }
  }

  /** In step `m` launch `p`, whose wait had run out, probes a last time and nobody answers. */
  ghost predicate FindsNobody(states: seq<State>, steps: seq<Step>, m: nat, p: Pid)
    requires m < |steps| <= |states|
  {
    steps[m] == Advance(p) && p in states[m].pcs && states[m].pcs[p] == Reprobing(true) && !states[m].Path().Bound?
  }

  /** Exactly when a launch runs unguarded: its wait ran out, and its last probe came before any
      launch had bound the name. */
  lemma {:induction false} UnguardedIff(states: seq<State>, steps: seq<Step>, i: nat, p: Pid)
    requires IsRun(states, steps) && i < |states| && p in states[i].pcs
    ensures states[i].pcs[p].Unguarded? <==> exists m :: 0 <= m < i && FindsNobody(states, steps, m, p)
  {
    if i > 0 {
      RunKeepsInv(states, steps, i - 1);
      if p in states[i - 1].pcs {
        UnguardedIff(states, steps, i - 1, p);
        UnguardedNext(states[i - 1], steps[i - 1], p);
        assert states[i].pcs[p].Unguarded? <==> states[i - 1].pcs[p].Unguarded? || FindsNobody(states, steps, i - 1, p);
      } else {
        assert states[i].pcs[p] == Probing;
        NotYetThere(states, steps, i - 1, p);
        forall m | 0 <= m < i ensures !FindsNobody(states, steps, m, p) {
          assert m == i - 1 || p !in states[m].pcs;
        }
      }
    }
  }

  lemma UnguardedNext(s: State, step: Step, p: Pid)
    requires Enabled(s, step) && p in s.pcs && Fits(s, p, s.pcs[p])
    ensures Apply(s, step).pcs[p].Unguarded? <==>
              s.pcs[p].Unguarded? || (step == Advance(p) && s.pcs[p] == Reprobing(true) && !s.Path().Bound?)
  {
  }

  lemma {:induction false} NotYetThere(states: seq<State>, steps: seq<Step>, i: nat, p: Pid)
    requires IsRun(states, steps) && i < |states| && p !in states[i].pcs
    ensures forall m :: 0 <= m < i ==> p !in states[m].pcs
  {
    if i > 0 {
      assert states[i] == Apply(states[i - 1], steps[i - 1]);
      NotYetThere(states, steps, i - 1, p);
    }
  }

  /** When every launch has finished and no wait ran out, exactly one launch owns the name and
      all others handed over or stood down: nobody is locked out and nobody runs unguarded. */
  lemma SettledRunHasExactlyOneOwner(states: seq<State>, steps: seq<Step>) returns (owner: Pid)
    requires IsRun(states, steps)
    requires forall k :: 0 <= k < |steps| ==> !steps[k].GiveUp?
    requires states[|steps|].pcs != map[]
    requires forall p :: p in states[|steps|].pcs ==> Finished(states[|steps|].pcs[p])
    ensures owner in states[|steps|].pcs && states[|steps|].pcs[owner] == Owner
    ensures forall p :: p in states[|steps|].pcs && p != owner ==>
              states[|steps|].pcs[p] == HandedOver || states[|steps|].pcs[p] == StoodDown
  {
    var last := states[|steps|];
    RunKeepsInv(states, steps, |steps|);
    forall p | p in last.pcs ensures !last.pcs[p].Unguarded? {
      if last.pcs[p].Unguarded? {
        UnguardedOnlyAfterGivingUp(states, steps, |steps|, p);
      }
    }
    var p :| p in last.pcs;
    assert last.Path().Bound?;
    owner := last.Path().owner;
  }

  ghost predicate Reachable(s: State) {
    exists states, steps :: IsRun(states, steps) && states[|steps|] == s
  }

  lemma ReachNext(s: State, step: Step, t: State)
    requires Reachable(s) && Enabled(s, step) && t == Apply(s, step)
    ensures Reachable(t)
  {
    var states, steps :| IsRun(states, steps) && states[|steps|] == s;
    assert IsRun(states + [t], steps + [step]);
  }

  /** Two launches, `0` and `1`, over a path. */
  function Two(path: Path, claim: Option<Pid>, pc0: Pc, pc1: Pc): State {
    State(Shared(path, claim), map[0 := pc0, 1 := pc1])
  }

  /** From a reachable state of two launches, launch 0's next action reaches what `Act` says. */
  lemma FirstMoves(sh: Shared, pc0: Pc, pc1: Pc, sh': Shared, pc0': Pc)
    requires Reachable(Two(sh.path, sh.claim, pc0, pc1))
    requires CanAct(sh, pc0) && Act(sh, 0, pc0) == (sh', pc0')
    ensures Reachable(Two(sh'.path, sh'.claim, pc0', pc1))
  {
    var s, t := Two(sh.path, sh.claim, pc0, pc1), Two(sh'.path, sh'.claim, pc0', pc1);
    assert t.pcs == s.pcs[0 := pc0'];
    ReachNext(s, Advance(0), t);
  }

  lemma SecondMoves(sh: Shared, pc0: Pc, pc1: Pc, sh': Shared, pc1': Pc)
    requires Reachable(Two(sh.path, sh.claim, pc0, pc1))
    requires CanAct(sh, pc1) && Act(sh, 1, pc1) == (sh', pc1')
    ensures Reachable(Two(sh'.path, sh'.claim, pc0, pc1'))
  {
    var s, t := Two(sh.path, sh.claim, pc0, pc1), Two(sh'.path, sh'.claim, pc0, pc1');
    assert t.pcs == s.pcs[1 := pc1'];
    ReachNext(s, Advance(1), t);
  }

  /** The wait is what the guarantee rests on: with one expired wait, a launch can end up
      running unguarded beside an owner. */
  lemma ExpiredWaitCanRunBesideAnOwner()
    ensures Reachable(Two(Bound(0), None, Owner, Unguarded(true)))
  {
    TwoLaunchesMeetOneLeftover();
    TheSecondGivesUp();
    TheFirstRecovers();
  }

  lemma TheFirstRecovers()
    requires Reachable(Two(Stale, Some(0), RecoveryProbing, Unguarded(true)))
    ensures Reachable(Two(Bound(0), None, Owner, Unguarded(true)))
  {
    var late := Unguarded(true);
    FirstMoves(Shared(Stale, Some(0)), RecoveryProbing, late, Shared(Stale, Some(0)), Clearing);
    FirstMoves(Shared(Stale, Some(0)), Clearing, late, Shared(Absent, Some(0)), Relistening);
    FirstMoves(Shared(Absent, Some(0)), Relistening, late, Shared(Bound(0), Some(0)), Releasing(true));
    FirstMoves(Shared(Bound(0), Some(0)), Releasing(true), late, Shared(Bound(0), None), Owner);
  }

  lemma TwoLaunchesStart()
    ensures Reachable(Two(Stale, None, Probing, Probing))
  {
    var s0 := State(Shared(Stale, None), map[]);
    var s1 := State(Shared(Stale, None), map[0 := Probing]);
    var none: seq<Step> := [];
    assert IsRun([s0], none) && [s0][|none|] == s0;
    ReachNext(s0, Launch(0), s1);
    ReachNext(s1, Launch(1), Two(Stale, None, Probing, Probing));
  }

  lemma TwoLaunchesMeetOneLeftover()
    ensures Reachable(Two(Stale, None, Claiming, Claiming))
  {
    var sh := Shared(Stale, None);
    TwoLaunchesStart();
    FirstMoves(sh, Probing, Probing, sh, Listening);
    FirstMoves(sh, Listening, Probing, sh, Claiming);
    SecondMoves(sh, Claiming, Probing, sh, Listening);
    SecondMoves(sh, Claiming, Listening, sh, Claiming);
  }

  lemma TheSecondGivesUp()
    requires Reachable(Two(Stale, None, Claiming, Claiming))
    ensures Reachable(Two(Stale, Some(0), RecoveryProbing, Unguarded(true)))
  {
    var held := Shared(Stale, Some(0));
    FirstMoves(Shared(Stale, None), Claiming, Claiming, held, RecoveryProbing);
    ItsWaitRunsOut();
    SecondMoves(held, RecoveryProbing, Reprobing(true), held, Unguarded(true));
  }

  lemma ItsWaitRunsOut()
    requires Reachable(Two(Stale, Some(0), RecoveryProbing, Claiming))
    ensures Reachable(Two(Stale, Some(0), RecoveryProbing, Reprobing(true)))
  {
    ReachNext(Two(Stale, Some(0), RecoveryProbing, Claiming), GiveUp(1),
              Two(Stale, Some(0), RecoveryProbing, Reprobing(true)));
  }
}
