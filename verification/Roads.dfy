/** The dial race of internal/roads/roads.go.

  `Climb` is a main loop, one goroutine per started try and one drain goroutine
  that outlives the call.  Each atomic action of those goroutines is one `Action`;
  a schedule is any sequence of enabled actions.  Times are milliseconds since the
  race began, and the clock readings taken by `launch` are free inputs. */
module Roads {
  import opened Options

  // QUIC = 0, TCP = 1, Relay = 2: a smaller rung is a better road.
  type Rung = r: nat | r <= 2
  const QUIC: Rung := 0
  const TCP: Rung := 1
  const RELAY: Rung := 2

  const QUIC_HEAD_START := 1000
  const RELAY_HEAD_START := 2000

  /** What `Recall` said about the endpoint, and the rung of each try. */
  datatype Plan = Plan(rungs: seq<Rung>, memory: Option<Rung>)

  function Due(rung: Rung, memory: Option<Rung>): nat {
    if rung == QUIC || (memory.Some? && memory.value >= rung) then 0
    else if rung == RELAY then RELAY_HEAD_START
    else QUIC_HEAD_START
  }

  /** A better rung is never held back longer than a worse one. */
  lemma DueIsMonotone(a: Rung, b: Rung, memory: Option<Rung>)
    requires a <= b
    ensures Due(a, memory) <= Due(b, memory)
  {
  }

  // ---------------------------------------------------------------- launch

  ghost predicate AboveEndedSpec(rungs: seq<Rung>, over: seq<bool>, rung: Rung)
    requires |over| == |rungs|
  {
    forall n :: 0 <= n < |rungs| && rungs[n] < rung ==> over[n]
  }

  /** Try `n`, not begun yet, is started by a `launch` that reads the clock as `at`. */
  ghost predicate Starts(p: Plan, over: seq<bool>, n: nat, at: int)
    requires |over| == |p.rungs| && n < |p.rungs|
  {
    Due(p.rungs[n], p.memory) - at <= 0 || AboveEndedSpec(p.rungs, over, p.rungs[n])
  }

  ghost function Launched(p: Plan, begun: seq<bool>, over: seq<bool>, at: seq<int>): (r: seq<bool>)
    requires |begun| == |over| == |at| == |p.rungs|
    ensures |r| == |begun|
  {
    seq(|begun|, n requires 0 <= n < |begun| => begun[n] || Starts(p, over, n, at[n]))
  }

  ghost function Open(begun: seq<bool>, over: seq<bool>): (r: set<nat>)
    requires |begun| == |over|
  {
    set n: nat | n < |begun| && begun[n] && !over[n]
  }

  /** Why a try may start, `at` milliseconds into the race: QUIC never waits, nor does a rung
    no better than the one remembered; TCP waits one second and the relay two, unless nothing
    better is left in the race. */
  predicate HasReason(rungs: seq<Rung>, over: seq<bool>, memory: Option<Rung>, n: nat, at: int)
    requires n < |rungs| == |over|
  {
    || rungs[n] == 0
    || (memory.Some? && rungs[n] <= memory.value)
    || (rungs[n] == 1 && at >= 1000)
    || (rungs[n] == 2 && at >= 2000)
    || forall m :: 0 <= m < |rungs| && rungs[m] < rungs[n] ==> over[m]
  }

  /** A launch begins a try exactly when it has such a reason. */
  lemma LaunchBegins(p: Plan, begun: seq<bool>, over: seq<bool>, at: seq<int>, n: nat)
    requires n < |begun| == |over| == |at| == |p.rungs| && at[n] >= 0
    ensures Launched(p, begun, over, at)[n] <==> begun[n] || HasReason(p.rungs, over, p.memory, n, at[n])
  {
  }

  /** The closures of `Climb` over its slices `begun` and `over`. */
  class Race {
    const plan: Plan
    var begun: seq<bool>
    var over: seq<bool>

    ghost predicate Valid()
      reads this
    {
      |begun| == |over| == |plan.rungs|
    }

    constructor (p: Plan)
      ensures Valid() && plan == p
      ensures Open(begun, over) == {}
    {
      plan := p;
      begun := seq(|p.rungs|, _ => false);
      over := seq(|p.rungs|, _ => false);
    }

    method Running() returns (left: nat)
      requires Valid()
      ensures left == |Open(begun, over)|
    {
      left := 0;
      ghost var seen: set<nat> := {};
      for n := 0 to |plan.rungs|
        invariant seen == set m: nat | m < n && begun[m] && !over[m]
        invariant left == |seen|
      {
        if begun[n] && !over[n] {
          left := left + 1;
          seen := seen + {n};
        }
      }
      assert seen == Open(begun, over);
    }

    method AboveEnded(rung: Rung) returns (ended: bool)
      requires Valid()
      ensures ended == AboveEndedSpec(plan.rungs, over, rung)
    {
      for n := 0 to |plan.rungs|
        invariant forall m :: 0 <= m < n && plan.rungs[m] < rung ==> over[m]
      {
        if plan.rungs[n] < rung && !over[n] { return false; }
      }
      return true;
    }

    /** `launch`: starts every try that is due or has nothing better left, and
      returns the shortest wait among those it held back, or -1. */
    method Launch(at: seq<int>) returns (next: int)
      requires Valid() && |at| == |plan.rungs|
      modifies this`begun
      ensures Valid()
      ensures begun == Launched(plan, old(begun), over, at)
      ensures next >= 0 <==> exists n :: 0 <= n < |begun| && !begun[n]
      ensures forall n :: 0 <= n < |begun| && !begun[n] ==> 0 < next <= Due(plan.rungs[n], plan.memory) - at[n]
      ensures next >= 0 ==> exists n :: 0 <= n < |begun| && !begun[n] && next == Due(plan.rungs[n], plan.memory) - at[n]
      ensures forall n :: 0 <= n < |begun| && at[n] >= 0 ==>
        (begun[n] <==> old(begun[n]) || HasReason(plan.rungs, over, plan.memory, n, at[n]))
      ensures forall n :: 0 <= n < |begun| && at[n] >= 0 && !begun[n] ==> next <= (if plan.rungs[n] == 1 then 1000 else 2000) - at[n]
    {
      next := -1;
      var was := begun;
      for n := 0 to |plan.rungs|
        invariant Valid() && was == old(begun)
        invariant forall m :: n <= m < |was| ==> begun[m] == was[m]
        invariant forall m :: 0 <= m < n ==> begun[m] == (was[m] || Starts(plan, over, m, at[m]))
        invariant next == -1 ||
          (next > 0 && exists m :: 0 <= m < n && !begun[m] && next == Due(plan.rungs[m], plan.memory) - at[m])
        invariant forall m :: 0 <= m < n && !begun[m] ==> 0 < next <= Due(plan.rungs[m], plan.memory) - at[m]
      {
        if begun[n] { continue; }
        var wait := Due(plan.rungs[n], plan.memory) - at[n];
        var ended := AboveEnded(plan.rungs[n]);
        if wait > 0 && !ended {
          if next < 0 || wait < next { next := wait; }
          continue;
        }
        begun := begun[n := true];
      }
      assert begun == Launched(plan, was, over, at);
      forall n | 0 <= n < |begun| && at[n] >= 0
        ensures begun[n] <==> old(begun[n]) || HasReason(plan.rungs, over, plan.memory, n, at[n])
      {
        LaunchBegins(plan, was, over, at, n);
      }
    }
  }

  // ---------------------------------------------------------- the protocol

  /** Where a try is: not started, dialling, its result sent, or its result read. */
  datatype Try = Idle | Flying | Queued(ok: bool) | Heard(ok: bool)

  datatype Phase = Launching | Waiting | Won(winner: nat) | Cancelled | Refused

  /** The channel holds one cell per try and each try sends once, so a send never blocks;
    the results in it are the `Queued` tries, and a receive may take any of them. */
  datatype State = State(
    tries: seq<Try>,
    phase: Phase,
    left: nat,
    pending: nat,            // results the drain goroutine still waits for
    climbed: bool,
    drops: seq<nat>,         // how often the road of each try was dropped
    betters: seq<Rung>,      // every call of better, in order
    memory: Option<Rung>,    // what Remember last stored during this race
    ctxDone: bool,
    attached: bool,          // cancelling ctx still cancels `all`
    allCancelled: bool,
    late: bool,              // the LateFor timer of the drain has fired
    stopped: set<nat>)

  function Begun(s: State): (r: seq<bool>) { seq(|s.tries|, n requires 0 <= n < |s.tries| => !s.tries[n].Idle?) }
  function Over(s: State): (r: seq<bool>) { seq(|s.tries|, n requires 0 <= n < |s.tries| => s.tries[n].Heard?) }

  /** Tries whose result has been read neither by the race nor by the drain. */
  ghost function Owed(s: State): (r: set<nat>) {
    set n: nat | n < |s.tries| && (s.tries[n].Flying? || s.tries[n].Queued?)
  }

  ghost function NotOver(s: State): (r: set<nat>) {
    set n: nat | n < |s.tries| && !s.tries[n].Heard?
  }

  /** `running()` on the slices of the race counts the results still owed. */
  lemma RunningCountsOwed(s: State)
    ensures Open(Begun(s), Over(s)) == Owed(s)
  {
  }

  function Init(p: Plan): State {
    State(seq(|p.rungs|, _ => Idle), if |p.rungs| == 0 then Refused else Launching, |p.rungs|, 0, false,
          seq(|p.rungs|, _ => 0), [], None,
          false, |p.rungs| != 0, |p.rungs| == 0, false, {})
  }

  datatype Action =
    | Launch(at: seq<int>)      // the head of the main loop
    | Tick                      // the select takes the timer
    | SeeCancel                 // the select takes ctx.Done()
    | Hear(n: nat)              // the select takes a result
    | End(n: nat, ok: bool)     // a try returns and sends its result
    | CancelCtx                 // the caller's context ends
    | Drain(n: nat)             // the drain goroutine takes a result
    | Late                      // the drain goroutine's LateFor timer fires

  predicate Done(s: State) { s.phase.Won? || s.phase.Cancelled? || s.phase.Refused? }

  ghost predicate Enabled(p: Plan, s: State, a: Action) {
    match a
    case Launch(at) => s.phase.Launching? && |at| == |p.rungs| && forall n :: 0 <= n < |at| ==> at[n] >= 0
    case Tick => s.phase.Waiting?
    case SeeCancel => s.phase.Waiting? && s.ctxDone
    case Hear(n) => s.phase.Waiting? && n < |s.tries| && s.tries[n].Queued?
    case End(n, ok) => n < |s.tries| && s.tries[n].Flying?
    case CancelCtx => !s.ctxDone
    case Drain(n) => Done(s) && s.pending > 0 && n < |s.tries| && s.tries[n].Queued?
    case Late => s.phase.Won? && s.pending > 0 && !s.late
  }

  ghost predicate Shaped(p: Plan, s: State) {
    && |s.tries| == |s.drops| == |p.rungs|
    && (s.phase.Won? ==> s.phase.winner < |p.rungs|)
    && (!Done(s) ==> s.left > 0)
  }

  ghost function Step(p: Plan, s: State, a: Action): State
    requires Shaped(p, s) && Enabled(p, s, a)
  {
    match a
    case Launch(at) => AfterLaunch(p, s, at)
    case Tick => s.(phase := Launching)
    case SeeCancel => s.(phase := Cancelled, attached := false, allCancelled := true, pending := |Open(Begun(s), Over(s))|)
    case Hear(n) => AfterHearing(p, s, n)
    case End(n, ok) => s.(tries := s.tries[n := Queued(ok)])
    case CancelCtx => s.(ctxDone := true, allCancelled := s.allCancelled || s.attached)
    case Drain(n) => AfterDraining(p, s, n)
    case Late => s.(allCancelled := true, late := true)
  }

  ghost function AfterLaunch(p: Plan, s: State, at: seq<int>): State
    requires |s.tries| == |at| == |p.rungs|
  {
    var begun := Launched(p, Begun(s), Over(s), at);
    s.(phase := Waiting,
       tries := seq(|s.tries|, n requires 0 <= n < |s.tries| =>
         if begun[n] && s.tries[n].Idle? then Flying else s.tries[n]))
  }

  ghost function AfterHearing(p: Plan, s: State, n: nat): State
    requires Shaped(p, s) && Enabled(p, s, Hear(n))
  {
    var ok := s.tries[n].ok;
    var t := s.(tries := s.tries[n := Heard(ok)], left := s.left - 1);
    if !ok then
      if t.left > 0 then t.(phase := Launching)
      else t.(phase := Refused, attached := false, allCancelled := true)
    else
      var open := Open(Begun(t), Over(t));
      t.(phase := Won(n), attached := false, memory := Some(p.rungs[n]),
         stopped := (set m | m in open && p.rungs[m] >= p.rungs[n]),
         pending := |open|, allCancelled := t.allCancelled || |open| == 0)
  }

  ghost function AfterDraining(p: Plan, s: State, n: nat): State
    requires Shaped(p, s) && Enabled(p, s, Drain(n))
  {
    var ok := s.tries[n].ok;
    var t := s.(tries := s.tries[n := Heard(ok)], pending := s.pending - 1,
                allCancelled := s.allCancelled || s.pending == 1);
    if !ok then t
    else
      var d := t.(drops := t.drops[n := t.drops[n] + 1]);
      if s.phase.Won? && p.rungs[n] < p.rungs[s.phase.winner] && !s.climbed then
        d.(climbed := true, memory := Some(p.rungs[n]), betters := d.betters + [p.rungs[n]])
      else d
  }

  // ------------------------------------------------------------ invariants

  ghost predicate RacingInv(s: State) {
    && (forall n :: 0 <= n < |s.tries| && s.tries[n].Heard? ==> !s.tries[n].ok)
    && s.left == |NotOver(s)|
    && (forall n :: 0 <= n < |s.drops| ==> s.drops[n] == 0)
    && s.pending == 0 && s.betters == [] && !s.climbed && s.memory == None
    && (s.phase.Waiting? ==> Owed(s) != {})
    && s.attached && (s.allCancelled <==> s.ctxDone)
  }

  /** Every road that was opened and read is the one returned or was dropped, once. */
  ghost predicate Settled(s: State) {
    |s.drops| == |s.tries| &&
    forall n :: 0 <= n < |s.tries| ==>
      s.drops[n] == if s.tries[n] == Heard(true) && s.phase != Won(n) then 1 else 0
  }

  ghost predicate DoneInv(p: Plan, s: State)
    requires Shaped(p, s)
  {
    && s.pending == |Owed(s)| && !s.attached
    && Settled(s)
    && (s.pending == 0 ==> s.allCancelled)
    && (s.phase.Cancelled? ==> s.ctxDone && s.allCancelled)
    && (s.phase.Refused? ==> forall n :: 0 <= n < |s.tries| ==> s.tries[n] == Heard(false))
    && (s.phase.Won? ==> WonInv(p, s, s.phase.winner) && KnownInv(p, s, s.phase.winner))
    && (!s.phase.Won? ==> s.betters == [] && s.memory == None)
  }

  ghost predicate WonInv(p: Plan, s: State, w: nat)
    requires Shaped(p, s) && w < |p.rungs|
  {
    && s.tries[w] == Heard(true)
    && |s.betters| == (if s.climbed then 1 else 0)
    && (forall r :: r in s.betters ==> r < p.rungs[w])
    && s.memory == Some(if s.climbed then s.betters[0] else p.rungs[w])
    && (forall n: nat :: n < |s.tries| && s.tries[n].Flying? && p.rungs[n] >= p.rungs[w] ==> n in s.stopped)
    && (forall n :: n in s.stopped ==> n < |p.rungs| && p.rungs[n] >= p.rungs[w])
  }

  /** The roads read so far: none beats the winner until one has climbed, and the rung that
    climbed is the rung of one of them. */
  ghost predicate KnownInv(p: Plan, s: State, w: nat)
    requires Shaped(p, s) && w < |p.rungs|
  {
    && (!s.climbed ==> forall n: nat :: n < |s.tries| && s.tries[n] == Heard(true) ==> p.rungs[n] >= p.rungs[w])
    && (s.climbed && s.betters != [] ==>
          exists n: nat :: n < |s.tries| && s.tries[n] == Heard(true) && p.rungs[n] == s.betters[0])
  }

  ghost predicate Inv(p: Plan, s: State) {
    && Shaped(p, s)
    && if Done(s) then DoneInv(p, s) else RacingInv(s)
  }

  lemma Cardinal(s: set<nat>, k: nat)
    requires forall n: nat :: n in s <==> n < k
    ensures |s| == k
  {
    if k == 0 {
      assert s == {};
    } else {
      Cardinal(s - {k - 1}, k - 1);
    }
  }

  lemma InitInv(p: Plan)
    ensures Inv(p, Init(p))
  {
    assert Owed(Init(p)) == {};
    Cardinal(NotOver(Init(p)), |p.rungs|);
  }

  /** Some try that is not over has nothing better left in the race. */
  lemma BestOpen(p: Plan, over: seq<bool>) returns (best: nat)
    requires |over| == |p.rungs|
    requires exists n: nat :: n < |over| && !over[n]
    ensures best < |over| && !over[best]
    ensures AboveEndedSpec(p.rungs, over, p.rungs[best])
  {
    best :| best < |over| && !over[best];
    while !AboveEndedSpec(p.rungs, over, p.rungs[best])
      invariant best < |over| && !over[best]
      decreases p.rungs[best]
    {
      var n: nat :| n < |over| && p.rungs[n] < p.rungs[best] && !over[n];
      best := n;
    }
  }

  lemma LaunchKeepsInv(p: Plan, s: State, at: seq<int>)
    requires Inv(p, s) && Enabled(p, s, Launch(at))
    ensures Inv(p, AfterLaunch(p, s, at))
  {
    var t := AfterLaunch(p, s, at);
    assert NotOver(t) == NotOver(s) != {};
    var some :| some in NotOver(s);
    assert !Over(s)[some];
    var best := BestOpen(p, Over(s));
    assert best in Owed(t);
  }

  lemma HearErrorKeepsInv(p: Plan, s: State, n: nat)
    requires Inv(p, s) && Enabled(p, s, Hear(n)) && !s.tries[n].ok
    ensures Inv(p, AfterHearing(p, s, n))
  {
    var t := AfterHearing(p, s, n);
    assert n in NotOver(s);
    assert NotOver(t) == NotOver(s) - {n};
    if t.phase.Refused? {
      assert s.left == |NotOver(s)| == 1 && |NotOver(t)| == |NotOver(s)| - 1;
      assert NotOver(t) == {};
      forall m: nat | m < |t.tries| ensures t.tries[m] == Heard(false) {
        assert m !in NotOver(t);
      }
      assert Owed(t) == {};
    }
  }

  lemma HearRoadKeepsInv(p: Plan, s: State, n: nat)
    requires Inv(p, s) && Enabled(p, s, Hear(n)) && s.tries[n].ok
    ensures Inv(p, AfterHearing(p, s, n))
  {
    var t := AfterHearing(p, s, n);
    RunningCountsOwed(t);
    assert t.stopped == set m | m in Owed(t) && p.rungs[m] >= p.rungs[n];
    assert WonInv(p, t, n);
    assert KnownInv(p, t, n);
    assert Settled(t);
  }

  lemma DrainSettles(p: Plan, s: State, n: nat)
    requires Shaped(p, s) && Settled(s) && Enabled(p, s, Drain(n))
    requires s.phase != Won(n)
    ensures Settled(AfterDraining(p, s, n))
  {
  }

  lemma DrainKeepsWinner(p: Plan, s: State, n: nat)
    requires Shaped(p, s) && s.phase.Won? && WonInv(p, s, s.phase.winner) && Enabled(p, s, Drain(n))
    ensures WonInv(p, AfterDraining(p, s, n), s.phase.winner)
  {
  }

  lemma DrainKeepsKnown(p: Plan, s: State, n: nat)
    requires Shaped(p, s) && s.phase.Won? && Enabled(p, s, Drain(n))
    requires WonInv(p, s, s.phase.winner) && KnownInv(p, s, s.phase.winner)
    ensures KnownInv(p, AfterDraining(p, s, n), s.phase.winner)
  {
    var t := AfterDraining(p, s, n);
    if s.climbed {
      var m: nat :| m < |s.tries| && s.tries[m] == Heard(true) && p.rungs[m] == s.betters[0];
      assert t.tries[m] == Heard(true);
    } else if t.climbed {
      assert t.tries[n] == Heard(true) && t.betters[0] == p.rungs[n];
    }
  }

  lemma DrainKeepsInv(p: Plan, s: State, n: nat)
    requires Inv(p, s) && Enabled(p, s, Drain(n))
    ensures Inv(p, AfterDraining(p, s, n))
  {
    DrainSettles(p, s, n);
    if s.phase.Won? { DrainKeepsWon(p, s, n); }
    DrainOwesLess(p, s, n);
  }

  lemma DrainKeepsWon(p: Plan, s: State, n: nat)
    requires Shaped(p, s) && s.phase.Won? && Enabled(p, s, Drain(n))
    requires WonInv(p, s, s.phase.winner) && KnownInv(p, s, s.phase.winner)
    ensures Shaped(p, AfterDraining(p, s, n))
    ensures WonInv(p, AfterDraining(p, s, n), s.phase.winner) && KnownInv(p, AfterDraining(p, s, n), s.phase.winner)
  {
    DrainKeepsWinner(p, s, n);
    DrainKeepsKnown(p, s, n);
  }

  lemma DrainOwesLess(p: Plan, s: State, n: nat)
    requires Shaped(p, s) && Enabled(p, s, Drain(n))
    ensures n in Owed(s) && Owed(AfterDraining(p, s, n)) == Owed(s) - {n}
  {
  }

  lemma EndKeepsInv(p: Plan, s: State, n: nat, ok: bool)
    requires Inv(p, s) && Enabled(p, s, End(n, ok))
    ensures Inv(p, s.(tries := s.tries[n := Queued(ok)]))
  {
    var t := s.(tries := s.tries[n := Queued(ok)]);
    assert NotOver(t) == NotOver(s);
    assert Owed(t) == Owed(s);
  }

  lemma SeeCancelKeepsInv(p: Plan, s: State)
    requires Inv(p, s) && Enabled(p, s, SeeCancel)
    ensures Inv(p, Step(p, s, SeeCancel))
  {
    RunningCountsOwed(s);
    assert Owed(Step(p, s, SeeCancel)) == Owed(s);
  }

  lemma OtherKeepsInv(p: Plan, s: State, a: Action)
    requires Inv(p, s) && Enabled(p, s, a) && (a.Tick? || a.CancelCtx? || a.Late?)
    ensures Inv(p, Step(p, s, a))
  {
    var t := Step(p, s, a);
    assert NotOver(t) == NotOver(s) && Owed(t) == Owed(s);
  }

  lemma StepKeepsInv(p: Plan, s: State, a: Action)
    requires Inv(p, s) && Enabled(p, s, a)
    ensures Inv(p, Step(p, s, a))
  {
    match a
    case Launch(at) => LaunchKeepsInv(p, s, at);
    case Hear(n) => if s.tries[n].ok { HearRoadKeepsInv(p, s, n); } else { HearErrorKeepsInv(p, s, n); }
    case Drain(n) => DrainKeepsInv(p, s, n);
    case End(n, ok) => EndKeepsInv(p, s, n, ok);
    case SeeCancel => SeeCancelKeepsInv(p, s);
    case _ => OtherKeepsInv(p, s, a);
  }
}
