/** Every schedule of the dial race: what holds when it waits, when it has returned and
  when it has gone quiet. */
module RoadRuns {
  import opened Options
  import opened Roads

  ghost predicate Legal(p: Plan, s: State, schedule: seq<Action>)
    requires Inv(p, s)
    decreases |schedule|
  {
    schedule == [] ||
    (Enabled(p, s, schedule[0]) &&
     (StepKeepsInv(p, s, schedule[0]); Legal(p, Step(p, s, schedule[0]), schedule[1..])))
  }

  ghost function Exec(p: Plan, s: State, schedule: seq<Action>): (t: State)
    requires Inv(p, s) && Legal(p, s, schedule)
    ensures Inv(p, t)
    decreases |schedule|
  {
    if schedule == [] then s
    else
      StepKeepsInv(p, s, schedule[0]);
      Exec(p, Step(p, s, schedule[0]), schedule[1..])
  }

  /** `s` is the state after some schedule of the race. */
  ghost predicate Reachable(p: Plan, s: State) {
    InitInv(p);
    exists schedule :: Legal(p, Init(p), schedule) && Exec(p, Init(p), schedule) == s
  }

  ghost predicate Landed(s: State) {
    forall n :: 0 <= n < |s.tries| ==> !s.tries[n].Flying?
  }

  /** Neither the race nor its drain ever waits with nothing running: while either waits,
    a result is there to read or some try is still dialling. */
  lemma NeverStuck(p: Plan, s: State)
    requires Reachable(p, s)
    requires s.phase.Waiting? || (Done(s) && s.pending > 0)
    ensures exists n :: 0 <= n < |s.tries| && (s.tries[n].Flying? || s.tries[n].Queued?)
  {
    assert Inv(p, s);
    assert Owed(s) != {};
    var n :| n in Owed(s);
    assert s.tries[n].Flying? || s.tries[n].Queued?;
  }

  lemma DrainEnabled(p: Plan, s: State) returns (n: nat)
    requires Inv(p, s) && Done(s) && Landed(s) && s.pending > 0
    ensures Enabled(p, s, Drain(n))
  {
    assert Owed(s) != {};
    n :| n in Owed(s);
  }

  ghost predicate Opened(s: State, n: nat) {
    n < |s.tries| && (s.tries[n] == Queued(true) || s.tries[n] == Heard(true))
  }

  ghost predicate Quiet(s: State) {
    Done(s) && s.pending == 0 && forall n :: 0 <= n < |s.tries| ==> s.tries[n].Idle? || s.tries[n].Heard?
  }

  lemma QuietWhenPaid(p: Plan, s: State)
    requires Inv(p, s) && Done(s) && s.pending == 0
    ensures Quiet(s)
  {
    forall n | 0 <= n < |s.tries| ensures s.tries[n].Idle? || s.tries[n].Heard? {
      assert n !in Owed(s);
    }
  }

  ghost predicate SameOpened(s: State, t: State) {
    forall n: nat :: Opened(t, n) <==> Opened(s, n)
  }

  lemma DrainOpensNone(p: Plan, s: State, n: nat)
    requires Shaped(p, s) && Landed(s) && Enabled(p, s, Drain(n))
    ensures var u := Step(p, s, Drain(n)); SameOpened(s, u) && Landed(u)
  {
  }

  lemma ExecCons(p: Plan, s: State, a: Action, rest: seq<Action>)
    requires Inv(p, s) && Enabled(p, s, a) && Inv(p, Step(p, s, a)) && Legal(p, Step(p, s, a), rest)
    ensures Legal(p, s, [a] + rest) && Exec(p, s, [a] + rest) == Exec(p, Step(p, s, a), rest)
  {
    assert ([a] + rest)[1..] == rest;
  }

  /** Once every started try has ended, the drain runs to its end by itself. */
  lemma DrainRuns(p: Plan, s: State) returns (schedule: seq<Action>)
    requires Inv(p, s) && Done(s) && Landed(s)
    ensures Legal(p, s, schedule)
    ensures forall a :: a in schedule ==> a.Drain?
    ensures var t := Exec(p, s, schedule); Quiet(t) && t.phase == s.phase && SameOpened(s, t)
    decreases s.pending
  {
    if s.pending == 0 {
      schedule := [];
      QuietWhenPaid(p, s);
    } else {
      var n := DrainEnabled(p, s);
      StepKeepsInv(p, s, Drain(n));
      DrainOpensNone(p, s, n);
      var u := Step(p, s, Drain(n));
      var rest := DrainRuns(p, u);
      schedule := [Drain(n)] + rest;
      ExecCons(p, s, Drain(n), rest);
    }
  }

  /** No road leaks on any schedule: when a race has gone quiet, each road that was ever
    opened is either the single road `Climb` returned or has been dropped exactly once,
    never both, and every try's context has been cancelled. */
  lemma NoLeak(p: Plan, s: State, n: nat)
    requires Reachable(p, s) && Quiet(s) && n < |p.rungs|
    ensures |s.tries| == |s.drops| == |p.rungs|
    ensures s.drops[n] == if Opened(s, n) && s.phase != Won(n) then 1 else 0
    ensures s.phase == Won(n) ==> Opened(s, n)
    ensures s.allCancelled
  {
    assert Inv(p, s);
  }

  ghost function Dialling(s: State): (r: set<nat>) {
    set n: nat | n < |s.tries| && s.tries[n].Flying?
  }

  /** How many actions can still happen once `Climb` has returned. */
  ghost function Fuel(s: State): nat {
    s.pending + |Dialling(s)| + (if s.late then 0 else 1) + (if s.ctxDone then 0 else 1)
  }

  lemma StepBurns(p: Plan, s: State, a: Action)
    requires Inv(p, s) && Done(s) && Enabled(p, s, a)
    ensures Step(p, s, a).phase == s.phase && Fuel(Step(p, s, a)) == Fuel(s) - 1
  {
    match a
    case End(n, ok) =>
      assert n in Dialling(s);
      assert Dialling(Step(p, s, a)) == Dialling(s) - {n};
    case Drain(n) => DrainBurns(p, s, n);
    case _ =>
  }

  lemma DrainBurns(p: Plan, s: State, n: nat)
    requires Shaped(p, s) && Enabled(p, s, Drain(n))
    ensures var t := AfterDraining(p, s, n);
      t.phase == s.phase && t.pending == s.pending - 1 && t.late == s.late && t.ctxDone == s.ctxDone
      && Dialling(t) == Dialling(s)
  {
  }

  lemma QuietOrBusy(p: Plan, s: State)
    requires Inv(p, s) && Done(s)
    ensures Quiet(s) <==> forall a :: Enabled(p, s, a) ==> a.CancelCtx?
  {
    if s.pending == 0 {
      QuietWhenPaid(p, s);
    } else {
      assert Owed(s) != {};
      var n :| n in Owed(s);
      assert Enabled(p, s, End(n, true)) || Enabled(p, s, Drain(n));
    }
  }

  /** Once `Climb` has returned, whatever happens next happens finitely often, whatever it
    is; and only the caller's context can still change when the race has gone quiet. */
  lemma {:induction false} EveryScheduleEnds(p: Plan, s: State, schedule: seq<Action>)
    requires Inv(p, s) && Done(s) && Legal(p, s, schedule)
    ensures var t := Exec(p, s, schedule);
      && t.phase == s.phase && |schedule| + Fuel(t) == Fuel(s)
      && (Quiet(t) <==> forall a :: Enabled(p, t, a) ==> a.CancelCtx?)
    decreases |schedule|
  {
    if schedule == [] {
      QuietOrBusy(p, s);
    } else {
      StepKeepsInv(p, s, schedule[0]);
      StepBurns(p, s, schedule[0]);
      EveryScheduleEnds(p, Step(p, s, schedule[0]), schedule[1..]);
    }
  }

  /** Put together: from any reachable moment at which `Climb` has returned, every schedule
    ends, it can only end quiet, and then every opened road is accounted for. */
  lemma EveryRoadEnds(p: Plan, s: State, schedule: seq<Action>, n: nat)
    requires Reachable(p, s) && Done(s) && n < |p.rungs|
    requires Inv(p, s) && Legal(p, s, schedule)
    ensures var t := Exec(p, s, schedule);
      && t.phase == s.phase && |t.drops| == |p.rungs| && |schedule| <= Fuel(s)
      && (Quiet(t) || exists a :: Enabled(p, t, a) && (a.End? || a.Drain?))
      && (Quiet(t) ==> t.allCancelled && t.drops[n] == if Opened(t, n) && t.phase != Won(n) then 1 else 0)
  {
    EveryScheduleEnds(p, s, schedule);
    var t := Exec(p, s, schedule);
    if !Quiet(t) {
      if t.pending == 0 { QuietWhenPaid(p, t); }
      assert Owed(t) != {};
      var m :| m in Owed(t);
      assert Enabled(p, t, End(m, true)) || Enabled(p, t, Drain(m));
    }
  }

  /** How `Climb` may end, and what the drain may still do for the winner. */
  lemma Outcomes(p: Plan, s: State)
    requires Reachable(p, s)
    ensures |s.tries| == |p.rungs|
    ensures s.phase.Refused? ==> forall n :: 0 <= n < |s.tries| ==> s.tries[n] == Heard(false)
    ensures s.phase.Cancelled? ==> s.ctxDone
    ensures s.phase.Won? ==> s.phase.winner < |p.rungs| && Opened(s, s.phase.winner)
    ensures s.betters == [] || (|s.betters| == 1 && s.phase.Won? && s.betters[0] < p.rungs[s.phase.winner])
    ensures s.phase.Won? ==>
      s.memory == Some(if s.betters == [] then p.rungs[s.phase.winner] else s.betters[0])
  {
    assert Inv(p, s);
    if s.betters != [] { assert s.betters[0] in s.betters; }
  }

  /** The rung remembered is the best one on which a road was opened. */
  ghost predicate RemembersBest(p: Plan, s: State)
    requires |s.tries| == |p.rungs|
  {
    && s.memory.Some?
    && (exists n: nat :: Opened(s, n) && p.rungs[n] == s.memory.value)
    && (forall n: nat :: Opened(s, n) ==> s.memory.value <= p.rungs[n])
  }

  /** The relay won, TCP was the first better road to come in, and QUIC came in too. */
  ghost predicate ClimbedShort(p: Plan, s: State)
    requires |s.tries| == |p.rungs|
  {
    && s.phase.Won? && s.phase.winner < |p.rungs| && p.rungs[s.phase.winner] == RELAY
    && s.betters == [TCP]
    && exists n: nat :: Opened(s, n) && p.rungs[n] == QUIC
  }

  /** A race that was won remembers the best rung that worked, except in that one case:
    only the first better road is remembered. */
  lemma RemembersBestIff(p: Plan, s: State)
    requires Reachable(p, s) && Quiet(s) && s.phase.Won?
    ensures |s.tries| == |p.rungs|
    ensures RemembersBest(p, s) <==> !ClimbedShort(p, s)
  {
    Outcomes(p, s);
    assert KnownInv(p, s, s.phase.winner);
    if s.betters == [] {
      assert Opened(s, s.phase.winner);
    } else {
      var m: nat :| m < |s.tries| && s.tries[m] == Heard(true) && p.rungs[m] == s.betters[0];
      assert Opened(s, m);
    }
  }

  /** One action taken from a state with the invariant, and what it does. */
  lemma OneStep(p: Plan, s: State, a: Action, t: State)
    requires Inv(p, s) && Enabled(p, s, a) && t == Step(p, s, a)
    ensures Inv(p, t) && Legal(p, s, [a]) && Exec(p, s, [a]) == t
  {
    StepKeepsInv(p, s, a);
    ExecCons(p, s, a, []);
  }

  /** The case happens on every plan with all three rungs: all tries are launched, a relay
    wins, then a TCP and a QUIC road come in, and the rest fail. */
  lemma MayClimbShort(p: Plan) returns (s: State)
    requires QUIC in p.rungs && TCP in p.rungs && RELAY in p.rungs
    ensures Reachable(p, s) && Quiet(s) && |s.tries| == |p.rungs| && ClimbedShort(p, s) && s.memory == Some(TCP)
  {
    var q, t, r :| 0 <= q < |p.rungs| && 0 <= t < |p.rungs| && 0 <= r < |p.rungs|
      && p.rungs[q] == QUIC && p.rungs[t] == TCP && p.rungs[r] == RELAY;
    InitInv(p);
    var s1 := LaunchAll(p);
    var s2 := FirstWins(p, s1, r);
    s := ClimbShort(p, s2, q, t);
    LeadsThen(p, s1, s2, s);
    LeadsThen(p, Init(p), s1, s);
    Outcomes(p, s);
  }

  lemma ClimbShort(p: Plan, s: State, q: nat, t: nat) returns (u: State)
    requires Inv(p, s) && s.phase.Won? && s.betters == [] && !s.climbed && NoneQueued(s) && q < |p.rungs| && t < |p.rungs|
    requires p.rungs[q] == QUIC && p.rungs[t] == TCP && p.rungs[s.phase.winner] == RELAY
    requires s.tries[q].Flying? && s.tries[t].Flying?
    ensures Leads(p, s, u) && Quiet(u) && |u.tries| == |p.rungs| && ClimbedShort(p, u)
  {
    var s3 := LateRoad(p, s, t);
    var s4 := LateRoad(p, s3, q);
    u := FailRest(p, s4);
    LeadsThen(p, s3, s4, u);
    LeadsThen(p, s, s3, u);
    assert Opened(u, q);
  }

  /** Some schedule leads from one state to the other. */
  ghost predicate Leads(p: Plan, s: State, t: State)
    requires Inv(p, s)
    ensures Leads(p, s, t) ==> Inv(p, t)
  {
    exists run :: Legal(p, s, run) && Exec(p, s, run) == t
  }

  lemma LeadsThen(p: Plan, s: State, t: State, u: State)
    requires Inv(p, s) && Leads(p, s, t) && Leads(p, t, u)
    ensures Leads(p, s, u)
  {
    var first :| Legal(p, s, first) && Exec(p, s, first) == t;
    var rest :| Legal(p, t, rest) && Exec(p, t, rest) == u;
    ExecThen(p, s, first, rest);
  }

  lemma TwoSteps(p: Plan, s: State, a: Action, b: Action) returns (t: State)
    requires Inv(p, s) && Enabled(p, s, a) && Inv(p, Step(p, s, a)) && Enabled(p, Step(p, s, a), b)
    ensures t == Step(p, Step(p, s, a), b) && Leads(p, s, t)
  {
    var u := Step(p, s, a);
    t := Step(p, u, b);
    OneStep(p, s, a, u);
    OneStep(p, u, b, t);
    ExecThen(p, s, [a], [b]);
  }

  /** Exactly the plans without all three rungs have `Climb` remember the best rung that
    worked whenever it wins, whatever the schedule. */
  lemma RemembersBestUnlessAllThree(p: Plan)
    ensures !(QUIC in p.rungs && TCP in p.rungs && RELAY in p.rungs) <==>
      forall s :: Reachable(p, s) && Quiet(s) && s.phase.Won? ==> |s.tries| == |p.rungs| && RemembersBest(p, s)
  {
    if QUIC in p.rungs && TCP in p.rungs && RELAY in p.rungs {
      var s := MayClimbShort(p);
      RemembersBestIff(p, s);
    } else {
      forall s | Reachable(p, s) && Quiet(s) && s.phase.Won? ensures |s.tries| == |p.rungs| && RemembersBest(p, s) {
        RemembersBestIff(p, s);
        if ClimbedShort(p, s) { ShortHasAll(p, s); }
      }
    }
  }

  lemma ShortHasAll(p: Plan, s: State)
    requires Reachable(p, s) && |s.tries| == |p.rungs| && ClimbedShort(p, s)
    ensures QUIC in p.rungs && TCP in p.rungs && RELAY in p.rungs
  {
    assert KnownInv(p, s, s.phase.winner);
    assert WonInv(p, s, s.phase.winner);
  }

  ghost predicate AllFlying(p: Plan, s: State) {
    |s.tries| == |p.rungs| && forall n :: 0 <= n < |s.tries| ==> s.tries[n].Flying?
  }

  lemma LaunchAll(p: Plan) returns (t: State)
    requires |p.rungs| > 0
    ensures Inv(p, Init(p)) && Leads(p, Init(p), t)
    ensures t.phase.Waiting? && AllFlying(p, t)
  {
    InitInv(p);
    var a := Launch(seq(|p.rungs|, _ => RELAY_HEAD_START));
    t := Step(p, Init(p), a);
    OneStep(p, Init(p), a, t);
  }

  lemma {:induction false} ExecThen(p: Plan, s: State, first: seq<Action>, rest: seq<Action>)
    requires Inv(p, s) && Legal(p, s, first) && Legal(p, Exec(p, s, first), rest)
    ensures Legal(p, s, first + rest) && Exec(p, s, first + rest) == Exec(p, Exec(p, s, first), rest)
    decreases |first|
  {
    if first == [] {
      assert first + rest == rest;
    } else {
      var t := ExecTail(p, s, first);
      ExecThen(p, t, first[1..], rest);
      ExecCons(p, s, first[0], first[1..] + rest);
      HeadOfBoth(first, rest);
    }
  }

  lemma HeadOfBoth(first: seq<Action>, rest: seq<Action>)
    requires first != []
    ensures first + rest == [first[0]] + (first[1..] + rest)
  {
  }

  lemma ExecTail(p: Plan, s: State, schedule: seq<Action>) returns (t: State)
    requires Inv(p, s) && Legal(p, s, schedule) && schedule != []
    ensures Enabled(p, s, schedule[0]) && t == Step(p, s, schedule[0])
    ensures Inv(p, t) && Legal(p, t, schedule[1..]) && Exec(p, s, schedule) == Exec(p, t, schedule[1..])
  {
    StepKeepsInv(p, s, schedule[0]);
    t := Step(p, s, schedule[0]);
  }

  lemma FirstWins(p: Plan, s: State, r: nat) returns (t: State)
    requires Inv(p, s) && s.phase.Waiting? && AllFlying(p, s) && r < |p.rungs|
    ensures Leads(p, s, t)
    ensures t.phase == Won(r) && t.tries == s.tries[r := Heard(true)] && !t.climbed && t.betters == []
  {
    StepKeepsInv(p, s, End(r, true));
    t := TwoSteps(p, s, End(r, true), Hear(r));
  }

  /** One more road comes in late, and is drained. */
  lemma LateRoad(p: Plan, s: State, n: nat) returns (t: State)
    requires Inv(p, s) && s.phase.Won? && n < |s.tries| && s.tries[n].Flying?
    ensures Leads(p, s, t)
    ensures t.phase == s.phase && t.tries == s.tries[n := Heard(true)]
    ensures p.rungs[n] < p.rungs[s.phase.winner] ==>
      t.climbed && t.betters == if s.climbed then s.betters else s.betters + [p.rungs[n]]
  {
    StepKeepsInv(p, s, End(n, true));
    assert n in Owed(Step(p, s, End(n, true)));
    t := TwoSteps(p, s, End(n, true), Drain(n));
  }

  /** One more try fails late. */
  lemma LateFailure(p: Plan, s: State, n: nat) returns (t: State)
    requires Inv(p, s) && s.phase.Won? && n < |s.tries| && s.tries[n].Flying?
    ensures Leads(p, s, t) && t.pending < s.pending
    ensures t.phase == s.phase && t.tries == s.tries[n := Heard(false)] && t.betters == s.betters
  {
    StepKeepsInv(p, s, End(n, false));
    assert n in Owed(Step(p, s, End(n, false)));
    t := TwoSteps(p, s, End(n, false), Drain(n));
  }

  ghost predicate NoneQueued(s: State) { forall n :: 0 <= n < |s.tries| ==> !s.tries[n].Queued? }

  /** All tries still dialling fail, one after the other. */
  lemma FailRest(p: Plan, s: State) returns (t: State)
    requires Inv(p, s) && s.phase.Won? && NoneQueued(s)
    ensures Leads(p, s, t)
    ensures Quiet(t) && t.phase == s.phase && t.betters == s.betters && |t.tries| == |s.tries|
    ensures forall n: nat :: Opened(s, n) ==> Opened(t, n)
    decreases s.pending
  {
    if s.pending == 0 {
      t := s;
      QuietWhenPaid(p, s);
      assert Legal(p, s, []) && Exec(p, s, []) == s;
    } else {
      assert Owed(s) != {};
      var n :| n in Owed(s);
      var u := LateFailure(p, s, n);
      t := FailRest(p, u);
      LeadsThen(p, s, u, t);
    }
  }

  /** The caller's context reaches the tries for as long as the race is on, and no longer; the
    LateFor timer cancels whatever still dials after a win. */
  lemma ContextReachesTheRace(p: Plan, s: State, a: Action)
    requires Reachable(p, s) && Inv(p, s) && Enabled(p, s, a)
    ensures !Done(s) ==> (s.allCancelled <==> s.ctxDone)
    ensures a.CancelCtx? ==> (Step(p, s, a).allCancelled <==> s.allCancelled || !Done(s))
    ensures a.Late? ==> Step(p, s, a).allCancelled
  {
  }

  /** A launch taken in state `before` began try `n`, for a reason, on the way to `s`. */
  ghost predicate BegunBy(p: Plan, s: State, n: nat, before: State, at: seq<int>) {
    && n < |p.rungs| == |before.tries| && Inv(p, before) && Enabled(p, before, Launch(at))
    && before.tries[n].Idle? && HasReason(p.rungs, Over(before), p.memory, n, at[n])
    && Inv(p, Step(p, before, Launch(at))) && Leads(p, Step(p, before, Launch(at)), s)
  }

  /** No try flies without a reason: some launch began it, and at that moment it was due by its
    head start, was remembered, or had nothing better left. */
  lemma EveryStartHasReason(p: Plan, s: State, n: nat) returns (before: State, at: seq<int>)
    requires Reachable(p, s) && n < |s.tries| && !s.tries[n].Idle?
    ensures Reachable(p, before) && BegunBy(p, s, n, before, at)
  {
    InitInv(p);
    var run :| Legal(p, Init(p), run) && Exec(p, Init(p), run) == s;
    before, at := StartedBy(p, Init(p), run, n);
  }

  lemma OnlyLaunchStarts(p: Plan, s: State, a: Action, t: State, n: nat)
    requires Inv(p, s) && Enabled(p, s, a) && t == Step(p, s, a) && n < |t.tries| == |p.rungs|
    requires s.tries[n].Idle? && !t.tries[n].Idle?
    ensures a.Launch? && HasReason(p.rungs, Over(s), p.memory, n, a.at[n])
  {
    match a
    case Launch(at) => LaunchBegins(p, Begun(s), Over(s), at, n);
    case Drain(m) =>
    case _ =>
  }

  lemma {:induction false} StartedBy(p: Plan, s: State, run: seq<Action>, n: nat) returns (before: State, at: seq<int>)
    requires Inv(p, s) && Legal(p, s, run) && n < |p.rungs| && s.tries[n].Idle? && !Exec(p, s, run).tries[n].Idle?
    ensures Leads(p, s, before) && BegunBy(p, Exec(p, s, run), n, before, at)
    decreases |run|
  {
    var t := ExecTail(p, s, run);
    if t.tries[n].Idle? {
      before, at := StartedBy(p, t, run[1..], n);
      OneLeads(p, s, run[0], t);
      LeadsThen(p, s, t, before);
    } else {
      OnlyLaunchStarts(p, s, run[0], t, n);
      before, at := s, run[0].at;
      LeadsBy(p, t, run[1..]);
      LeadsBy(p, s, []);
    }
  }

  lemma OneLeads(p: Plan, s: State, a: Action, t: State)
    requires Inv(p, s) && Enabled(p, s, a) && t == Step(p, s, a)
    ensures Inv(p, t) && Leads(p, s, t)
  {
    OneStep(p, s, a, t);
    LeadsBy(p, s, [a]);
  }

  lemma LeadsBy(p: Plan, s: State, run: seq<Action>)
    requires Inv(p, s) && Legal(p, s, run)
    ensures Leads(p, s, Exec(p, s, run))
  {
  }

  /** A win stops exactly the tries that cannot beat the winner; better ones keep dialling. */
  lemma WinSpares(p: Plan, s: State, n: nat)
    requires Reachable(p, s) && s.phase.Won? && n < |s.tries| && s.tries[n].Flying?
    ensures s.phase.winner < |p.rungs| && n < |p.rungs|
    ensures n in s.stopped <==> p.rungs[n] >= p.rungs[s.phase.winner]
  {
    assert Inv(p, s);
  }
}
