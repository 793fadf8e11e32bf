/** Single flight in internal/dnsproxy/dnsproxy.go (`once`): concurrent questions with one
  key share one trip upstream.  Each critical section, the trip, and closing the channel
  are separate steps. */
module DnsOnce {
  import opened Options
  import opened Bytes

  type Key = string
  type Id = nat

  datatype Outcome = Ok(answer: Bytes) | Failed

  /** The leader's progress: upstream, told (the call holds the outcome), off the map. */
  datatype Stage = Asking | Told | Unlisted

  datatype Role = Leading(stage: Stage) | Joined | Returned(result: Outcome)

  datatype Caller = Caller(key: Key, query: Bytes, call: Id, leads: bool, role: Role)

  datatype Call = Call(key: Key, leader: Id, outcome: Option<Outcome>, done: bool)

  datatype State = State(
    callers: seq<Caller>,
    calls: seq<Call>,
    inflight: map<Key, Id>,
    stored: seq<(Key, Outcome)>) // what went to `store`, in order

  function Init(): State { State([], [], map[], []) }

  datatype Action =
    | Enter(key: Key, query: Bytes)
    | Hear(who: Id, outcome: Outcome)   // `forward` returns; an answer is stored
    | Unlist(who: Id)
    | Close(who: Id)
    | Wake(who: Id)                     // a joiner sees the closed channel

  predicate Enabled(s: State, a: Action) {
    match a
    case Enter(key, query) => |query| >= 12
    case Hear(who, outcome) =>
      who < |s.callers| && s.callers[who].role == Leading(Asking) && (outcome.Ok? ==> |outcome.answer| >= 2)
    case Unlist(who) => who < |s.callers| && s.callers[who].role == Leading(Told)
    case Close(who) => who < |s.callers| && s.callers[who].role == Leading(Unlisted)
    case Wake(who) =>
      who < |s.callers| && s.callers[who].role == Joined && s.callers[who].call < |s.calls| && s.calls[s.callers[who].call].done
  }

  /** The answer under another query's id: only the first two bytes differ. */
  function Relabel(o: Outcome, query: Bytes): Outcome
    requires |query| >= 2 && (o.Ok? ==> |o.answer| >= 2)
  {
    if o.Ok? then Ok(Put(o.answer, 0, query[..2])) else Failed
  }

  ghost predicate Shaped(s: State) {
    && (forall i :: 0 <= i < |s.callers| ==> s.callers[i].call < |s.calls| && |s.callers[i].query| >= 12)
    && (forall c :: 0 <= c < |s.calls| && s.calls[c].outcome.Some? && s.calls[c].outcome.value.Ok? ==>
          |s.calls[c].outcome.value.answer| >= 2)
    && (forall c :: 0 <= c < |s.calls| && s.calls[c].done ==> s.calls[c].outcome.Some?)
  }

  function Move(s: State, who: Id, role: Role): State
    requires who < |s.callers|
  {
    s.(callers := s.callers[who := s.callers[who].(role := role)])
  }

  ghost function Step(s: State, a: Action): State
    requires Shaped(s) && Enabled(s, a)
  {
    match a
    case Enter(key, query) =>
      if key in s.inflight then s.(callers := s.callers + [Caller(key, query, s.inflight[key], false, Joined)])
      else s.(callers := s.callers + [Caller(key, query, |s.calls|, true, Leading(Asking))],
              calls := s.calls + [Call(key, |s.callers|, None, false)],
              inflight := s.inflight[key := |s.calls|])
    case Hear(who, outcome) =>
      var c := s.callers[who].call;
      Move(s, who, Leading(Told)).(calls := s.calls[c := s.calls[c].(outcome := Some(outcome))],
         stored := if outcome.Ok? then s.stored + [(s.callers[who].key, outcome)] else s.stored)
    case Unlist(who) => Move(s, who, Leading(Unlisted)).(inflight := s.inflight - {s.callers[who].key})
    case Close(who) =>
      var c := s.callers[who].call;
      if s.calls[c].outcome.Some? then
        Move(s, who, Returned(s.calls[c].outcome.value)).(calls := s.calls[c := s.calls[c].(done := true)])
      else s
    case Wake(who) =>
      var o := s.calls[s.callers[who].call].outcome.value;
      Move(s, who, Returned(Relabel(o, s.callers[who].query)))
  }

  // ------------------------------------------------------------ invariant

  /** A call and the caller that made it agree on how far it has come. */
  ghost predicate CallOk(s: State, c: Id)
    requires c < |s.calls|
  {
    var k := s.calls[c];
    && k.leader < |s.callers|
    && s.callers[k.leader].call == c && s.callers[k.leader].leads && s.callers[k.leader].key == k.key
    && match s.callers[k.leader].role
       case Leading(stage) => !k.done && (k.outcome.Some? <==> !stage.Asking?) &&
         ((k.key in s.inflight && s.inflight[k.key] == c) <==> !stage.Unlisted?)
       case Joined => false
       case Returned(result) => k.done && k.outcome == Some(result) && !(k.key in s.inflight && s.inflight[k.key] == c)
  }

  /** A caller belongs to a call of its key; a joiner that has returned has its outcome. */
  ghost predicate CallerOk(s: State, i: Id)
    requires i < |s.callers| && Shaped(s)
  {
    var me := s.callers[i];
    && s.calls[me.call].key == me.key
    && (me.leads <==> s.calls[me.call].leader == i)
    && (me.role.Leading? ==> me.leads) && (me.role.Joined? ==> !me.leads)
    && (!me.leads && me.role.Returned? ==>
          s.calls[me.call].outcome.Some? && me.role.result == Relabel(s.calls[me.call].outcome.value, me.query))
  }

  ghost predicate Inv(s: State) {
    && Shaped(s)
    && (forall key :: key in s.inflight ==> s.inflight[key] < |s.calls| && s.calls[s.inflight[key]].key == key)
    && (forall c :: 0 <= c < |s.calls| ==> CallOk(s, c))
    && (forall i :: 0 <= i < |s.callers| ==> CallerOk(s, i))
    && (forall n :: 0 <= n < |s.stored| ==> Backed(s, s.stored[n]))
  }

  /** What was stored is the answer some call got. */
  ghost predicate Backed(s: State, p: (Key, Outcome)) {
    p.1.Ok? && exists c :: 0 <= c < |s.calls| && s.calls[c].key == p.0 && s.calls[c].outcome == Some(p.1)
  }

  lemma StoredStaysBacked(s: State, t: State)
    requires forall n :: 0 <= n < |s.stored| ==> Backed(s, s.stored[n])
    requires |t.calls| >= |s.calls|
    requires forall c :: 0 <= c < |s.calls| ==>
      t.calls[c].key == s.calls[c].key && (s.calls[c].outcome.Some? ==> t.calls[c].outcome == s.calls[c].outcome)
    ensures forall n :: 0 <= n < |s.stored| ==> Backed(t, s.stored[n])
  {
    forall n | 0 <= n < |s.stored| ensures Backed(t, s.stored[n]) {
      assert Backed(s, s.stored[n]);
      var c :| 0 <= c < |s.calls| && s.calls[c].key == s.stored[n].0 && s.calls[c].outcome == Some(s.stored[n].1);
      assert t.calls[c].outcome == s.calls[c].outcome;
    }
  }

  lemma JoinKeepsInv(s: State, key: Key, query: Bytes)
    requires Inv(s) && Enabled(s, Enter(key, query)) && key in s.inflight
    ensures Inv(Step(s, Enter(key, query)))
  {
    var t := Step(s, Enter(key, query));
    StoredStaysBacked(s, t);
    assert CallOk(s, s.inflight[key]);
    forall i | 0 <= i < |s.callers| ensures CallerOk(t, i) { assert CallerOk(s, i); }
    forall c | 0 <= c < |s.calls| ensures CallOk(t, c) { assert CallOk(s, c); }
  }

  lemma LeadKeepsInv(s: State, key: Key, query: Bytes)
    requires Inv(s) && Enabled(s, Enter(key, query)) && key !in s.inflight
    ensures Inv(Step(s, Enter(key, query)))
  {
    var t := Step(s, Enter(key, query));
    StoredStaysBacked(s, t);
    forall i | 0 <= i < |s.callers| ensures CallerOk(t, i) { assert CallerOk(s, i); }
    forall c | 0 <= c < |s.calls| ensures CallOk(t, c) { assert CallOk(s, c); }
    assert CallerOk(t, |s.callers|) && CallOk(t, |s.calls|);
  }

  lemma HearKeepsInv(s: State, who: Id, outcome: Outcome)
    requires Inv(s) && Enabled(s, Hear(who, outcome))
    ensures Inv(Step(s, Hear(who, outcome)))
  {
    var t := Step(s, Hear(who, outcome));
    var c := s.callers[who].call;
    assert CallerOk(s, who) && CallOk(s, c);
    forall i | 0 <= i < |s.callers| ensures CallerOk(t, i) { assert CallerOk(s, i); }
    forall d | 0 <= d < |s.calls| ensures CallOk(t, d) { assert CallOk(s, d); }
    StoredStaysBacked(s, t);
    if outcome.Ok? {
      assert t.calls[c].key == s.callers[who].key && t.calls[c].outcome == Some(Ok(outcome.answer));
      assert Backed(t, (s.callers[who].key, outcome));
    }
  }

  lemma LeaveKeepsInv(s: State, a: Action)
    requires Inv(s) && Enabled(s, a) && !a.Enter? && !a.Hear?
    ensures Inv(Step(s, a))
  {
    var t := Step(s, a);
    assert CallerOk(s, a.who) && CallOk(s, s.callers[a.who].call);
    forall i | 0 <= i < |s.callers| ensures CallerOk(t, i) { assert CallerOk(s, i); }
    forall d | 0 <= d < |s.calls| ensures CallOk(t, d) { assert CallOk(s, d); }
    StoredStaysBacked(s, t);
  }

  lemma StepKeepsInv(s: State, a: Action)
    requires Inv(s) && Enabled(s, a)
    ensures Inv(Step(s, a))
  {
    match a
    case Enter(key, query) => if key in s.inflight { JoinKeepsInv(s, key, query); } else { LeadKeepsInv(s, key, query); }
    case Hear(who, outcome) => HearKeepsInv(s, who, outcome);
    case _ => LeaveKeepsInv(s, a);
  }

  // -------------------------------------------------------------- theorems

  ghost predicate Reaches(trace: seq<State>, acts: seq<Action>) {
    && |trace| == |acts| + 1 && trace[0] == Init()
    && forall i :: 0 <= i < |acts| ==> Shaped(trace[i]) && Enabled(trace[i], acts[i]) && trace[i + 1] == Step(trace[i], acts[i])
  }

  lemma {:induction false} ReachedInv(trace: seq<State>, acts: seq<Action>, i: nat)
    requires Reaches(trace, acts) && i < |trace|
    ensures Inv(trace[i])
  {
    if i > 0 {
      ReachedInv(trace, acts, i - 1);
      StepKeepsInv(trace[i - 1], acts[i - 1]);
    }
  }

  /** At most one leader per key has its call listed, and it is the listed one. */
  lemma OneLeader(trace: seq<State>, acts: seq<Action>, n: nat, i: Id, j: Id)
    requires Reaches(trace, acts) && n < |trace|
    requires i < |trace[n].callers| && j < |trace[n].callers| && trace[n].callers[i].key == trace[n].callers[j].key
    requires trace[n].callers[i].role in {Leading(Asking), Leading(Told)}
    requires trace[n].callers[j].role in {Leading(Asking), Leading(Told)}
    ensures i == j
  {
    var s := trace[n];
    ReachedInv(trace, acts, n);
    assert CallerOk(s, i) && CallerOk(s, j);
    assert CallOk(s, s.callers[i].call) && CallOk(s, s.callers[j].call);
  }

  /** Everyone who joined a call gets what its leader got: the same failure, or the same
    answer but for the two id bytes. */
  lemma JoinersShare(trace: seq<State>, acts: seq<Action>, n: nat, i: Id)
    requires Reaches(trace, acts) && n < |trace| && i < |trace[n].callers|
    requires trace[n].callers[i].role.Returned? && !trace[n].callers[i].leads
    ensures var s := trace[n]; var me := s.callers[i];
      && me.call < |s.calls| && s.calls[me.call].key == me.key && s.calls[me.call].outcome.Some?
      && var o := s.calls[me.call].outcome.value;
         && (o.Failed? <==> me.role.result.Failed?)
         && (o.Ok? ==>
               && |me.role.result.answer| == |o.answer| >= 2 && |me.query| >= 2
               && me.role.result.answer[..2] == me.query[..2] && me.role.result.answer[2..] == o.answer[2..])
  {
    ReachedInv(trace, acts, n);
    assert CallerOk(trace[n], i);
  }

  /** A failure is never stored: whatever was stored is an answer some call returned. */
  lemma OnlyAnswersStored(trace: seq<State>, acts: seq<Action>, n: nat, k: nat)
    requires Reaches(trace, acts) && n < |trace| && k < |trace[n].stored|
    ensures trace[n].stored[k].1 != Failed && Backed(trace[n], trace[n].stored[k])
  {
    ReachedInv(trace, acts, n);
  }

  /** Nobody waits for nothing: while a joiner waits, its call is done or being led. */
  lemma JoinerIsAnswered(trace: seq<State>, acts: seq<Action>, n: nat, i: Id)
    requires Reaches(trace, acts) && n < |trace| && i < |trace[n].callers| && trace[n].callers[i].role.Joined?
    ensures var s := trace[n]; var c := s.callers[i].call;
      c < |s.calls| && (s.calls[c].done || (s.calls[c].leader < |s.callers| && s.callers[s.calls[c].leader].role.Leading?))
  {
    ReachedInv(trace, acts, n);
    assert CallOk(trace[n], trace[n].callers[i].call);
  }

  // ------------------------------------------------- what a step is good for

  /** A caller whose trip upstream for the key is still listed. */
  ghost predicate Trips(s: State, j: Id, key: Key) {
    j < |s.callers| && s.callers[j].key == key && (s.callers[j].role == Leading(Asking) || s.callers[j].role == Leading(Told))
  }

  /** Whoever asks joins the trip under way for the key, or makes one if there is none. */
  lemma EnterJoinsOrLeads(trace: seq<State>, acts: seq<Action>, n: nat, key: Key, query: Bytes)
    requires Reaches(trace, acts) && n < |acts| && acts[n] == Enter(key, query)
    ensures var s, t := trace[n], trace[n + 1]; var i := |s.callers|;
      && |t.callers| == i + 1 && t.callers[..i] == s.callers && t.callers[i].key == key && t.callers[i].query == query
      && (forall j: Id :: Trips(s, j, key) ==> t.callers[i].role == Joined && t.callers[i].call == s.callers[j].call && t.calls == s.calls)
      && ((forall j: Id :: !Trips(s, j, key)) ==> t.callers[i].role == Leading(Asking) && t.callers[i].call == |s.calls|)
  {
    var s, t := trace[n], trace[n + 1];
    ReachedInv(trace, acts, n);
    assert t == Step(s, Enter(key, query));
    forall j: Id | Trips(s, j, key) ensures key in s.inflight && s.inflight[key] == s.callers[j].call {
      assert CallerOk(s, j) && CallOk(s, s.callers[j].call);
    }
    if key in s.inflight {
      assert CallOk(s, s.inflight[key]);
      assert Trips(s, s.calls[s.inflight[key]].leader, key);
    }
  }

  /** An answer heard is stored, once and at once; a failure is not, nor does anything else
    store. */
  lemma StoredWhenHeard(trace: seq<State>, acts: seq<Action>, n: nat)
    requires Reaches(trace, acts) && n < |acts|
    ensures var s, t, a := trace[n], trace[n + 1], acts[n];
      t.stored == if a.Hear? && a.outcome.Ok? && a.who < |s.callers| then s.stored + [(s.callers[a.who].key, a.outcome)] else s.stored
  {
    assert trace[n + 1] == Step(trace[n], acts[n]);
  }

  lemma StepHears(s: State, a: Action, t: State, c: Id)
    requires Inv(s) && Enabled(s, a) && t == Step(s, a) && c < |t.calls| && t.calls[c].outcome.Some?
    ensures (a.Hear? && a == Hear(t.calls[c].leader, t.calls[c].outcome.value))
         || (c < |s.calls| && s.calls[c].outcome == t.calls[c].outcome && s.calls[c].leader == t.calls[c].leader)
  {
    if a.Hear? { assert CallerOk(s, a.who); }
  }

  /** The outcome of a call is what its leader heard upstream. */
  lemma {:induction false} OutcomeIsHeard(trace: seq<State>, acts: seq<Action>, n: nat, c: Id)
    requires Reaches(trace, acts) && n < |trace| && c < |trace[n].calls| && trace[n].calls[c].outcome.Some?
    ensures exists k :: 0 <= k < n && acts[k] == Hear(trace[n].calls[c].leader, trace[n].calls[c].outcome.value)
    decreases n
  {
    if n > 0 {
      var s, a, t := trace[n - 1], acts[n - 1], trace[n];
      ReachedInv(trace, acts, n - 1);
      StepHears(s, a, t, c);
      if a != Hear(t.calls[c].leader, t.calls[c].outcome.value) { OutcomeIsHeard(trace, acts, n - 1, c); }
    }
  }

  /** A caller that led returns what it heard itself. */
  lemma LeaderReturnsHeard(trace: seq<State>, acts: seq<Action>, n: nat, i: Id)
    requires Reaches(trace, acts) && n < |trace| && i < |trace[n].callers|
    requires trace[n].callers[i].leads && trace[n].callers[i].role.Returned?
    ensures exists k :: 0 <= k < n && acts[k] == Hear(i, trace[n].callers[i].role.result)
  {
    var s := trace[n];
    ReachedInv(trace, acts, n);
    assert CallerOk(s, i) && CallOk(s, s.callers[i].call);
    OutcomeIsHeard(trace, acts, n, s.callers[i].call);
  }
}
