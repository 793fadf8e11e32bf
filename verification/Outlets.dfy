/** UDP outlets of internal/qsrv/outlet.go: every flow of a slot leaves by one socket, which
  opens with the slot's first flow and closes after its last.  `reach`, the locked part of
  `leave`, and the `sock.Close` after it are separate steps. */
module Outlets {
  import opened Options

  type Slot = nat
  type Dst = nat          // an address and port, IPv4-mapped addresses taken for IPv4
  type Id = nat

  datatype Outlet = Outlet(slot: Slot, flows: map<Dst, seq<Id>>, closes: nat)

  datatype Flow = Flow(outlet: Id, dst: Dst, open: bool)

  datatype State = State(
    outlets: seq<Outlet>,
    flows: seq<Flow>,
    table: map<Slot, Id>,
    closing: set<Id>)       // outlets whose last flow has left, socket still to be closed

  datatype Action = Reach(slot: Slot, dst: Dst) | Leave(f: Id) | SockClose(o: Id)

  /** `sync.Once` lets a flow leave once; a `reach` whose socket will not open does nothing. */
  predicate Enabled(s: State, a: Action) {
    match a
    case Reach(slot, dst) => true
    case Leave(f) => f < |s.flows| && s.flows[f].open
    case SockClose(o) => o in s.closing
  }

  // ---------------------------------------------------------------- drop

  function RemoveFirst(s: seq<Id>, f: Id): (r: seq<Id>) {
    if s == [] then [] else if s[0] == f then s[1..] else [s[0]] + RemoveFirst(s[1..], f)
  }

  function Dropped(flows: map<Dst, seq<Id>>, dst: Dst, f: Id): map<Dst, seq<Id>> {
    if dst !in flows then flows
    else
      var rest := RemoveFirst(flows[dst], f);
      if rest == flows[dst] then flows else if rest == [] then flows - {dst} else flows[dst := rest]
  }

  lemma {:induction false} RemoveAt(s: seq<Id>, f: Id, i: nat)
    requires i < |s| && s[i] == f && forall j :: 0 <= j < i ==> s[j] != f
    ensures RemoveFirst(s, f) == s[..i] + s[i + 1..]
  {
    if i > 0 {
      RemoveAt(s[1..], f, i - 1);
      assert s[1..][..i - 1] == s[1..i] && s[1..][i..] == s[i + 1..];
    }
  }

  lemma {:induction false} RemoveNone(s: seq<Id>, f: Id)
    requires f !in s
    ensures RemoveFirst(s, f) == s
  {
    if s != [] { RemoveNone(s[1..], f); }
  }

  class FlowTable {
    var flows: map<Dst, seq<Id>>

    constructor ()
      ensures flows == map[]
    {
      flows := map[];
    }

    /** `outlet.drop`: the flow goes, the order of the others stays. */
    method Drop(dst: Dst, f: Id)
      modifies this
      ensures flows == Dropped(old(flows), dst, f)
    {
      if dst !in flows { return; }
      var held := flows[dst];
      for i := 0 to |held|
        invariant forall j :: 0 <= j < i ==> held[j] != f
      {
        if held[i] != f { continue; }
        RemoveAt(held, f, i);
        held := held[..i] + held[i + 1..];
        if held == [] { flows := flows - {dst}; } else { flows := flows[dst := held]; }
        return;
      }
      RemoveNone(held, f);
    }
  }

  // ------------------------------------------------------------- protocol

  function Init(): State { State([], [], map[], {}) }

  function Joined(flows: map<Dst, seq<Id>>, dst: Dst, f: Id): map<Dst, seq<Id>> {
    flows[dst := (if dst in flows then flows[dst] else []) + [f]]
  }

  ghost predicate Shaped(s: State) {
    && (forall f :: 0 <= f < |s.flows| ==> s.flows[f].outlet < |s.outlets|)
    && (forall slot :: slot in s.table ==> s.table[slot] < |s.outlets| && s.outlets[s.table[slot]].slot == slot)
    && (forall o :: o in s.closing ==> o < |s.outlets|)
  }

  ghost function AfterReach(s: State, slot: Slot, dst: Dst): State
    requires Shaped(s)
  {
    var f := |s.flows|;
    if slot in s.table then
      var o := s.table[slot];
      s.(outlets := s.outlets[o := s.outlets[o].(flows := Joined(s.outlets[o].flows, dst, f))],
         flows := s.flows + [Flow(o, dst, true)])
    else
      s.(outlets := s.outlets + [Outlet(slot, map[dst := [f]], 0)],
         flows := s.flows + [Flow(|s.outlets|, dst, true)],
         table := s.table[slot := |s.outlets|])
  }

  ghost function AfterLeave(s: State, f: Id): State
    requires Shaped(s) && Enabled(s, Leave(f))
  {
    var o := s.flows[f].outlet;
    var out := s.outlets[o];
    var left := Dropped(out.flows, s.flows[f].dst, f);
    var last := left == map[];
    s.(outlets := s.outlets[o := out.(flows := left)],
       flows := s.flows[f := s.flows[f].(open := false)],
       table := if last && out.slot in s.table && s.table[out.slot] == o then s.table - {out.slot} else s.table,
       closing := if last then s.closing + {o} else s.closing)
  }

  ghost function Step(s: State, a: Action): State
    requires Shaped(s) && Enabled(s, a)
  {
    match a
    case Reach(slot, dst) => AfterReach(s, slot, dst)
    case Leave(f) => AfterLeave(s, f)
    case SockClose(o) =>
      s.(outlets := s.outlets[o := s.outlets[o].(closes := s.outlets[o].closes + 1)], closing := s.closing - {o})
  }

  // ------------------------------------------------------------ invariant

  ghost predicate Rising(s: seq<Id>) { forall i, j :: 0 <= i < j < |s| ==> s[i] < s[j] }

  /** Flow `f` is open on outlet `o` towards `dst`. */
  predicate OpenOn(flows: seq<Flow>, f: Id, o: Id, dst: Dst) { f < |flows| && flows[f] == Flow(o, dst, true) }

  /** An outlet lists exactly its open flows, by destination, oldest first. */
  ghost predicate Lists(flows: seq<Flow>, o: Id, held: map<Dst, seq<Id>>) {
    && (forall dst :: dst in held ==> held[dst] != [] && Rising(held[dst]))
    && (forall dst, f :: dst in held ==> (f in held[dst] <==> OpenOn(flows, f, o, dst)))
    && (forall f: Id :: f < |flows| && flows[f].open && flows[f].outlet == o ==> flows[f].dst in held)
  }

  /** An outlet is registered exactly while it has a flow; else its socket is closed, once,
    or about to be. */
  ghost predicate OutletOk(s: State, o: Id)
    requires o < |s.outlets|
  {
    var out := s.outlets[o];
    && Lists(s.flows, o, out.flows)
    && (out.flows != map[] <==> out.slot in s.table && s.table[out.slot] == o)
    && (o in s.closing ==> out.flows == map[])
    && out.closes == if out.flows == map[] && o !in s.closing then 1 else 0
  }

  ghost predicate Inv(s: State) {
    Shaped(s) && forall o :: 0 <= o < |s.outlets| ==> OutletOk(s, o)
  }

  lemma RisingEnds(x: Id, s: seq<Id>, y: Id)
    requires Rising(s)
    ensures (forall k :: k in s ==> x < k) ==> Rising([x] + s)
    ensures (forall k :: k in s ==> k < y) ==> Rising(s + [y])
  {
    forall i | 0 <= i < |s| ensures s[i] in s {}
  }

  lemma JoinLists(flows: seq<Flow>, o: Id, held: map<Dst, seq<Id>>, dst: Dst)
    requires Lists(flows, o, held)
    ensures Lists(flows + [Flow(o, dst, true)], o, Joined(held, dst, |flows|))
  {
    var all := flows + [Flow(o, dst, true)];
    var after := Joined(held, dst, |flows|);
    assert forall f: Id :: f < |flows| ==> all[f] == flows[f];
    if dst in held {
      forall f | f in held[dst] ensures f < |flows| { assert OpenOn(flows, f, o, dst); }
      RisingEnds(0, held[dst], |flows|);
    }
    forall d, f | d in after ensures f in after[d] <==> OpenOn(all, f, o, d) {
      if d != dst || d in held { assert d in held ==> (f in held[d] <==> OpenOn(flows, f, o, d)); }
    }
  }

  lemma OtherLists(flows: seq<Flow>, all: seq<Flow>, o: Id, held: map<Dst, seq<Id>>)
    requires Lists(flows, o, held) && |flows| <= |all|
    requires forall f :: 0 <= f < |flows| ==> all[f] == flows[f] || (flows[f].outlet != o && all[f].outlet != o)
    requires forall f :: |flows| <= f < |all| ==> all[f].outlet != o
    ensures Lists(all, o, held)
  {
    forall d, f: Id | d in held ensures f in held[d] <==> OpenOn(all, f, o, d) {
      assert f in held[d] <==> OpenOn(flows, f, o, d);
    }
  }

  lemma {:induction false} RemoveRising(s: seq<Id>, f: Id)
    requires Rising(s)
    ensures Rising(RemoveFirst(s, f)) && forall k :: k in RemoveFirst(s, f) <==> k in s && k != f
  {
    if s != [] {
      assert Rising(s[1..]);
      RemoveRising(s[1..], f);
      assert s == [s[0]] + s[1..];
      assert s[0] !in s[1..];
      if s[0] != f {
        var rest := RemoveFirst(s[1..], f);
        forall k | k in rest ensures s[0] < k { assert k in s[1..]; }
        RisingEnds(s[0], rest, 0);
      }
    }
  }

  lemma DropLists(flows: seq<Flow>, o: Id, held: map<Dst, seq<Id>>, f: Id)
    requires Lists(flows, o, held) && f < |flows| && flows[f].open && flows[f].outlet == o
    ensures Lists(flows[f := flows[f].(open := false)], o, Dropped(held, flows[f].dst, f))
  {
    var dst := flows[f].dst;
    var after := flows[f := flows[f].(open := false)];
    assert OpenOn(flows, f, o, dst) && f in held[dst];
    RemoveRising(held[dst], f);
    assert f !in RemoveFirst(held[dst], f);
    var left := Dropped(held, dst, f);
    forall d, g: Id | d in left ensures g in left[d] <==> OpenOn(after, g, o, d) {
      assert g in held[d] <==> OpenOn(flows, g, o, d);
    }
    forall g: Id | g < |after| && after[g].open && after[g].outlet == o ensures after[g].dst in left {
      assert flows[g].dst in held && OpenOn(flows, g, o, flows[g].dst);
      if flows[g].dst == dst { assert g in RemoveFirst(held[dst], f); }
    }
  }

  lemma ReachKeepsInv(s: State, slot: Slot, dst: Dst)
    requires Inv(s)
    ensures Inv(AfterReach(s, slot, dst))
  {
    var t := AfterReach(s, slot, dst);
    var mine := t.flows[|s.flows|].outlet;
    forall o | 0 <= o < |t.outlets| ensures OutletOk(t, o) {
      if o == mine && o < |s.outlets| {
        assert OutletOk(s, o);
        JoinLists(s.flows, o, s.outlets[o].flows, dst);
      } else if o == mine {
        JoinLists(s.flows, o, map[], dst);
        assert [] + [|s.flows|] == [|s.flows|];
      } else {
        assert OutletOk(s, o);
        OtherLists(s.flows, t.flows, o, s.outlets[o].flows);
      }
    }
  }

  lemma LeaveKeepsInv(s: State, f: Id)
    requires Inv(s) && Enabled(s, Leave(f))
    ensures Inv(AfterLeave(s, f))
  {
    var t := AfterLeave(s, f);
    var mine := s.flows[f].outlet;
    assert OutletOk(s, mine);
    assert s.outlets[mine].flows != map[] by { assert s.flows[f].dst in s.outlets[mine].flows; }
    forall o | 0 <= o < |t.outlets| ensures OutletOk(t, o) {
      assert OutletOk(s, o);
      if o == mine {
        DropLists(s.flows, o, s.outlets[o].flows, f);
      } else {
        OtherLists(s.flows, t.flows, o, s.outlets[o].flows);
      }
    }
  }

  lemma StepKeepsInv(s: State, a: Action)
    requires Inv(s) && Enabled(s, a)
    ensures Inv(Step(s, a))
  {
    match a
    case Reach(slot, dst) => ReachKeepsInv(s, slot, dst);
    case Leave(f) => LeaveKeepsInv(s, f);
    case SockClose(o) =>
      forall p | 0 <= p < |s.outlets| ensures OutletOk(Step(s, a), p) { assert OutletOk(s, p); }
  }

  // -------------------------------------------------------------- theorems

  ghost predicate Run(trace: seq<State>, acts: seq<Action>) {
    && |trace| == |acts| + 1 && trace[0] == Init()
    && forall i :: 0 <= i < |acts| ==> Shaped(trace[i]) && Enabled(trace[i], acts[i]) && trace[i + 1] == Step(trace[i], acts[i])
  }

  lemma {:induction false} RunKeepsInv(trace: seq<State>, acts: seq<Action>, i: nat)
    requires Run(trace, acts) && i < |trace|
    ensures Inv(trace[i])
  {
    if i > 0 {
      RunKeepsInv(trace, acts, i - 1);
      StepKeepsInv(trace[i - 1], acts[i - 1]);
    }
  }

  /** All open flows of one slot leave by one socket, the one registered for the slot, and
    that socket has not been closed. */
  lemma OneSocketPerSlot(trace: seq<State>, acts: seq<Action>, n: nat, f: Id, g: Id)
    requires Run(trace, acts) && n < |trace| && f < |trace[n].flows| && g < |trace[n].flows|
    requires trace[n].flows[f].open && trace[n].flows[g].open
    ensures trace[n].flows[f].outlet < |trace[n].outlets| && trace[n].flows[g].outlet < |trace[n].outlets|
    ensures trace[n].outlets[trace[n].flows[f].outlet].slot == trace[n].outlets[trace[n].flows[g].outlet].slot ==>
      trace[n].flows[f].outlet == trace[n].flows[g].outlet
    ensures trace[n].outlets[trace[n].flows[f].outlet].closes == 0
  {
    var s := trace[n];
    RunKeepsInv(trace, acts, n);
    assert OutletOk(s, s.flows[f].outlet) && OutletOk(s, s.flows[g].outlet);
    assert s.flows[f].dst in s.outlets[s.flows[f].outlet].flows;
    assert s.flows[g].dst in s.outlets[s.flows[g].outlet].flows;
  }

  /** A socket is closed at most once, and exactly when its last flow is gone for good: a
    closed or closing outlet has no open flow and is off the table. */
  lemma ClosedOnceAfterLast(trace: seq<State>, acts: seq<Action>, n: nat, o: Id)
    requires Run(trace, acts) && n < |trace| && o < |trace[n].outlets|
    ensures trace[n].outlets[o].closes <= 1
    ensures trace[n].outlets[o].closes == 1 || o in trace[n].closing <==>
      forall f: Id :: f < |trace[n].flows| && trace[n].flows[f].outlet == o ==> !trace[n].flows[f].open
    ensures trace[n].outlets[o].closes == 1 || o in trace[n].closing ==>
      forall slot :: slot in trace[n].table ==> trace[n].table[slot] != o
  {
    var s := trace[n];
    RunKeepsInv(trace, acts, n);
    assert OutletOk(s, o);
    if s.outlets[o].flows != map[] {
      var dst :| dst in s.outlets[o].flows;
      var f := s.outlets[o].flows[dst][0];
      assert f in s.outlets[o].flows[dst];
      assert OpenOn(s.flows, f, o, dst);
    }
  }

  /** The dispatch in `read`: the last flow listed for the sender, if any. */
  function Hears(o: Outlet, sender: Dst): Option<Id> {
    if sender in o.flows && |o.flows[sender]| > 0 then Some(o.flows[sender][|o.flows[sender]| - 1]) else None
  }

  /** A datagram is dropped exactly when no flow towards its sender is open on the outlet. */
  lemma HeardIffOpen(trace: seq<State>, acts: seq<Action>, n: nat, o: Id, sender: Dst)
    requires Run(trace, acts) && n < |trace| && o < |trace[n].outlets|
    ensures Hears(trace[n].outlets[o], sender).Some? <==> exists f: Id :: OpenOn(trace[n].flows, f, o, sender)
    ensures Hears(trace[n].outlets[o], sender).Some? ==>
      OpenOn(trace[n].flows, Hears(trace[n].outlets[o], sender).value, o, sender)
  {
    RunKeepsInv(trace, acts, n);
    var s := trace[n];
    assert OutletOk(s, o);
    var held := s.outlets[o].flows;
    if sender in held { assert held[sender][|held[sender]| - 1] in held[sender]; }
    if f: Id :| OpenOn(s.flows, f, o, sender) { assert sender in held; }
  }

  /** A datagram is handed to the newest open flow towards its sender. */
  lemma NewestFlowHears(trace: seq<State>, acts: seq<Action>, n: nat, o: Id, dst: Dst, f: Id)
    requires Run(trace, acts) && n < |trace| && o < |trace[n].outlets| && OpenOn(trace[n].flows, f, o, dst)
    ensures Hears(trace[n].outlets[o], dst).Some? && f <= Hears(trace[n].outlets[o], dst).value
    ensures OpenOn(trace[n].flows, Hears(trace[n].outlets[o], dst).value, o, dst)
  {
    var s := trace[n];
    RunKeepsInv(trace, acts, n);
    assert OutletOk(s, o);
    HeardIffOpen(trace, acts, n, o, dst);
    var held := s.outlets[o].flows[dst];
    assert f in held && held[|held| - 1] in held;
  }

  // ------------------------------------------------- what a step is good for

  ghost predicate OpenIn(s: State, g: Id, slot: Slot) {
    g < |s.flows| && s.flows[g].open && s.flows[g].outlet < |s.outlets| && s.outlets[s.flows[g].outlet].slot == slot
  }

  /** A registered slot has an open flow, and its open flows are on the registered outlet. */
  lemma Registered(s: State, slot: Slot)
    requires Inv(s)
    ensures slot in s.table <==> exists g: Id :: OpenIn(s, g, slot)
    ensures forall g: Id :: OpenIn(s, g, slot) ==> slot in s.table && s.flows[g].outlet == s.table[slot]
  {
    forall g: Id | OpenIn(s, g, slot) ensures slot in s.table && s.flows[g].outlet == s.table[slot] {
      assert OutletOk(s, s.flows[g].outlet);
      assert s.flows[g].dst in s.outlets[s.flows[g].outlet].flows;
    }
    if slot in s.table {
      var o := s.table[slot];
      assert OutletOk(s, o);
      var dst :| dst in s.outlets[o].flows;
      var g := s.outlets[o].flows[dst][0];
      assert g in s.outlets[o].flows[dst];
      assert OpenIn(s, g, slot);
    }
  }

  /** Reaching out opens one new flow and touches no other: on the socket the slot's open
    flows have, on a new one if there is none, and datagrams from there come to it. */
  lemma ReachOpens(trace: seq<State>, acts: seq<Action>, n: nat, slot: Slot, dst: Dst)
    requires Run(trace, acts) && n < |acts| && acts[n] == Reach(slot, dst)
    ensures var s, t := trace[n], trace[n + 1]; var f := |s.flows|;
      && |t.flows| == f + 1 && t.flows[..f] == s.flows && t.flows[f].open && t.flows[f].dst == dst
      && t.flows[f].outlet < |t.outlets| && t.outlets[t.flows[f].outlet].slot == slot
      && (forall g: Id :: OpenIn(s, g, slot) ==> t.flows[f].outlet == s.flows[g].outlet)
      && ((forall g: Id :: !OpenIn(s, g, slot)) ==> t.flows[f].outlet == |s.outlets|)
      && Hears(t.outlets[t.flows[f].outlet], dst) == Some(f)
  {
    RunKeepsInv(trace, acts, n);
    Registered(trace[n], slot);
    assert trace[n + 1] == AfterReach(trace[n], slot, dst);
  }

  /** Leaving ends one flow and no other; its socket is to be closed when that was the last
    open flow on it, and no other socket is touched. */
  lemma LeaveEnds(trace: seq<State>, acts: seq<Action>, n: nat, f: Id)
    requires Run(trace, acts) && n < |acts| && acts[n] == Leave(f)
    ensures var s, t := trace[n], trace[n + 1];
      && f < |s.flows| && s.flows[f].outlet < |s.outlets| == |t.outlets| && t.flows == s.flows[f := s.flows[f].(open := false)]
      && (forall o: Id :: o in t.closing <==>
            o in s.closing || (o == s.flows[f].outlet && forall g: Id :: g < |t.flows| && t.flows[g].outlet == o ==> !t.flows[g].open))
      && (forall o :: 0 <= o < |s.outlets| ==> t.outlets[o].closes == s.outlets[o].closes)
      && (forall o :: 0 <= o < |s.outlets| && o != s.flows[f].outlet ==> t.outlets[o] == s.outlets[o])
  {
    var s, t := trace[n], trace[n + 1];
    RunKeepsInv(trace, acts, n);
    RunKeepsInv(trace, acts, n + 1);
    assert t == AfterLeave(s, f);
    var o := s.flows[f].outlet;
    assert OutletOk(s, o);
    assert s.flows[f].dst in s.outlets[o].flows;
    assert o !in s.closing;
    ClosedOnceAfterLast(trace, acts, n + 1, o);
  }
}
