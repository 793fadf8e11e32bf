/** NAT slots of the node rows: `slotFor`, `SaveNode`, `InsertNodeAt` and `settleSlots` of
  internal/store/config.go.  The nodes table is a map from row id to slot; a negative
  slot is an unassigned one.  A statement that fails leaves the table as it was. */
module Slots {
  import opened Options
  import opened Net
  import Nat46

  type Nodes = map<nat, int>

  predicate Assigned(slot: int) { 0 <= slot < Nat46.SLOTS }

  /** Some row other than `id` has the slot; a node with id 0 is not stored yet. */
  ghost predicate Used(nodes: Nodes, id: nat, slot: int) {
    exists o :: o in nodes && (id == 0 || o != id) && nodes[o] == slot
  }

  predicate Owns(nodes: Nodes, id: nat) { id != 0 && id in nodes && Assigned(nodes[id]) }

  /** The slot a save settles on: the row's own, else the wanted one, else the lowest free. */
  ghost predicate SlotSpec(nodes: Nodes, id: nat, wanted: int, got: Option<int>) {
    if Owns(nodes, id) then got == Some(nodes[id])
    else if Assigned(wanted) && !Used(nodes, id, wanted) then got == Some(wanted)
    else match got
      case Some(slot) => Assigned(slot) && !Used(nodes, id, slot) && forall s :: 0 <= s < slot ==> Used(nodes, id, s)
      case None => forall s :: Assigned(s) ==> Used(nodes, id, s)
  }

  /** Assigned slots lie in 0..31 and no two rows share one. */
  ghost predicate Inv(nodes: Nodes) {
    && (forall a :: a in nodes ==> nodes[a] < Nat46.SLOTS)
    && (forall a, b :: a in nodes && b in nodes && a != b && nodes[a] >= 0 ==> nodes[a] != nodes[b])
  }

  ghost predicate Taken(nodes: Nodes, slot: int) { exists o :: o in nodes && nodes[o] == slot }

  ghost predicate Settled(nodes: Nodes, after: Nodes) {
    && after.Keys == nodes.Keys
    && (forall a :: a in nodes && nodes[a] >= 0 ==> after[a] == nodes[a])
    && (forall a :: a in nodes && after[a] < 0 ==> forall s :: Assigned(s) ==> exists b :: b in after && after[b] == s)
    && (forall a, s :: a in nodes && nodes[a] < 0 && 0 <= s < after[a] ==> Taken(after, s))
  }

  ghost predicate Inserted(s: Nodes, id: nat, wanted: int, got: Option<int>, ok: bool, t: Nodes) {
    && SlotSpec(s, id, wanted, got)
    && ok == (got.Some? && id !in s)
    && t == if ok then s[id := got.value] else s
  }

  ghost predicate Saved(s: Nodes, id: nat, wanted: int, newId: nat, got: Option<int>, ok: bool, t: Nodes) {
    && SlotSpec(s, id, wanted, got)
    && ok == got.Some?
    && t == if ok then s[if id == 0 then newId else id := got.value] else s
  }

  class Store {
    var nodes: Nodes

    method SlotFor(id: nat, wanted: int) returns (got: Option<int>)
      ensures SlotSpec(nodes, id, wanted, got)
    {
      var used: set<int> := {};
      var todo := nodes.Keys;
      while todo != {}
        invariant todo <= nodes.Keys
        invariant Owns(nodes, id) ==> id in todo
        invariant forall s :: s in used ==> s >= 0 && Used(nodes, id, s)
        invariant forall o :: o in nodes && o !in todo && (id == 0 || o != id) && nodes[o] >= 0 ==> nodes[o] in used
      {
        var o :| o in todo;
        todo := todo - {o};
        if id != 0 && o == id {
          if Assigned(nodes[o]) { return Some(nodes[o]); }
          continue;
        }
        if nodes[o] >= 0 { used := used + {nodes[o]}; }
      }
      if Assigned(wanted) && wanted !in used { return Some(wanted); }
      for slot := 0 to Nat46.SLOTS
        invariant forall s :: 0 <= s < slot ==> s in used
      {
        if slot !in used { return Some(slot); }
      }
      return None;
    }

    method InsertNodeAt(id: nat, wanted: int) returns (ok: bool)
      modifies this
      ensures exists got :: Inserted(old(nodes), id, wanted, got, ok, nodes)
    {
      var got := SlotFor(id, wanted);
      ok := got.Some? && id !in nodes;
      ghost var s := nodes;
      if ok { nodes := nodes[id := got.value]; }
      assert Inserted(s, id, wanted, got, ok, nodes);
    }

    /** `newId` is the row id an INSERT without one is given. */
    method SaveNode(id: nat, wanted: int, newId: nat) returns (ok: bool)
      requires newId !in nodes
      modifies this
      ensures exists got :: Saved(old(nodes), id, wanted, newId, got, ok, nodes)
    {
      var got := SlotFor(id, wanted);
      ghost var s := nodes;
      ok := got.Some?;
      if ok {
        if id == 0 {
          nodes := nodes[newId := got.value];
        } else if id in nodes {
          nodes := nodes[id := got.value];
        } else {
          var placed := InsertNodeAt(id, got.value);
          assert placed;
        }
      }
      assert Saved(s, id, wanted, newId, got, ok, nodes);
    }

    method DeleteNode(id: nat) returns (ok: bool)
      modifies this
      ensures ok == (id in old(nodes)) && nodes == old(nodes) - {id}
    {
      ok := id in nodes;
      nodes := nodes - {id};
    }

    method SettleSlots()
      requires Inv(nodes)
      modifies this
      ensures Inv(nodes) && Settled(old(nodes), nodes)
    {
      var rows := nodes;
      var used := set id | id in rows && rows[id] >= 0 :: rows[id];
      var todo := rows.Keys;
      UsedAtFirst(rows, used);
      while todo != {}
        invariant Midway(rows, todo, nodes, used)
      {
        var id :| id in todo;
        var slot := Nat46.SLOTS;
        if rows[id] < 0 { slot := LowestFree(used); }
        if slot == Nat46.SLOTS {
          MidwaySkip(rows, todo, nodes, used, id);
        } else {
          MidwayTake(rows, todo, nodes, used, id, slot);
          used := used + {slot};
          nodes := nodes[id := slot];
        }
        todo := todo - {id};
      }
      SettledAtLast(rows, nodes, used);
    }

    method LowestFree(used: set<int>) returns (slot: nat)
      ensures slot <= Nat46.SLOTS && (slot < Nat46.SLOTS ==> slot !in used)
      ensures forall s :: 0 <= s < slot ==> s in used
    {
      slot := 0;
      while slot < Nat46.SLOTS && slot in used
        invariant 0 <= slot <= Nat46.SLOTS
        invariant forall s :: 0 <= s < slot ==> s in used
      {
        slot := slot + 1;
      }
    }
  }

  ghost predicate UsedBy(nodes: Nodes, used: set<int>) {
    && (forall a :: a in nodes && nodes[a] >= 0 ==> nodes[a] in used)
    && (forall s :: s in used ==> s >= 0 && exists a :: a in nodes && nodes[a] == s)
  }

  ghost predicate Exhausted(used: set<int>) { forall s :: Assigned(s) ==> s in used }

  /** `settleSlots` with the rows in `todo` still to look at. */
  ghost predicate Midway(rows: Nodes, todo: set<nat>, nodes: Nodes, used: set<int>) {
    && todo <= rows.Keys && nodes.Keys == rows.Keys
    && Inv(nodes) && UsedBy(nodes, used)
    && (forall a :: a in rows && (rows[a] >= 0 || a in todo) ==> nodes[a] == rows[a])
    && (forall a :: a in rows && a !in todo && nodes[a] < 0 ==> Exhausted(used))
    && (forall a, s :: a in rows && rows[a] < 0 && 0 <= s < nodes[a] ==> s in used)
  }

  lemma UsedAtFirst(rows: Nodes, used: set<int>)
    requires used == set id | id in rows && rows[id] >= 0 :: rows[id]
    ensures UsedBy(rows, used)
  {
  }

  lemma MidwaySkip(rows: Nodes, todo: set<nat>, nodes: Nodes, used: set<int>, id: nat)
    requires Midway(rows, todo, nodes, used) && id in todo
    requires rows[id] < 0 ==> Exhausted(used)
    ensures Midway(rows, todo - {id}, nodes, used)
  {
  }

  lemma MidwayTake(rows: Nodes, todo: set<nat>, nodes: Nodes, used: set<int>, id: nat, slot: nat)
    requires Midway(rows, todo, nodes, used) && id in todo
    requires slot < Nat46.SLOTS && rows[id] < 0 && slot !in used && forall s :: 0 <= s < slot ==> s in used
    ensures Midway(rows, todo - {id}, nodes[id := slot], used + {slot})
  {
    TakeSlot(nodes, used, id, slot);
  }

  lemma SettledAtLast(rows: Nodes, nodes: Nodes, used: set<int>)
    requires Midway(rows, {}, nodes, used)
    ensures Settled(rows, nodes)
  {
    forall a, s | a in rows && rows[a] < 0 && 0 <= s < nodes[a] ensures Taken(nodes, s) {
      assert s in used;
    }
  }

  lemma TakeSlot(nodes: Nodes, used: set<int>, id: nat, slot: int)
    requires Inv(nodes) && UsedBy(nodes, used) && id in nodes && nodes[id] < 0
    requires Assigned(slot) && slot !in used
    ensures Inv(nodes[id := slot]) && UsedBy(nodes[id := slot], used + {slot})
  {
    var after := nodes[id := slot];
    forall s | s in used + {slot} ensures exists a :: a in after && after[a] == s {
      if s == slot {
        assert after[id] == s;
      } else {
        var a :| a in nodes && nodes[a] == s;
        assert after[a] == s;
      }
    }
  }

  // ------------------------------------------------------------------ runs

  datatype Action =
    | Save(id: nat, wanted: int, newId: nat)
    | InsertAt(id: nat, wanted: int)
    | Delete(id: nat)
    | Settle

  ghost predicate Next(s: Nodes, act: Action, t: Nodes) {
    match act
    case Save(id, wanted, newId) =>
      newId !in s && exists got, ok :: Saved(s, id, wanted, newId, got, ok, t)
    case InsertAt(id, wanted) =>
      exists got, ok :: Inserted(s, id, wanted, got, ok, t)
    case Delete(id) => t == s - {id}
    case Settle => Inv(t) && Settled(s, t)
  }

  lemma PutKeepsInv(s: Nodes, id: nat, wanted: int, got: Option<int>, at: nat)
    requires Inv(s) && SlotSpec(s, id, wanted, got) && got.Some?
    requires at == id || id == 0
    requires id == 0 ==> at !in s
    ensures Inv(s[at := got.value])
    ensures at in s && s[at] >= 0 ==> got.value == s[at]
  {
    forall o | o in s && o != at ensures s[o] != got.value {
      assert Owns(s, id) || !Used(s, id, got.value);
    }
  }

  lemma NextKeepsInv(s: Nodes, act: Action, t: Nodes)
    requires Inv(s) && Next(s, act, t)
    ensures Inv(t)
    ensures forall id :: id in s && id in t && s[id] >= 0 ==> t[id] == s[id]
  {
    match act
    case Save(id, wanted, newId) =>
      var got, ok :| Saved(s, id, wanted, newId, got, ok, t);
      if got.Some? { PutKeepsInv(s, id, wanted, got, if id == 0 then newId else id); }
    case InsertAt(id, wanted) =>
      var got, ok :| Inserted(s, id, wanted, got, ok, t);
      if ok { PutKeepsInv(s, id, wanted, got, id); }
    case _ =>
  }

  ghost predicate Run(trace: seq<Nodes>, acts: seq<Action>) {
    && |trace| == |acts| + 1
    && Inv(trace[0])
    && forall i :: 0 <= i < |acts| ==> Next(trace[i], acts[i], trace[i + 1])
  }

  /** On every run of saves, inserts, deletes and settlings the slots stay apart. */
  lemma {:induction false} RunKeepsInv(trace: seq<Nodes>, acts: seq<Action>, i: nat)
    requires Run(trace, acts) && i < |trace|
    ensures Inv(trace[i])
  {
    if i > 0 {
      RunKeepsInv(trace, acts, i - 1);
      NextKeepsInv(trace[i - 1], acts[i - 1], trace[i]);
    }
  }

  lemma SlotSticks(trace: seq<Nodes>, acts: seq<Action>, k: nat, id: nat)
    requires Run(trace, acts) && k < |acts| && id in trace[k] && id in trace[k + 1]
    ensures trace[k][id] >= 0 ==> trace[k + 1][id] == trace[k][id]
  {
    RunKeepsInv(trace, acts, k);
    NextKeepsInv(trace[k], acts[k], trace[k + 1]);
  }

  ghost predicate Present(trace: seq<Nodes>, id: nat, i: nat, j: nat) {
    i <= j < |trace| && forall k :: i <= k <= j ==> id in trace[k]
  }

  lemma {:induction false} SameAllAlong(trace: seq<Nodes>, id: nat, i: nat, j: nat)
    requires Present(trace, id, i, j) && trace[i][id] >= 0
    requires forall k: nat :: i <= k < j && trace[k][id] >= 0 ==> trace[k + 1][id] == trace[k][id]
    ensures trace[j][id] == trace[i][id]
    decreases j - i
  {
    if i < j { SameAllAlong(trace, id, i, j - 1); }
  }

  /** A stored node keeps its slot, whatever slot later saves ask for, until it is deleted. */
  lemma SlotsStick(trace: seq<Nodes>, acts: seq<Action>, i: nat, j: nat, id: nat)
    requires Run(trace, acts) && Present(trace, id, i, j) && trace[i][id] >= 0
    ensures trace[j][id] == trace[i][id]
  {
    forall k: nat | i <= k < j && trace[k][id] >= 0 ensures trace[k + 1][id] == trace[k][id] {
      SlotSticks(trace, acts, k, id);
    }
    SameAllAlong(trace, id, i, j);
  }

  /** No two stored nodes with assigned slots can ever mint the same stand-in. */
  lemma FleetNeverCollides(trace: seq<Nodes>, acts: seq<Action>, i: nat, a: nat, b: nat,
                           s: Nat46.Table, t: Nat46.Table, v4: nat)
    requires Run(trace, acts) && i < |trace|
    requires a in trace[i] && b in trace[i] && a != b && Assigned(trace[i][a]) && Assigned(trace[i][b])
    requires Nat46.Inv(Nat46.NatSlot(trace[i][a]).val, s) && Nat46.Inv(Nat46.NatSlot(trace[i][b]).val, t)
    ensures !(v4 in s.byV4 && v4 in t.byV4)
  {
    RunKeepsInv(trace, acts, i);
    Nat46.NodesNeverCollide(trace[i][a], trace[i][b], s, t, v4);
  }

  /** A save is refused exactly when the row has no slot and the others use all of them. */
  lemma RefusedWhenFull(nodes: Nodes, id: nat, wanted: int, got: Option<int>)
    requires SlotSpec(nodes, id, wanted, got)
    ensures got == None <==> !Owns(nodes, id) && forall s :: Assigned(s) ==> Used(nodes, id, s)
  {
  }

  // ---------------------------------------------------- what a save is given

  ghost predicate Free(s: Nodes, slot: int) { forall o :: o in s ==> s[o] != slot }

  /** A save of a row that has a slot changes nothing.  One that has none gets the slot it
    asks for if that is one of 0..31 and free, else the lowest free one; with none free it
    is refused and nothing changes. */
  lemma SaveGives(s: Nodes, id: nat, wanted: int, newId: nat, t: Nodes)
    requires Inv(s) && Next(s, Save(id, wanted, newId), t)
    ensures var row := if id == 0 then newId else id;
      if row in s && s[row] >= 0 then t == s
      else if 0 <= wanted < 32 && Free(s, wanted) then t == s[row := wanted]
      else if k: nat :| k < 32 && Free(s, k) && forall j :: 0 <= j < k ==> !Free(s, j) then t == s[row := k]
      else t == s
  {
    var got, ok :| Saved(s, id, wanted, newId, got, ok, t);
    var row := if id == 0 then newId else id;
    if !(row in s && s[row] >= 0) { GivesFree(s, id, wanted, got); }
    if row in s && s[row] >= 0 { assert s[row := s[row]] == s; }
  }

  /** With no slot of its own a row is given a free one. */
  lemma GivesFree(s: Nodes, id: nat, wanted: int, got: Option<int>)
    requires Inv(s) && SlotSpec(s, id, wanted, got) && !(id != 0 && id in s && s[id] >= 0)
    ensures forall k :: k >= 0 ==> (Used(s, id, k) <==> !Free(s, k))
    ensures 0 <= wanted < 32 && Free(s, wanted) ==> got == Some(wanted)
    ensures !(0 <= wanted < 32 && Free(s, wanted)) ==>
      match got
      case Some(k) => 0 <= k < 32 && Free(s, k) && forall j :: 0 <= j < k ==> !Free(s, j)
      case None => forall k :: 0 <= k < 32 ==> !Free(s, k)
  {
    forall k | k >= 0 ensures Used(s, id, k) <==> !Free(s, k) {
      if !Free(s, k) {
        var o :| o in s && s[o] == k;
        assert Used(s, id, k);
      }
    }
  }
}
