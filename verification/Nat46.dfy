/** The stand-in table of internal/qsrv/nat46.go: IPv4 addresses that stand for IPv6-only
  sites, drawn from one /20 slot of 198.18.0.0/15.  The two critical sections of `stand`
  are separate steps.  An IPv4 address is its 32-bit value, a clock reading is in seconds. */
module Nat46 {
  import opened Options
  import opened Net

  const ROOM := 4094           // usable addresses of a slot: all but its two edges
  const SPAN := 4096
  const IDLE := 3600
  const REUSE := 300
  const SLOTS := 32
  const SYNTHETIC := 0xC612_0000
  const U32 := 0x1_0000_0000

  // ----------------------------------------------------------------- slots

  function NatSlot(slot: int): (r: Prefix) {
    Prefix(V4, SYNTHETIC + (if slot < 0 || slot >= SLOTS then 0 else slot) * SPAN, 20)
  }

  predicate Synthetic(v4: nat) { v4 / 0x2_0000 == SYNTHETIC / 0x2_0000 }

  function SlotOf(p: Prefix): (r: int) {
    if p.bits != 20 || p.fam != V4 || !Synthetic(p.val) then -1 else (p.val - SYNTHETIC) / SPAN
  }

  lemma SlotRoundTrip(slot: int)
    requires 0 <= slot < SLOTS
    ensures SlotOf(NatSlot(slot)) == slot
  {
  }

  predicate InSlot(base: nat, v4: nat) { base <= v4 < base + SPAN }

  /** The slots cut the stand-in block into disjoint pieces. */
  lemma SlotsPartition(v4: nat)
    ensures Synthetic(v4) <==> exists slot :: 0 <= slot < SLOTS && InSlot(NatSlot(slot).val, v4)
    ensures forall a, b | 0 <= a < SLOTS && 0 <= b < SLOTS && InSlot(NatSlot(a).val, v4) && InSlot(NatSlot(b).val, v4) :: a == b
  {
    if Synthetic(v4) {
      var slot := (v4 - SYNTHETIC) / SPAN;
      assert 0 <= slot < SLOTS && InSlot(NatSlot(slot).val, v4);
    }
  }

  // ----------------------------------------------------------------- table

  datatype Pair = Pair(v6: Addr, usedAt: int)

  datatype Table = Table(byV4: map<nat, Pair>, byV6: map<Addr, nat>, next: nat)

  /** A true IPv6 address: not IPv4, not IPv4 mapped into IPv6. */
  predicate Standable(v6: Addr) { v6.fam == V6 && v6.val / U32 != 0xFFFF }

  predicate Usable(base: nat, v4: nat) { base < v4 <= base + ROOM }

  /** The two maps are mutual inverses inside the usable range of the slot. */
  ghost predicate Inv(base: nat, s: Table) {
    && s.next < U32
    && (forall v4 :: v4 in s.byV4 ==>
          Usable(base, v4) && s.byV4[v4].usedAt > 0 && s.byV4[v4].v6 in s.byV6 && s.byV6[s.byV4[v4].v6] == v4)
    && (forall v6 :: v6 in s.byV6 ==> Standable(v6) && s.byV6[v6] in s.byV4 && s.byV4[s.byV6[v6]].v6 == v6)
  }

  ghost predicate Oldest(s: Table, v4: nat) {
    v4 in s.byV4 && forall o :: o in s.byV4 ==> s.byV4[v4].usedAt <= s.byV4[o].usedAt
  }

  function Without(s: Table, v4: nat): Table
    requires v4 in s.byV4
  {
    s.(byV4 := s.byV4 - {v4}, byV6 := s.byV6 - {s.byV4[v4].v6})
  }

  function Touched(s: Table, v4: nat, now: int): Table
    requires v4 in s.byV4
  {
    s.(byV4 := s.byV4[v4 := s.byV4[v4].(usedAt := now)])
  }

  /** Every usable address stands for something that was used after `cut`. */
  ghost predicate AllBusy(base: nat, s: Table, cut: int) {
    forall v4 :: Usable(base, v4) ==> v4 in s.byV4 && s.byV4[v4].usedAt > cut
  }

  /** A free usable address now stands for `v6`, marked used at `now`. */
  ghost predicate Bound(base: nat, s: Table, v6: Addr, now: int, v4: nat, t: Table) {
    && Usable(base, v4) && v4 !in s.byV4
    && t.byV4 == s.byV4[v4 := Pair(v6, now)] && t.byV6 == s.byV6[v6 := v4] && t.next < U32
  }

  ghost predicate Full(base: nat, s: Table) { forall v4 :: Usable(base, v4) ==> v4 in s.byV4 }

  /** The locked half of `stand`, without its cursor. */
  ghost predicate StandSpec(base: nat, s: Table, v6: Addr, now: int, got: Option<nat>, t: Table) {
    if v6 in s.byV6 then t == s && got == Some(s.byV6[v6])
    else if AllBusy(base, s, now - REUSE) then t == s && got == None
    else if Full(base, s) then
      got.Some? && exists gone: nat ::
        Oldest(s, gone) && s.byV4[gone].usedAt <= now - REUSE && Bound(base, Without(s, gone), v6, now, got.value, t)
    else got.Some? && Bound(base, s, v6, now, got.value, t)
  }

  function SweptV4(s: Table, cut: int): map<nat, Pair> {
    map v4 | v4 in s.byV4 && s.byV4[v4].usedAt > cut :: s.byV4[v4]
  }

  ghost predicate SweepSpec(s: Table, now: int, t: Table)
    requires forall v6 :: v6 in s.byV6 ==> s.byV6[v6] in s.byV4
  {
    && t.byV4 == SweptV4(s, now - IDLE)
    && t.byV6 == (map v6 | v6 in s.byV6 && s.byV4[s.byV6[v6]].usedAt > now - IDLE :: s.byV6[v6])
    && t.next == s.next
  }

  // ------------------------------------------------------------ pigeonhole

  function UsableSet(base: nat, k: nat): (r: set<nat>)
    ensures |r| == k
    ensures forall v :: v in r <==> base < v <= base + k
  {
    if k == 0 then {} else UsableSet(base, k - 1) + {base + k}
  }

  lemma FullIffRoom(base: nat, s: Table)
    requires forall v4 :: v4 in s.byV4 ==> Usable(base, v4)
    ensures |s.byV4| <= ROOM
    ensures |s.byV4| >= ROOM <==> Full(base, s)
  {
    var all := UsableSet(base, ROOM);
    Within(s.byV4.Keys, all);
    if Full(base, s) {
      assert s.byV4.Keys == all;
    }
  }

  lemma Within(s: set<nat>, all: set<nat>)
    requires s <= all
    ensures |s| <= |all|
    ensures |s| >= |all| ==> s == all
  {
    if s != {} {
      var x :| x in s;
      Within(s - {x}, all - {x});
    }
  }

  /** The `j`th address the cursor tries. */
  function Cursor(base: nat, start: nat, j: nat): nat { base + 1 + (start + j) % ROOM }

  lemma CursorStep(start: nat, i: nat)
    requires i > 0
    ensures ((start + i - 1) % ROOM + 1) % U32 % ROOM == (start + i) % ROOM
  {
  }

  lemma CursorMeets(base: nat, start: nat, v: nat) returns (j: nat)
    requires start < ROOM && Usable(base, v)
    ensures j < ROOM && Cursor(base, start, j) == v
  {
    var r := v - base - 1;
    j := if r >= start then r - start else r + ROOM - start;
  }

  lemma BindKeepsInv(base: nat, s: Table, v6: Addr, now: int, v4: nat, t: Table)
    requires Inv(base, s) && Bound(base, s, v6, now, v4, t)
    requires Standable(v6) && v6 !in s.byV6 && now > 0
    ensures Inv(base, t)
  {
  }

  lemma WithoutKeepsInv(base: nat, s: Table, v4: nat)
    requires Inv(base, s) && v4 in s.byV4
    ensures Inv(base, Without(s, v4))
  {
  }

  lemma SweepKeepsInv(base: nat, s: Table, now: int, t: Table)
    requires Inv(base, s) && SweepSpec(s, now, t)
    ensures Inv(base, t)
  {
  }

  /** A sweep that still has the entries in `todo` to look at. */
  ghost predicate Partly(s: Table, todo: set<nat>, cut: int, t: Table) {
    && (forall v4 :: v4 in t.byV4 <==> v4 in s.byV4 && (v4 in todo || s.byV4[v4].usedAt > cut))
    && (forall v4 :: v4 in t.byV4 ==> t.byV4[v4] == s.byV4[v4])
    && (forall v6 :: v6 in t.byV6 <==> v6 in s.byV6 && s.byV6[v6] in t.byV4)
    && (forall v6 :: v6 in t.byV6 ==> t.byV6[v6] == s.byV6[v6])
  }

  lemma SweepOne(base: nat, s: Table, todo: set<nat>, cut: int, t: Table, v4: nat)
    requires Inv(base, s) && v4 in s.byV4 && v4 in todo && Partly(s, todo, cut, t)
    ensures v4 in t.byV4 && t.byV4[v4] == s.byV4[v4]
    ensures Partly(s, todo - {v4}, cut, if s.byV4[v4].usedAt > cut then t else Without(t, v4))
    ensures |(t.byV4 - {v4}).Keys| == |t.byV4.Keys| - 1
  {
    assert (t.byV4 - {v4}).Keys == t.byV4.Keys - {v4};
  }

  lemma SweptWhole(base: nat, s: Table, now: int, t: Table)
    requires Inv(base, s) && Partly(s, {}, now - IDLE, t) && t.next == s.next
    ensures SweepSpec(s, now, t) && Inv(base, t)
  {
    SweepKeepsInv(base, s, now, t);
  }

  class Nat {
    const base: nat
    var byV4: map<nat, Pair>
    var byV6: map<Addr, nat>
    var next: nat

    ghost function View(): Table
      reads this
    {
      Table(byV4, byV6, next)
    }

    ghost predicate Valid()
      reads this
    {
      Inv(base, View())
    }

    constructor (slot: int)
      ensures Valid() && base == NatSlot(slot).val && View() == Table(map[], map[], 0)
    {
      base, byV4, byV6, next := NatSlot(slot).val, map[], map[], 0;
    }

    /** The read-locked half of `stand`. */
    method Known(v6: Addr, now: int) returns (got: Option<nat>)
      requires Valid() && now > 0
      modifies this
      ensures Valid()
      ensures got == if v6 in old(byV6) then Some(old(byV6)[v6]) else None
      ensures View() == if got.Some? then Touched(old(View()), got.value, now) else old(View())
    {
      if v6 !in byV6 { return None; }
      var held := byV6[v6];
      byV4 := byV4[held := byV4[held].(usedAt := now)];
      return Some(held);
    }

    method ForgetOldest(before: int) returns (gone: bool)
      requires Valid()
      modifies this
      ensures Valid()
      ensures !gone ==> View() == old(View()) && forall v4 :: v4 in byV4 ==> byV4[v4].usedAt > before
      ensures gone ==> exists v4 :: Oldest(old(View()), v4) && old(byV4)[v4].usedAt <= before && View() == Without(old(View()), v4)
    {
      var oldest: Option<nat> := None;
      var since := 0;
      var todo := byV4.Keys;
      while todo != {}
        invariant todo <= byV4.Keys
        invariant oldest == None <==> since == 0
        invariant oldest == None ==> todo == byV4.Keys
        invariant oldest.Some? ==> oldest.value in byV4 && since == byV4[oldest.value].usedAt
        invariant forall v4 :: v4 in byV4 && v4 !in todo ==> since <= byV4[v4].usedAt
      {
        var v4 :| v4 in todo;
        todo := todo - {v4};
        var at := byV4[v4].usedAt;
        if since == 0 || at < since { oldest, since := Some(v4), at; }
      }
      if oldest == None || since > before { return false; }
      var v6 := byV4[oldest.value].v6;
      assert Oldest(View(), oldest.value);
      byV6 := byV6 - {v6};
      byV4 := byV4 - {oldest.value};
      return true;
    }

    /** The cursor finds a free address within one turn if the table has room. */
    method FindFree() returns (v4: nat)
      requires Valid() && !Full(base, View())
      modifies this`next
      ensures Usable(base, v4) && v4 !in byV4 && next < U32
    {
      v4 := 0;
      var start := (next + 1) % U32 % ROOM;
      for i := 0 to ROOM
        invariant i > 0 ==> next == (start + i - 1) % ROOM
        invariant i == 0 ==> next == old(next)
        invariant forall j :: 0 <= j < i ==> Cursor(base, start, j) in byV4
      {
        if i > 0 { CursorStep(start, i); }
        next := (next + 1) % U32 % ROOM;
        assert next == (start + i) % ROOM;
        v4 := base + next + 1;
        assert v4 == Cursor(base, start, i);
        if v4 !in byV4 { return; }
      }
      ghost var free :| Usable(base, free) && free !in byV4;
      ghost var j := CursorMeets(base, start, free);
      assert false;
    }

    /** The write-locked half of `stand`. */
    method Stand(v6: Addr, now: int) returns (got: Option<nat>)
      requires Valid() && Standable(v6) && now > 0
      modifies this
      ensures Valid()
      ensures StandSpec(base, old(View()), v6, now, got, View())
    {
      if v6 in byV6 { return Some(byV6[v6]); }
      ghost var s := View();
      FullIffRoom(base, s);
      if |byV4| >= ROOM {
        var gone := ForgetOldest(now - REUSE);
        if !gone { return None; }
      }
      ghost var mid := View();
      var v4 := FindFree();
      byV6 := byV6[v6 := v4];
      byV4 := byV4[v4 := Pair(v6, now)];
      BindKeepsInv(base, mid, v6, now, v4, View());
      return Some(v4);
    }

    method Real(v4: nat, now: int) returns (got: Option<Addr>)
      requires Valid() && now > 0
      modifies this
      ensures Valid()
      ensures got == if Synthetic(v4) && v4 in old(byV4) then Some(old(byV4)[v4].v6) else None
      ensures View() == if got.Some? then Touched(old(View()), v4, now) else old(View())
    {
      if !Synthetic(v4) || v4 !in byV4 { return None; }
      byV4 := byV4[v4 := byV4[v4].(usedAt := now)];
      return Some(byV4[v4].v6);
    }

    method LetGo(v4: nat, v6: Addr)
      requires v4 in byV4 && byV4[v4].v6 == v6
      modifies this`byV4, this`byV6
      ensures View() == Without(old(View()), v4)
    {
      byV6 := byV6 - {v6};
      byV4 := byV4 - {v4};
    }

    method Sweep(now: int) returns (gone: nat)
      requires Valid()
      modifies this
      ensures Valid()
      ensures SweepSpec(old(View()), now, View())
      ensures gone == |old(byV4)| - |byV4|
    {
      gone := 0;
      ghost var s := View();
      var was := byV4;
      var todo := was.Keys;
      while todo != {}
        invariant todo <= was.Keys && was == s.byV4 && next == s.next
        invariant Partly(s, todo, now - IDLE, View())
        invariant gone + |byV4| == |was|
      {
        var v4 :| v4 in todo;
        SweepOne(base, s, todo, now - IDLE, View(), v4);
        todo := todo - {v4};
        if was[v4].usedAt > now - IDLE { continue; }
        LetGo(v4, was[v4].v6);
        gone := gone + 1;
      }
      SweptWhole(base, s, now, View());
    }

    method Save() returns (file: File)
      requires Valid()
      ensures file == Saved(View())
    {
      file := File(next, map v4 | v4 in byV4 :: byV4[v4].v6);
    }

    /** `load`: every pair of the file inside the slot, edges included, in any order. */
    method Load(file: File, now: int)
      requires file.next < U32
      modifies this
      ensures next == file.next
      ensures byV4.Keys == old(byV4.Keys) + set v4 | v4 in file.pairs && InSlot(base, v4)
      ensures forall v4 :: v4 in byV4 ==>
        byV4[v4] == if v4 in file.pairs && InSlot(base, v4) then Pair(file.pairs[v4], now) else old(byV4)[v4]
      ensures forall v6 :: v6 in byV6 <==>
        v6 in old(byV6) || exists v4 :: v4 in file.pairs && InSlot(base, v4) && file.pairs[v4] == v6
      ensures forall v6 :: v6 in byV6 ==>
        || (v6 in old(byV6) && byV6[v6] == old(byV6)[v6])
        || (byV6[v6] in file.pairs && InSlot(base, byV6[v6]) && file.pairs[byV6[v6]] == v6)
    {
      next := file.next;
      ghost var s := View();
      var todo := file.pairs.Keys;
      while todo != {}
        invariant todo <= file.pairs.Keys && next == file.next
        invariant byV4.Keys == s.byV4.Keys + set v4 | v4 in file.pairs.Keys - todo && InSlot(base, v4)
        invariant forall v4 :: v4 in byV4 ==>
          byV4[v4] == if v4 in file.pairs && v4 !in todo && InSlot(base, v4) then Pair(file.pairs[v4], now) else s.byV4[v4]
        invariant forall v6 :: v6 in byV6 ==>
          || (v6 in s.byV6 && byV6[v6] == s.byV6[v6])
          || (byV6[v6] in file.pairs && InSlot(base, byV6[v6]) && file.pairs[byV6[v6]] == v6)
        invariant forall v6 :: v6 in s.byV6 ==> v6 in byV6
        invariant forall v4 :: v4 in file.pairs && v4 !in todo && InSlot(base, v4) ==> file.pairs[v4] in byV6
      {
        var v4 :| v4 in todo;
        todo := todo - {v4};
        if !InSlot(base, v4) { continue; }
        byV4 := byV4[v4 := Pair(file.pairs[v4], now)];
        byV6 := byV6[file.pairs[v4] := v4];
      }
    }

    /** A table saved for a slot comes back whole, every pair freshly marked as used. */
    method Restart(s: Table, now: int)
      requires Inv(base, s) && now > 0 && byV4 == map[] && byV6 == map[]
      modifies this
      ensures Valid() && next == s.next && byV6 == s.byV6 && byV4.Keys == s.byV4.Keys
      ensures forall v4 :: v4 in byV4 ==> byV4[v4] == Pair(s.byV4[v4].v6, now)
    {
      Load(Saved(s), now);
      forall v4 | v4 in s.byV4 ensures InSlot(base, v4) && s.byV4[v4].v6 in byV6 {
        assert Saved(s).pairs[v4] == s.byV4[v4].v6;
      }
      assert byV4.Keys == s.byV4.Keys;
      forall v6 | v6 in s.byV6 ensures v6 in byV6 {
        assert s.byV4[s.byV6[v6]].v6 == v6;
      }
      forall v6 | v6 in byV6 ensures v6 in s.byV6 && byV6[v6] == s.byV6[v6] {}
    }
  }

  datatype File = File(next: nat, pairs: map<nat, Addr>)

  function Saved(s: Table): File { File(s.next, map v4 | v4 in s.byV4 :: s.byV4[v4].v6) }

  // ------------------------------------------------------------------ runs

  /** What one call of the table's methods does; `now` is the reading it took. */
  datatype Action =
    | KnowStep(v6: Addr, now: int)
    | StandStep(v6: Addr, now: int)
    | RealStep(v4: nat, now: int)
    | SweepStep(now: int)

  ghost predicate Next(base: nat, s: Table, act: Action, t: Table)
    requires Inv(base, s)
  {
    act.now > 0 &&
    match act
    case KnowStep(v6, now) => t == if v6 in s.byV6 then Touched(s, s.byV6[v6], now) else s
    case StandStep(v6, now) => Standable(v6) && exists got :: StandSpec(base, s, v6, now, got, t)
    case RealStep(v4, now) => t == if Synthetic(v4) && v4 in s.byV4 then Touched(s, v4, now) else s
    case SweepStep(now) => SweepSpec(s, now, t)
  }

  lemma NextKeepsInv(base: nat, s: Table, act: Action, t: Table)
    requires Inv(base, s) && Next(base, s, act, t)
    ensures Inv(base, t)
  {
    match act
    case StandStep(v6, now) =>
      var got :| StandSpec(base, s, v6, now, got, t);
      if v6 !in s.byV6 && !AllBusy(base, s, now - REUSE) {
        if Full(base, s) {
          var gone: nat :| Oldest(s, gone) && s.byV4[gone].usedAt <= now - REUSE
            && Bound(base, Without(s, gone), v6, now, got.value, t);
          WithoutKeepsInv(base, s, gone);
          BindKeepsInv(base, Without(s, gone), v6, now, got.value, t);
        } else {
          BindKeepsInv(base, s, v6, now, got.value, t);
        }
      }
    case SweepStep(now) => SweepKeepsInv(base, s, now, t);
    case _ =>
  }

  /** The call that takes the write lock at `i` first looked under the read lock at `x`,
    by the same clock reading, and did not find its site. */
  ghost predicate Missed(trace: seq<Table>, acts: seq<Action>, x: nat, i: nat)
    requires |trace| == |acts| + 1 && i < |acts| && acts[i].StandStep?
  {
    x < i && acts[x] == KnowStep(acts[i].v6, acts[i].now) && acts[i].v6 !in trace[x].byV6
  }

  ghost predicate Run(base: nat, trace: seq<Table>, acts: seq<Action>) {
    && |trace| == |acts| + 1
    && Inv(base, trace[0])
    && (forall i :: 0 <= i < |acts| ==> Inv(base, trace[i]) ==> Next(base, trace[i], acts[i], trace[i + 1]))
    && forall i: nat :: i < |acts| && acts[i].StandStep? ==> exists x: nat :: Missed(trace, acts, x, i)
  }

  /** On every run the two maps stay mutual inverses inside the slot's usable range. */
  lemma {:induction false} RunKeepsInv(base: nat, trace: seq<Table>, acts: seq<Action>, i: nat)
    requires Run(base, trace, acts) && i < |trace|
    ensures Inv(base, trace[i])
  {
    if i > 0 {
      RunKeepsInv(base, trace, acts, i - 1);
      NextKeepsInv(base, trace[i - 1], acts[i - 1], trace[i]);
    }
  }

  ghost predicate Stands(s: Table, v4: nat, v6: Addr) { v4 in s.byV4 && s.byV4[v4].v6 == v6 }

  lemma RunStep(base: nat, trace: seq<Table>, acts: seq<Action>, i: nat)
    requires Run(base, trace, acts) && i < |acts|
    ensures Inv(base, trace[i]) && Next(base, trace[i], acts[i], trace[i + 1])
  {
    RunKeepsInv(base, trace, acts, i);
  }

  lemma NextLetsGoOnlyIdle(base: nat, s: Table, act: Action, t: Table, v4: nat, v6: Addr)
    requires Inv(base, s) && Next(base, s, act, t) && Stands(s, v4, v6) && !Stands(t, v4, v6)
    ensures s.byV4[v4].usedAt + REUSE <= act.now
  {
    if act.StandStep? {
      var got :| StandSpec(base, s, act.v6, act.now, got, t);
    }
  }

  lemma LastStanding(trace: seq<Table>, i: nat, j: nat, v4: nat, v6: Addr) returns (k: nat)
    requires i < j < |trace| && Stands(trace[i], v4, v6) && !Stands(trace[j], v4, v6)
    ensures i <= k < j && Stands(trace[k], v4, v6) && !Stands(trace[k + 1], v4, v6)
  {
    k := i;
    while Stands(trace[k + 1], v4, v6)
      invariant i <= k < j && Stands(trace[k], v4, v6)
      decreases j - k
    {
      k := k + 1;
    }
  }

  /** The call answered with the stand-in `v4`, or with what it stands for. */
  ghost predicate Answers(s: Table, act: Action, t: Table, v4: nat) {
    match act
    case KnowStep(v6, _) => v6 in s.byV6 && s.byV6[v6] == v4
    case StandStep(v6, _) => v6 in t.byV6 && t.byV6[v6] == v4
    case RealStep(a, _) => a == v4 && Synthetic(a) && a in s.byV4
    case SweepStep(_) => false
  }

  /** No reading is older than one already acted on by more than `lag`. */
  ghost predicate Lagging(acts: seq<Action>, lag: nat) {
    forall m, k :: 0 <= m < k < |acts| ==> acts[m].now <= acts[k].now + lag
  }

  /** The stamp of a held pair vouches for step `x`, if that answered with it or was before
    its site was known. */
  ghost predicate Vouches(trace: seq<Table>, acts: seq<Action>, lag: nat, x: nat, k: nat, v4: nat)
    requires |trace| == |acts| + 1 && x < |acts| && k < |trace|
  {
    v4 in trace[k].byV4 && (Answers(trace[x], acts[x], trace[x + 1], v4) || trace[k].byV4[v4].v6 !in trace[x].byV6) ==>
      acts[x].now <= trace[k].byV4[v4].usedAt + lag
  }

  /** What a step does to one entry that it leaves in the table. */
  lemma NextStamps(base: nat, s: Table, act: Action, t: Table, v4: nat)
    requires Inv(base, s) && Next(base, s, act, t) && v4 in t.byV4
    ensures t.byV4[v4].usedAt == act.now || (v4 in s.byV4 && t.byV4[v4] == s.byV4[v4])
    ensures Answers(s, act, t, v4) ==> t.byV4[v4].usedAt == act.now || (act.StandStep? && t == s && Stands(s, v4, act.v6))
  {
    if act.StandStep? {
      var got :| StandSpec(base, s, act.v6, act.now, got, t);
    }
  }

  lemma {:induction false} StampsVouch(base: nat, trace: seq<Table>, acts: seq<Action>, lag: nat, x: nat, k: nat, v4: nat)
    requires Run(base, trace, acts) && Lagging(acts, lag) && x < k < |trace|
    ensures Vouches(trace, acts, lag, x, k, v4)
    decreases k
  {
    RunStep(base, trace, acts, k - 1);
    var s, act, t := trace[k - 1], acts[k - 1], trace[k];
    if v4 in t.byV4 {
      NextStamps(base, s, act, t, v4);
      if t.byV4[v4].usedAt != act.now {
        if x < k - 1 {
          StampsVouch(base, trace, acts, lag, x, k - 1, v4);
        } else if Answers(s, act, t, v4) {
          var z: nat :| Missed(trace, acts, z, x);
          StampsVouch(base, trace, acts, lag, z, x, v4);
        }
      }
    }
  }

  /** A stand-in changes what it stands for only after five minutes in which no call has
    answered with it, up to how far clock readings come late. */
  lemma ReuseNeedsRest(base: nat, trace: seq<Table>, acts: seq<Action>, lag: nat, i: nat, j: nat, v4: nat, v6: Addr)
    returns (k: nat)
    requires Run(base, trace, acts) && Lagging(acts, lag) && i < j < |trace|
    requires Stands(trace[i], v4, v6) && !Stands(trace[j], v4, v6)
    ensures i <= k < j && Stands(trace[k], v4, v6) && !Stands(trace[k + 1], v4, v6)
    ensures forall m: nat :: m < k && Answers(trace[m], acts[m], trace[m + 1], v4) ==> acts[m].now + REUSE <= acts[k].now + lag
  {
    k := LastStanding(trace, i, j, v4, v6);
    RunStep(base, trace, acts, k);
    NextLetsGoOnlyIdle(base, trace[k], acts[k], trace[k + 1], v4, v6);
    forall m: nat | m < k && Answers(trace[m], acts[m], trace[m + 1], v4) ensures acts[m].now + REUSE <= acts[k].now + lag {
      StampsVouch(base, trace, acts, lag, m, k, v4);
    }
  }

  /** On the run every stand-in rests before it is let go: no call answered with it in the
    last five minutes but `slack` seconds. */
  ghost predicate Rests(trace: seq<Table>, acts: seq<Action>, slack: int)
    requires |trace| == |acts| + 1
  {
    forall v4: nat, v6, m: nat, k: nat ::
      m < k < |acts| && Stands(trace[k], v4, v6) && !Stands(trace[k + 1], v4, v6) && Answers(trace[m], acts[m], trace[m + 1], v4) ==>
        acts[m].now + REUSE <= acts[k].now + slack
  }

  lemma LagRests(base: nat, trace: seq<Table>, acts: seq<Action>, lag: nat)
    requires Run(base, trace, acts) && Lagging(acts, lag)
    ensures Rests(trace, acts, lag)
  {
    forall v4: nat, v6, m: nat, k: nat |
      m < k < |acts| && Stands(trace[k], v4, v6) && !Stands(trace[k + 1], v4, v6) && Answers(trace[m], acts[m], trace[m + 1], v4)
      ensures acts[m].now + REUSE <= acts[k].now + lag
    {
      var j := ReuseNeedsRest(base, trace, acts, lag, k, k + 1, v4, v6);
    }
  }

  function Site(k: nat): Addr { Addr(V6, k) }

  /** Every usable address is taken, by the site of its number, and used at `at`, the first
    one at `first`. */
  ghost predicate FullAt(base: nat, s: Table, at: int, first: int) {
    && s.next < U32
    && (forall v4 :: v4 in s.byV4 <==> Usable(base, v4))
    && (forall v4 :: v4 in s.byV4 ==> s.byV4[v4] == Pair(Site(v4 - base), if v4 == base + 1 then first else at))
    && (forall v6 :: v6 in s.byV6 <==> v6.fam == V6 && 0 < v6.val <= ROOM)
    && (forall v6 :: v6 in s.byV6 ==> s.byV6[v6] == base + v6.val)
  }

  lemma SomeFull(base: nat, at: int) returns (s: Table)
    ensures FullAt(base, s, at, at)
  {
    var byV4 := SitesAbove(base, at, ROOM);
    var byV6 := AddressesOf(base, ROOM);
    s := Table(byV4, byV6, 0);
  }

  lemma SitesAbove(base: nat, at: int, room: nat) returns (m: map<nat, Pair>)
    ensures forall v4 :: v4 in m <==> base < v4 <= base + room
    ensures forall v4 :: v4 in m ==> m[v4] == Pair(Site(v4 - base), at)
  {
    m := map v4: nat | v4 in UsableSet(base, room) :: Pair(Site(v4 - base), at);
  }

  lemma {:induction false} AddressesOf(base: nat, room: nat) returns (m: map<Addr, nat>)
    ensures forall v6 :: v6 in m <==> v6.fam == V6 && 0 < v6.val <= room
    ensures forall v6 :: v6 in m ==> m[v6] == base + v6.val
  {
    if room == 0 {
      m := map[];
    } else {
      var front := AddressesOf(base, room - 1);
      m := front[Site(room) := base + room];
    }
  }

  lemma FullAtInv(base: nat, s: Table, at: int, first: int)
    requires FullAt(base, s, at, first) && at > 0 && first > 0
    ensures Inv(base, s) && Full(base, s)
  {
  }

  lemma TouchFull(base: nat, s: Table, at: int, first: int, now: int)
    requires FullAt(base, s, at, first)
    ensures base + 1 in s.byV4 && FullAt(base, Touched(s, base + 1, now), at, now)
  {
  }

  /** The first address answers at `lag + 1`, is stamped at 1 by a call that read the clock
    then, and goes to a new site as soon as that stamp is five minutes old. */
  lemma LateStampLosesOne(base: nat, lag: nat) returns (trace: seq<Table>, acts: seq<Action>)
    requires Synthetic(base + 1)
    ensures Run(base, trace, acts) && Lagging(acts, lag) && |acts| == 4
    ensures Stands(trace[3], base + 1, Site(1)) && !Stands(trace[4], base + 1, Site(1))
    ensures Answers(trace[0], acts[0], trace[1], base + 1) && acts[0].now + REUSE == acts[3].now + lag
  {
    var s := SomeFull(base, lag + 1);
    TouchFull(base, s, lag + 1, lag + 1, lag + 1);
    var used := Touched(s, base + 1, lag + 1);
    TouchFull(base, used, lag + 1, lag + 1, 1);
    var late := Touched(used, base + 1, 1);
    FullAtInv(base, s, lag + 1, lag + 1);
    FullAtInv(base, used, lag + 1, lag + 1);
    FullAtInv(base, late, lag + 1, 1);
    var t := Evicts(base, late, Site(ROOM + 1), REUSE + 1);
    trace, acts := FourSteps(base, lag, s, used, late, t, base + 1, Site(1), Site(ROOM + 1));
  }

  lemma FourSteps(base: nat, lag: nat, s: Table, used: Table, late: Table, t: Table, v4: nat, v6: Addr, w: Addr)
    returns (trace: seq<Table>, acts: seq<Action>)
    requires Inv(base, s) && Inv(base, used) && Inv(base, late) && w !in late.byV6
    requires v4 in s.byV4 && Synthetic(v4) && used == Touched(s, v4, lag + 1)
    requires v6 in used.byV6 && used.byV6[v6] == v4 && late == Touched(used, v4, 1)
    requires Next(base, late, StandStep(w, REUSE + 1), t)
    ensures trace == [s, used, late, late, t] && Run(base, trace, acts) && Lagging(acts, lag)
    ensures acts == [RealStep(v4, lag + 1), KnowStep(v6, 1), KnowStep(w, REUSE + 1), StandStep(w, REUSE + 1)]
  {
    trace := [s, used, late, late, t];
    acts := [RealStep(v4, lag + 1), KnowStep(v6, 1), KnowStep(w, REUSE + 1), StandStep(w, REUSE + 1)];
    assert Next(base, s, acts[0], used) && Next(base, used, acts[1], late) && Next(base, late, acts[2], late);
    FourIsRun(base, trace, acts);
  }

  lemma FourIsRun(base: nat, trace: seq<Table>, acts: seq<Action>)
    requires |trace| == 5 && |acts| == 4 && Inv(base, trace[0]) && Inv(base, trace[1]) && Inv(base, trace[2]) && Inv(base, trace[3])
    requires Next(base, trace[0], acts[0], trace[1]) && Next(base, trace[1], acts[1], trace[2])
    requires Next(base, trace[2], acts[2], trace[3]) && Next(base, trace[3], acts[3], trace[4])
    requires acts[0].RealStep? && acts[1].KnowStep? && acts[3].StandStep?
    requires acts[2] == KnowStep(acts[3].v6, acts[3].now) && acts[3].v6 !in trace[2].byV6
    ensures Run(base, trace, acts)
  {
    assert Missed(trace, acts, 2, 3);
  }

  /** A full table whose oldest entry is five minutes old gives its address to a new site. */
  lemma Evicts(base: nat, s: Table, w: Addr, now: int) returns (t: Table)
    requires Inv(base, s) && Full(base, s) && w !in s.byV6 && Standable(w) && now > REUSE
    requires Oldest(s, base + 1) && s.byV4[base + 1].usedAt <= now - REUSE
    ensures Next(base, s, StandStep(w, now), t)
    ensures base + 1 in t.byV4 && t.byV4[base + 1].v6 == w
  {
    var r := Without(s, base + 1);
    t := r.(byV4 := r.byV4[base + 1 := Pair(w, now)], byV6 := r.byV6[w := base + 1]);
    assert Bound(base, r, w, now, base + 1, t);
    assert StandSpec(base, s, w, now, Some(base + 1), t);
  }

  /** What rest is promised, exactly: on all runs whose readings lag by at most `lag`, five
    minutes less that lag and not a second more.  With readings in order it is the whole
    five minutes, and with any lag at all it is not.  The base of every slot will do. */
  lemma RestIsExact(base: nat, lag: nat, slack: int)
    requires Synthetic(base + 1)
    ensures slack >= lag <==>
      forall trace, acts :: Run(base, trace, acts) && Lagging(acts, lag) ==> Rests(trace, acts, slack)
  {
    if slack >= lag {
      forall trace, acts | Run(base, trace, acts) && Lagging(acts, lag) ensures Rests(trace, acts, slack) {
        LagRests(base, trace, acts, lag);
      }
    } else {
      var trace, acts := LateStampLosesOne(base, lag);
      assert !Rests(trace, acts, slack);
    }
  }

  /** The lateness does come in: a stand-in answers at 4000, a call that read the clock at
    100 stamps it late, and a sweep at 4000 lets it go. */
  lemma LateStampForgets(base: nat, v4: nat, v6: Addr) returns (trace: seq<Table>, acts: seq<Action>)
    requires Usable(base, v4) && Synthetic(v4) && Standable(v6)
    ensures Run(base, trace, acts) && |acts| == 3 && acts[0].now == acts[2].now
    ensures Answers(trace[0], acts[0], trace[1], v4) && Stands(trace[2], v4, v6) && !Stands(trace[3], v4, v6)
  {
    OnePairSteps(base, v4, v6);
    trace := [OnePair(v4, v6, 1), OnePair(v4, v6, 4000), OnePair(v4, v6, 100), Table(map[], map[], 0)];
    acts := [RealStep(v4, 4000), KnowStep(v6, 100), SweepStep(4000)];
  }

  function OnePair(v4: nat, v6: Addr, at: int): Table { Table(map[v4 := Pair(v6, at)], map[v6 := v4], 0) }

  lemma OnePairSteps(base: nat, v4: nat, v6: Addr)
    requires Usable(base, v4) && Synthetic(v4) && Standable(v6)
    ensures forall at :: at > 0 ==> Inv(base, OnePair(v4, v6, at))
    ensures Next(base, OnePair(v4, v6, 1), RealStep(v4, 4000), OnePair(v4, v6, 4000))
    ensures Next(base, OnePair(v4, v6, 4000), KnowStep(v6, 100), OnePair(v4, v6, 100))
    ensures Next(base, OnePair(v4, v6, 100), SweepStep(4000), Table(map[], map[], 0))
  {
    assert SweepSpec(OnePair(v4, v6, 100), 4000, Table(map[], map[], 0));
  }

  /** `stand` refuses a new site only when every usable address was used within five
    minutes, answers with an address that stands for the site, and lets go of nothing
    while a free address exists. */
  lemma StandMeans(base: nat, s: Table, v6: Addr, now: int, got: Option<nat>, t: Table)
    requires Inv(base, s) && Standable(v6) && now > 0 && StandSpec(base, s, v6, now, got, t)
    ensures got == None <==> v6 !in s.byV6 && AllBusy(base, s, now - REUSE)
    ensures got.Some? ==> Usable(base, got.value) && Stands(t, got.value, v6) && v6 in t.byV6 && t.byV6[v6] == got.value
    ensures !Full(base, s) ==> got.Some? && forall v4, w :: Stands(s, v4, w) ==> Stands(t, v4, w)
    ensures forall v4, w | Stands(s, v4, w) && !Stands(t, v4, w) :: Oldest(s, v4) && s.byV4[v4].usedAt + REUSE <= now
  {
    if Full(base, s) && v6 !in s.byV6 && !AllBusy(base, s, now - REUSE) {
      var gone: nat :| Oldest(s, gone) && s.byV4[gone].usedAt <= now - REUSE
        && Bound(base, Without(s, gone), v6, now, got.value, t);
    }
  }

  /** Two nodes with different slots never hold the same stand-in. */
  lemma NodesNeverCollide(a: int, b: int, s: Table, t: Table, v4: nat)
    requires 0 <= a < SLOTS && 0 <= b < SLOTS && a != b
    requires Inv(NatSlot(a).val, s) && Inv(NatSlot(b).val, t)
    ensures !(v4 in s.byV4 && v4 in t.byV4)
  {
    SlotsPartition(v4);
    assert v4 in s.byV4 ==> InSlot(NatSlot(a).val, v4);
    assert v4 in t.byV4 ==> InSlot(NatSlot(b).val, v4);
  }
}
