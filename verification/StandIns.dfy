/** What the stand-in table of internal/qsrv/nat46.go does for its callers, with the figures
  of the source written out: slots of 4096 addresses from 198.18.0.0, five minutes before a
  stand-in changes hands, an hour before it is swept. */
module StandIns {
  import opened Options
  import opened Net
  import opened Nat46

  /** Slot `k` starts at 198.18.0.0 and 4096 addresses for each slot before it; a slot that
    does not exist stands for the first.  Any address in it names it. */
  lemma SlotPlaces(k: int, r: nat)
    requires r < 4096
    ensures 0 <= k < 32 ==> NatSlot(k) == Prefix(V4, 0xC612_0000 + 4096 * k, 20)
    ensures k < 0 || k >= 32 ==> NatSlot(k) == Prefix(V4, 0xC612_0000, 20)
    ensures 0 <= k < 32 ==> SlotOf(Prefix(V4, 0xC612_0000 + 4096 * k + r, 20)) == k
  {
  }

  lemma NoSlot(p: Prefix)
    ensures SlotOf(p) == -1 <==> p.fam != V4 || p.bits != 20 || !(0xC612_0000 <= p.val < 0xC614_0000)
  {
  }

  /** An address of the slot but for its first and its last. */
  predicate Within4094(base: nat, v4: nat) { base + 1 <= v4 <= base + 4094 }

  /** Only the stand-in `v4`, which stands for `v6` from now on, is different. */
  ghost predicate OnlyNew(s: Table, v6: Addr, now: int, v4: nat, t: Table) {
    && v4 in t.byV4 && t.byV4[v4] == Pair(v6, now) && v6 in t.byV6 && t.byV6[v6] == v4
    && (forall b :: b != v4 ==> (b in t.byV4 <==> b in s.byV4))
    && (forall b :: b != v4 && b in s.byV4 && b in t.byV4 ==> t.byV4[b] == s.byV4[b])
    && (forall w :: w != v6 ==> (w in t.byV6 <==> w in s.byV6 && s.byV6[w] != v4))
    && (forall w :: w != v6 && w in s.byV6 && w in t.byV6 ==> t.byV6[w] == s.byV6[w])
  }

  /** A site that has a stand-in keeps it.  A new site is refused exactly when every address
    was used in the last five minutes; else it gets a free address, or, when none is free,
    the one used longest ago, and nobody else's changes. */
  lemma StandExactly(base: nat, s: Table, v6: Addr, now: int, got: Option<nat>, t: Table)
    requires Inv(base, s) && StandSpec(base, s, v6, now, got, t)
    ensures v6 in s.byV6 ==> t == s && got == Some(s.byV6[v6])
    ensures v6 !in s.byV6 ==>
      (got == None <==> forall b :: Within4094(base, b) ==> b in s.byV4 && s.byV4[b].usedAt > now - 300)
    ensures v6 !in s.byV6 && got == None ==> t == s
    ensures v6 !in s.byV6 && got.Some? ==> Within4094(base, got.value) && OnlyNew(s, v6, now, got.value, t)
    ensures v6 !in s.byV6 && got.Some? && got.value in s.byV4 ==>
      && (forall b :: Within4094(base, b) ==> b in s.byV4)
      && s.byV4[got.value].usedAt <= now - 300
      && forall b :: b in s.byV4 ==> s.byV4[got.value].usedAt <= s.byV4[b].usedAt
  {
    assert forall b :: Within4094(base, b) <==> Usable(base, b);
    if v6 !in s.byV6 && got.Some? {
      if Full(base, s) {
        var gone: nat :| Oldest(s, gone) && s.byV4[gone].usedAt <= now - REUSE
          && Bound(base, Without(s, gone), v6, now, got.value, t);
        assert got.value == gone;
        AfterEviction(base, s, v6, now, gone, t);
      } else {
        FreshOnly(base, s, v6, now, got.value, t);
      }
    }
  }

  lemma FreshOnly(base: nat, s: Table, v6: Addr, now: int, v4: nat, t: Table)
    requires Inv(base, s) && Bound(base, s, v6, now, v4, t) && v6 !in s.byV6
    ensures OnlyNew(s, v6, now, v4, t)
  {
  }

  lemma AfterEviction(base: nat, s: Table, v6: Addr, now: int, v4: nat, t: Table)
    requires Inv(base, s) && v4 in s.byV4 && Bound(base, Without(s, v4), v6, now, v4, t) && v6 !in s.byV6
    ensures OnlyNew(s, v6, now, v4, t)
  {
  }

  /** A sweep takes exactly the pairs nobody has used for an hour, out of both maps. */
  lemma SweepsAfterAnHour(base: nat, s: Table, now: int, t: Table, v4: nat, v6: Addr)
    requires Inv(base, s) && Next(base, s, SweepStep(now), t)
    ensures v4 in t.byV4 <==> v4 in s.byV4 && s.byV4[v4].usedAt > now - 3600
    ensures v4 in t.byV4 && v4 in s.byV4 ==> t.byV4[v4] == s.byV4[v4]
    ensures v6 in t.byV6 <==> v6 in s.byV6 && s.byV6[v6] in s.byV4 && s.byV4[s.byV6[v6]].usedAt > now - 3600
    ensures v6 in t.byV6 && v6 in s.byV6 ==> t.byV6[v6] == s.byV6[v6]
  {
  }

  /** A question for a known site or stand-in stamps that pair, and that alone. */
  lemma AskingStamps(base: nat, s: Table, act: Action, t: Table, v4: nat)
    requires Inv(base, s) && (act.KnowStep? || act.RealStep?) && Next(base, s, act, t)
    ensures t.byV6 == s.byV6 && (v4 in t.byV4 <==> v4 in s.byV4)
    ensures v4 in s.byV4 && v4 in t.byV4 ==>
      && t.byV4[v4].v6 == s.byV4[v4].v6
      && t.byV4[v4].usedAt == if Asked(s, act, v4) then act.now else s.byV4[v4].usedAt
  {
  }

  /** The question is for the stand-in, or for the site it stands for. */
  predicate Asked(s: Table, act: Action, v4: nat)
    requires v4 in s.byV4
  {
    match act
    case KnowStep(v6, _) => s.byV4[v4].v6 == v6
    case RealStep(a, _) => a == v4 && 0xC612_0000 <= v4 < 0xC614_0000
    case _ => false
  }

  /** On every run, with readings in order, a stand-in that has answered for one site answers
    for another only when five minutes have gone by since its last answer. */
  lemma FiveMinutes(base: nat, trace: seq<Table>, acts: seq<Action>, m: nat, k: nat, v4: nat, v6: Addr)
    requires Run(base, trace, acts) && m < k < |acts|
    requires forall x, y :: 0 <= x < y < |acts| ==> acts[x].now <= acts[y].now
    requires Answers(trace[m], acts[m], trace[m + 1], v4)
    requires Stands(trace[k], v4, v6) && !Stands(trace[k + 1], v4, v6)
    ensures acts[k].now - acts[m].now >= 300
  {
    LagRests(base, trace, acts, 0);
  }
}
