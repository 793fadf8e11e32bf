/** What the table of internal/domainroute/domainroute.go answers after a Load and a Learn,
  told from what they were given. */
module RouteAnswers {
  import opened Options
  import opened Net
  import opened Spans
  import opened RouteTable

  // ---------------------------------------------------------------- rules

  /** Of the whole-label suffixes of a name, `t` is the longest with a user rule that has a
    role of its own. */
  ghost predicate UserSays(user: map<string, string>, name: string, t: string) {
    && IsTail(name, t) && t in user && user[t] != "default"
    && forall u :: IsTail(name, u) && u in user && user[u] != "default" ==> |u| <= |t|
  }

  ghost predicate BundleSays(bundle: map<string, Entry>, name: string, t: string) {
    && IsTail(name, t) && t in bundle && bundle[t].role != "default"
    && forall u :: IsTail(name, u) && u in bundle && bundle[u].role != "default" ==> |u| <= |t|
  }

  lemma OneTail(name: string, t: string, u: string)
    requires IsTail(name, t) && IsTail(name, u) && |t| == |u|
    ensures t == u
  {
    var j: nat :| TailFrom(name, t, j);
    var k: nat :| TailFrom(name, u, k);
  }

  lemma UserRule(user: map<string, string>, bundle: map<string, Entry>, r: Rules, name: string, t: string)
    requires KeepsOpinions(user, bundle, r) && UserSays(user, name, t)
    ensures RuleOf(r, name) == Some(Learned(t, user[t], false, 0))
  {
    FirstTailIsLongest(name, r.user.Keys);
    OneTail(name, t, FirstTail(name, r.user.Keys).value);
  }

  lemma BundleRule(user: map<string, string>, bundle: map<string, Entry>, r: Rules, name: string)
    requires KeepsOpinions(user, bundle, r) && forall t :: !UserSays(user, name, t)
    ensures forall t :: BundleSays(bundle, name, t) ==> RuleOf(r, name) == Some(Learned(bundle[t].rule, bundle[t].role, true, 0))
    ensures (forall t :: !BundleSays(bundle, name, t)) ==> RuleOf(r, name) == None
  {
    FirstTailIsLongest(name, r.user.Keys);
    FirstTailIsLongest(name, r.bundle.Keys);
    if FirstTail(name, r.user.Keys).Some? { assert UserSays(user, name, FirstTail(name, r.user.Keys).value); }
    if FirstTail(name, r.bundle.Keys).Some? { assert BundleSays(bundle, name, FirstTail(name, r.bundle.Keys).value); }
    forall t | BundleSays(bundle, name, t)
      ensures RuleOf(r, name) == Some(Learned(bundle[t].rule, bundle[t].role, true, 0))
    {
      OneTail(name, t, FirstTail(name, r.bundle.Keys).value);
    }
  }

  // -------------------------------------------------------------- answers

  /** A user entry still good at `now` holds the address. */
  predicate HeldByUser(addrs: Addrs, a: Addr, now: int) { a in addrs && !addrs[a].low && addrs[a].until >= now }

  /** What a Learn leaves for an address its answer names, told from what Load was given:
    the longest user rule for an hour; failing one the longest bundle rule, unless a live
    user entry has the address; failing both nothing new. */
  ghost predicate Follows(user: map<string, string>, bundle: map<string, Entry>, was: Addrs, l: Lesson, a: Addr, now: Addrs) {
    && (forall t :: UserSays(user, l.name, t) ==> a in now && now[a] == Learned(t, user[t], false, l.now + 3600))
    && ((forall t :: !UserSays(user, l.name, t)) ==>
          && (forall t :: BundleSays(bundle, l.name, t) && !HeldByUser(was, a, l.later) ==>
                a in now && now[a] == Learned(bundle[t].rule, bundle[t].role, true, l.now + 3600))
          && ((forall t :: !BundleSays(bundle, l.name, t)) || HeldByUser(was, a, l.later) ==> Stays(was, a, l.now, now)))
  }

  /** The address has the entry it had, or none if that had run out. */
  predicate Stays(was: Addrs, a: Addr, clock: int, now: Addrs) {
    && (a in now ==> a in was && now[a] == was[a])
    && (a in was && was[a].until >= clock ==> a in now)
  }

  lemma LearnFollows(user: map<string, string>, bundle: map<string, Entry>, r: Rules, names: Names, addrs: Addrs, l: Lesson,
                     names': Names, addrs': Addrs, i: nat)
    requires KeepsOpinions(user, bundle, r) && LearnSpec(r, names, addrs, l, names', addrs')
    requires l.now <= l.later && i < |l.found|
    ensures Follows(user, bundle, addrs, l, Unmap(l.found[i]), addrs')
  {
    var midNames, midAddrs :| Learnt(r, names, addrs, l, midNames, midAddrs, names', addrs');
    var a := Unmap(l.found[i]);
    assert a in Unmapped(l.found);
    PlacedAs(r, midAddrs, l, addrs', a);
    assert Stays(addrs, a, l.now, midAddrs);
    Settled(user, bundle, r, addrs, midAddrs, l, a, addrs');
  }

  /** The address is placed under what the rules say of the name, bar the shielded. */
  ghost predicate PlacedSo(r: Rules, mid: Addrs, l: Lesson, a: Addr, after: Addrs) {
    match RuleOf(r, l.name)
    case None => Stays(mid, a, l.now, after)
    case Some(f) =>
      if f.low && HeldByUser(mid, a, l.later) then Stays(mid, a, l.now, after)
      else a in after && after[a] == f.(until := l.now + 3600)
  }

  lemma PlacedAs(r: Rules, mid: Addrs, l: Lesson, after: Addrs, a: Addr)
    requires PlaceSpec(r, mid, l.name, Answer(l.found, l.now + KEEP), l.later, after) && a in Unmapped(l.found)
    ensures PlacedSo(r, mid, l, a, after)
  {
  }

  lemma Settled(user: map<string, string>, bundle: map<string, Entry>, r: Rules, was: Addrs, mid: Addrs, l: Lesson, a: Addr,
                after: Addrs)
    requires KeepsOpinions(user, bundle, r) && Stays(was, a, l.now, mid) && l.now <= l.later
    requires PlacedSo(r, mid, l, a, after)
    ensures Follows(user, bundle, was, l, a, after)
  {
    if t :| UserSays(user, l.name, t) {
      UserRule(user, bundle, r, l.name, t);
      forall u | UserSays(user, l.name, u) ensures u == t { OneTail(l.name, t, u); }
    } else {
      BundleRule(user, bundle, r, l.name);
    }
  }

  /** Addresses the answer does not name keep what they had. */
  lemma LearnLeaves(r: Rules, names: Names, addrs: Addrs, l: Lesson, names': Names, addrs': Addrs, a: Addr)
    requires LearnSpec(r, names, addrs, l, names', addrs')
    requires forall i :: 0 <= i < |l.found| ==> Unmap(l.found[i]) != a
    ensures Stays(addrs, a, l.now, addrs')
  {
    var midNames, midAddrs :| Learnt(r, names, addrs, l, midNames, midAddrs, names', addrs');
  }

  /** Names are remembered for an hour, and none but those run out is forgotten. */
  lemma LearnRemembers(r: Rules, names: Names, addrs: Addrs, l: Lesson, names': Names, addrs': Addrs, n: string)
    requires LearnSpec(r, names, addrs, l, names', addrs')
    ensures n == l.name ==> n in names' && names'[n] == Answer(l.found, l.now + 3600)
    ensures n != l.name ==>
      && (n in names' ==> n in names && names'[n] == names[n])
      && (n in names && names[n].until >= l.now ==> n in names')
  {
    var midNames, midAddrs :| Learnt(r, names, addrs, l, midNames, midAddrs, names', addrs');
  }

  /** An IPv4 address is looked up alike however it is written, and no other changes. */
  lemma MappedAlike(v: nat, a: Addr)
    requires v < 0x1_0000_0000
    ensures Unmap(Addr(V6, 0xFFFF_0000_0000 + v)) == Unmap(Addr(V4, v)) == Addr(V4, v)
    ensures a.fam == V4 || !(0xFFFF_0000_0000 <= a.val < 0x1_0000_0000_0000) ==> Unmap(a) == a
  {
  }

  /** A Load, a Learn and a question: an address the answer names is held by the longest
    user rule given, else by the longest bundle rule unless a user entry kept from before
    has it. */
  method LoadLearnAsk(table: Table, user: map<string, string>, bundle: map<string, Entry>, nets: seq<NetEntry>, now: int,
                      end: int, l: Lesson, i: nat, at: int)
    returns (got: Option<Learned>)
    requires AllValid(nets) && now <= end <= l.now <= l.later <= at <= l.now + 3600 && i < |l.found|
    modifies table
    ensures forall t :: UserSays(user, l.name, t) ==> got == Some(Learned(t, user[t], false, l.now + 3600))
    ensures (forall t :: !UserSays(user, l.name, t)) ==>
      forall t :: BundleSays(bundle, l.name, t) && at == l.later ==>
        got == Some(Learned(bundle[t].rule, bundle[t].role, true, l.now + 3600)) || (got.Some? && !got.value.low)
  {
    table.Load(user, bundle, nets, now, end);
    got := LearnAsk(table, user, bundle, l, i, at);
  }

  method LearnAsk(table: Table, user: map<string, string>, bundle: map<string, Entry>, l: Lesson, i: nat, at: int)
    returns (got: Option<Learned>)
    requires table.Valid() && KeepsOpinions(user, bundle, table.rules)
    requires l.now <= l.later <= at <= l.now + 3600 && i < |l.found|
    modifies table
    ensures forall t :: UserSays(user, l.name, t) ==> got == Some(Learned(t, user[t], false, l.now + 3600))
    ensures (forall t :: !UserSays(user, l.name, t)) ==>
      forall t :: BundleSays(bundle, l.name, t) && at == l.later ==>
        got == Some(Learned(bundle[t].rule, bundle[t].role, true, l.now + 3600)) || (got.Some? && !got.value.low)
  {
    ghost var names, addrs := table.names, table.addrs;
    table.Learn(l.name, l.found, l.now, l.later);
    LearnFollows(user, bundle, table.rules, names, addrs, l, table.names, table.addrs, i);
    got := table.Held(l.found[i], at);
  }
}
