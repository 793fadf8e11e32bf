/** The learned half of internal/domainroute/domainroute.go: which rule an address follows
  once a DNS answer has named it.  User rules outrank bundle rules until they expire.
  Names are already lower-case and trimmed; times are seconds. */
module RouteTable {
  import opened Options
  import opened Net
  import opened Spans

  const KEEP := 3600
  const ROOM := 0x1_0000

  // ---------------------------------------------------------------- names

  function DotAt(name: string): (i: nat)
    ensures i <= |name|
    ensures forall k :: 0 <= k < i ==> name[k] != '.'
    ensures i < |name| ==> name[i] == '.'
  {
    if name == "" || name[0] == '.' then 0 else 1 + DotAt(name[1..])
  }

  /** A whole-label suffix of a name: all of it, or what follows one of its dots. */
  ghost predicate IsTail(name: string, t: string) {
    exists k: nat :: TailFrom(name, t, k)
  }

  predicate TailFrom(name: string, t: string, k: nat) {
    k < |name| && t == name[k..] && (k == 0 || name[k - 1] == '.')
  }

  /** The first suffix `tails` offers that is a key. */
  function FirstTail(name: string, keys: set<string>): Option<string> {
    if name == "" then None
    else if name in keys then Some(name)
    else if DotAt(name) == |name| then None
    else FirstTail(name[DotAt(name) + 1..], keys)
  }

  lemma TailShift(name: string, d: nat, t: string, m: nat)
    requires d < |name| && name[d] == '.'
    ensures TailFrom(name[d + 1..], t, m) <==> TailFrom(name, t, d + 1 + m)
  {
    var rest := name[d + 1..];
    if m < |rest| {
      assert rest[m..] == name[d + 1 + m..];
      assert m > 0 ==> rest[m - 1] == name[d + m];
    }
  }

  lemma TailAfterDot(name: string, t: string, k: nat)
    requires TailFrom(name, t, k) && k > 0
    ensures DotAt(name) < k
  {
  }

  lemma TailGoesDown(name: string, t: string, k: nat)
    requires TailFrom(name, t, k) && t != name
    ensures DotAt(name) < |name| && TailFrom(name[DotAt(name) + 1..], t, k - DotAt(name) - 1)
  {
    assert name[0..] == name;
    TailAfterDot(name, t, k);
    TailShift(name, DotAt(name), t, k - DotAt(name) - 1);
  }

  lemma TailSplit(name: string, t: string, more: bool, rest: string)
    requires name != "" && more == (DotAt(name) < |name|) && (more ==> rest == name[DotAt(name) + 1..])
    ensures IsTail(name, t) <==> t == name || (more && IsTail(rest, t))
  {
    if t == name {
      TailOfSelf(name);
    } else if IsTail(name, t) {
      TailBelow(name, t);
    } else if more && IsTail(rest, t) {
      TailAbove(name, t);
    }
  }

  lemma TailOfSelf(name: string)
    requires name != ""
    ensures IsTail(name, name)
  {
    assert TailFrom(name, name, 0);
  }

  lemma TailBelow(name: string, t: string)
    requires IsTail(name, t) && t != name
    ensures DotAt(name) < |name| && IsTail(name[DotAt(name) + 1..], t)
  {
    var k: nat :| TailFrom(name, t, k);
    TailGoesDown(name, t, k);
  }

  lemma TailAbove(name: string, t: string)
    requires DotAt(name) < |name| && IsTail(name[DotAt(name) + 1..], t)
    ensures IsTail(name, t)
  {
    var m: nat :| TailFrom(name[DotAt(name) + 1..], t, m);
    TailShift(name, DotAt(name), t, m);
  }

  /** The chosen suffix is the longest whole-label suffix that has a rule. */
  lemma {:induction false} FirstTailIsLongest(name: string, keys: set<string>)
    ensures match FirstTail(name, keys)
      case Some(t) => IsTail(name, t) && t in keys && forall u :: IsTail(name, u) && u in keys ==> |u| <= |t|
      case None => forall u :: u in keys ==> !IsTail(name, u)
    decreases |name|
  {
    if name != "" {
      forall u ensures IsTail(name, u) <==> u == name || (DotAt(name) < |name| && IsTail(name[DotAt(name) + 1..], u)) {
        TailSplit(name, u, DotAt(name) < |name|, if DotAt(name) < |name| then name[DotAt(name) + 1..] else "");
      }
      if name !in keys && DotAt(name) < |name| {
        FirstTailIsLongest(name[DotAt(name) + 1..], keys);
      }
    }
  }

  method FindTail(name: string, keys: set<string>) returns (got: Option<string>)
    ensures got == FirstTail(name, keys)
  {
    var rest := name;
    while rest != ""
      invariant FirstTail(rest, keys) == FirstTail(name, keys)
      decreases |rest|
    {
      if rest in keys { return Some(rest); }
      var dot := DotAt(rest);
      if dot == |rest| { return None; }
      rest := rest[dot + 1..];
    }
    return None;
  }

  // ---------------------------------------------------------------- table

  datatype Learned = Learned(rule: string, role: string, low: bool, until: int)

  datatype Answer = Answer(addrs: seq<Addr>, until: int)

  datatype Rules = Rules(user: map<string, string>, bundle: map<string, Entry>)

  type Names = map<string, Answer>
  type Addrs = map<Addr, Learned>

  /** An IPv4 address mapped into IPv6 is taken for the IPv4 address. */
  function Unmap(a: Addr): Addr {
    if a.fam == V6 && a.val / 0x1_0000_0000 == 0xFFFF then Addr(V4, a.val % 0x1_0000_0000) else a
  }

  predicate UserRuled(r: Rules, name: string) { FirstTail(name, r.user.Keys).Some? }

  lemma FirstTailIn(name: string, keys: set<string>)
    ensures FirstTail(name, keys).Some? ==> FirstTail(name, keys).value in keys
  {
  }

  /** `ruleOf`: the longest user suffix, else the longest bundle suffix. */
  function RuleOf(r: Rules, name: string): (found: Option<Learned>)
    ensures found.Some? ==> (found.value.low <==> !UserRuled(r, name))
    ensures UserRuled(r, name) ==> found.Some?
  {
    FirstTailIn(name, r.user.Keys);
    FirstTailIn(name, r.bundle.Keys);
    match FirstTail(name, r.user.Keys)
    case Some(t) => Some(Learned(t, r.user[t], false, 0))
    case None =>
      match FirstTail(name, r.bundle.Keys)
      case Some(t) => Some(Learned(r.bundle[t].rule, r.bundle[t].role, true, 0))
      case None => None
  }

  /** A user entry that is still good keeps its address from a bundle rule. */
  predicate Shielded(addrs: Addrs, a: Addr, found: Learned, now: int) {
    a in addrs && found.low && !addrs[a].low && addrs[a].until >= now
  }

  ghost function Unmapped(addrs: seq<Addr>): set<Addr> {
    set i | 0 <= i < |addrs| :: Unmap(addrs[i])
  }

  lemma UnmappedStep(addrs: seq<Addr>, i: nat)
    requires i < |addrs|
    ensures Unmapped(addrs[..i + 1]) == Unmapped(addrs[..i]) + {Unmap(addrs[i])}
  {
    forall a ensures a in Unmapped(addrs[..i + 1]) <==> a in Unmapped(addrs[..i]) || a == Unmap(addrs[i]) {
      if a in Unmapped(addrs[..i]) {
        var j :| 0 <= j < i && Unmap(addrs[..i][j]) == a;
        assert Unmap(addrs[..i + 1][j]) == a;
      }
      if a == Unmap(addrs[i]) { assert Unmap(addrs[..i + 1][i]) == a; }
      if a in Unmapped(addrs[..i + 1]) {
        var j :| 0 <= j < i + 1 && Unmap(addrs[..i + 1][j]) == a;
        if j < i { assert Unmap(addrs[..i][j]) == a; }
      }
    }
  }

  ghost predicate Overlaid(addrs: Addrs, over: set<Addr>, found: Learned, now: int, after: Addrs) {
    && after.Keys == addrs.Keys + over
    && forall a :: a in after ==>
         after[a] == if a in over && !Shielded(addrs, a, found, now) then found else addrs[a]
  }

  /** `place` leaves every address of the answer under the found rule, bar the shielded. */
  ghost predicate PlaceSpec(r: Rules, addrs: Addrs, name: string, got: Answer, now: int, after: Addrs) {
    match RuleOf(r, name)
    case None => after == addrs
    case Some(f) =>
      var found := f.(until := got.until);
      Overlaid(addrs, Unmapped(got.addrs), found, now, after)
  }

  ghost function AfterPlace(r: Rules, addrs: Addrs, name: string, got: Answer, now: int): (after: Addrs)
    ensures PlaceSpec(r, addrs, name, got, now, after)
  {
    match RuleOf(r, name)
    case None => addrs
    case Some(f) =>
      var found, over := f.(until := got.until), Unmapped(got.addrs);
      map a | a in addrs.Keys + over :: if a in over && !Shielded(addrs, a, found, now) then found else addrs[a]
  }

  lemma PlaceIs(r: Rules, addrs: Addrs, name: string, got: Answer, now: int, after: Addrs)
    requires PlaceSpec(r, addrs, name, got, now, after)
    ensures after == AfterPlace(r, addrs, name, got, now)
  {
  }

  class Table {
    var rules: Rules
    var few: seq<NetEntry>
    var many: seq<Set>
    var names: Names
    var addrs: Addrs

    ghost predicate Valid()
      reads this
    {
      AllValid(few) && forall s :: s in many ==> Apart(s.lo, s.hi)
    }

    constructor ()
      ensures Valid() && names == map[] && addrs == map[] && rules == Rules(map[], map[])
    {
      rules, few, many, names, addrs := Rules(map[], map[]), [], [], map[], map[];
    }

    method Place(name: string, got: Answer, now: int)
      modifies this`addrs
      ensures PlaceSpec(rules, old(addrs), name, got, now, addrs)
    {
      var f := RuleOf(rules, name);
      if f == None { return; }
      var found := f.value.(until := got.until);
      ghost var was := addrs;
      for i := 0 to |got.addrs|
        invariant Overlaid(was, Unmapped(got.addrs[..i]), found, now, addrs)
      {
        var a := Unmap(got.addrs[i]);
        UnmappedStep(got.addrs, i);
        if Shielded(addrs, a, found, now) { continue; }
        addrs := addrs[a := found];
      }
      assert got.addrs[..|got.addrs|] == got.addrs;
    }

    /** `held`: the learned rule while it lasts, else the networks. */
    method Held(addr: Addr, now: int) returns (got: Option<Learned>)
      requires Valid()
      ensures var a := Unmap(addr);
        if a in addrs && addrs[a].until >= now then got == Some(addrs[a])
        else exists entry :: (Finds(few, many, a, entry) &&
          got == if entry == None then None else Some(Learned(entry.value.rule, entry.value.role, true, 0)))
    {
      var a := Unmap(addr);
      if a in addrs && addrs[a].until >= now { return Some(addrs[a]); }
      var entry := Lookup(few, many, a);
      return OfNetwork(entry);
    }

    /** `now` is the reading Learn takes, `later` the one `place` takes. */
    method Learn(name: string, found: seq<Addr>, now: int, later: int)
      modifies this
      ensures rules == old(rules) && few == old(few) && many == old(many)
      ensures found == [] ==> names == old(names) && addrs == old(addrs)
      ensures found != [] ==> LearnSpec(rules, old(names), old(addrs), Lesson(name, found, now, later), names, addrs)
    {
      if found == [] { return; }
      ghost var oldNames, oldAddrs := names, addrs;
      var got := Answer(found, now + KEEP);
      Purge(now);
      ghost var midNames, midAddrs := names, addrs;
      names := names[name := got];
      Place(name, got, later);
      LearntSo(rules, oldNames, oldAddrs, Lesson(name, found, now, later), midNames, midAddrs, names, addrs);
    }

    method Purge(now: int)
      modifies this`names, this`addrs
      ensures names == old(names) || names == Unexpired(old(names), now)
      ensures addrs == old(addrs) || addrs == StillGood(old(addrs), now)
    {
      if |names| > ROOM { names := Unexpired(names, now); }
      if |addrs| > ROOM { addrs := StillGood(addrs, now); }
    }

    /** `Load`: new rules and networks, the learned addresses placed afresh in some order.
      The clock is read once for expiry and again by each `place`, up to `end`. */
    method Load(user: map<string, string>, bundle: map<string, Entry>, nets: seq<NetEntry>, now: int, end: int)
      requires AllValid(nets) && now <= end
      modifies this
      ensures Valid() && rules == Opinions(user, bundle) && names == Unexpired(old(names), now)
      ensures SplitOf(Spoken(nets), few, many) && Ranked(Spoken(nets), few, many)
      ensures KeepsOpinions(user, bundle, rules)
      ensures forall n :: n in names <==> n in old(names) && old(names)[n].until >= now
      ensures forall n :: n in names ==> names[n] == old(names)[n]
      ensures forall a, got :: Finds(few, many, a, got) ==> (got.Some? <==> NetSays(nets, a))
      ensures Relearnt(rules, names, now, end, addrs)
      ensures forall t :: t >= end && Agree(rules, names, t) ==> Guarded(rules, names, addrs, t)
    {
      rules := Opinions(user, bundle);
      few, many := SortNets(Spoken(nets));
      forall a, got | Finds(few, many, a, got) ensures got.Some? <==> NetSays(nets, a) {
        NetworksFind(nets, few, many, a, got);
      }
      Relearn(now, end);
      forall t | t >= end && Agree(rules, names, t) ensures Guarded(rules, names, addrs, t) {
        AgreedGuards(rules, names, now, end, addrs, t);
      }
    }

    /** One `place` of a Load. */
    method PlaceKept(name: string, got: Answer, at: int, ghost kept: Names, ghost steps: seq<Placing>, ghost now: int,
                     ghost clock: int, ghost done: set<string>) returns (ghost steps': seq<Placing>)
      requires Going(rules, kept, steps, now, clock, done, addrs)
      requires name in kept && got == kept[name] && name !in done && now <= clock <= at
      modifies this`addrs
      ensures Going(rules, kept, steps', now, at, done + {name}, addrs)
    {
      ghost var before := addrs;
      Place(name, got, at);
      PlaceIs(rules, before, name, got, at, addrs);
      ghost var done';
      steps', done' := PlaceNext(rules, kept, steps, now, clock, done, before, name, at, addrs);
    }

    /** The loop of `Load` over the remembered names, in map order. */
    method Relearn(now: int, end: int)
      requires now <= end
      modifies this`names, this`addrs
      ensures names == Unexpired(old(names), now)
      ensures Relearnt(rules, names, now, end, addrs)
    {
      addrs := map[];
      ghost var was, kept := names, Unexpired(names, now);
      ghost var steps: seq<Placing>, done: set<string> := [], {};
      var todo, clock := names.Keys, now;
      while todo != {}
        invariant todo <= was.Keys && now <= clock <= end
        invariant Half(was, todo, now, names)
        invariant forall n :: n in done <==> n in kept && n !in todo
        invariant Going(rules, kept, steps, now, clock, done, addrs)
      {
        var name :| name in todo;
        todo := todo - {name};
        if names[name].until < now {
          names := names - {name};
          continue;
        }
        var at: int :| clock <= at <= end;
        steps := PlaceKept(name, names[name], at, kept, steps, now, clock, done);
        clock, done := at, done + {name};
      }
      assert done == kept.Keys;
      GoneThrough(rules, kept, steps, now, clock, end, addrs);
    }
  }

  /** What a network says of an address: a bundle rule, held for no time of its own. */
  function OfNetwork(entry: Option<Entry>): Option<Learned> {
    match entry
    case None => None
    case Some(e) => Some(Learned(e.rule, e.role, true, 0))
  }

  const INHERIT := "default"

  /** The rules left once those that only inherit are taken out. */
  function Opinions(user: map<string, string>, bundle: map<string, Entry>): Rules {
    Rules(map n | n in user && user[n] != INHERIT :: user[n], map n | n in bundle && bundle[n].role != INHERIT :: bundle[n])
  }

  function Spoken(nets: seq<NetEntry>): (r: seq<NetEntry>)
    ensures forall n :: n in r ==> n in nets
  {
    if nets == [] then []
    else (if nets[0].entry.role != INHERIT then [nets[0]] else []) + Spoken(nets[1..])
  }

  /** The rules a Load keeps are those with a role of their own, just as given. */
  ghost predicate KeepsOpinions(user: map<string, string>, bundle: map<string, Entry>, r: Rules) {
    && (forall n :: n in r.user <==> n in user && user[n] != "default")
    && (forall n :: n in r.user ==> r.user[n] == user[n])
    && (forall n :: n in r.bundle <==> n in bundle && bundle[n].role != "default")
    && (forall n :: n in r.bundle ==> r.bundle[n] == bundle[n])
  }

  lemma {:induction false} SpokenIs(nets: seq<NetEntry>, n: NetEntry)
    ensures n in Spoken(nets) <==> n in nets && n.entry.role != "default"
    decreases |nets|
  {
    if nets != [] {
      SpokenIs(nets[1..], n);
      assert nets == [nets[0]] + nets[1..];
    }
  }

  /** Some network given with a role of its own holds the address. */
  ghost predicate NetSays(nets: seq<NetEntry>, a: Addr)
    requires AllValid(nets)
  {
    exists n :: n in nets && n.entry.role != "default" && n.prefix.Contains(a)
  }

  /** What the networks kept by a Load find: something exactly for the addresses some network
    with a role of its own holds, and, the roles being those there are, the rule and the
    role of such a network. */
  lemma NetworksFind(nets: seq<NetEntry>, few: seq<NetEntry>, many: seq<Set>, a: Addr, got: Option<Entry>)
    requires AllValid(nets) && SplitOf(Spoken(nets), few, many) && AllValid(few) && Finds(few, many, a, got)
    ensures got.Some? <==> NetSays(nets, a)
    ensures got.Some? && (forall n :: n in nets ==> IsRole(n.entry.role)) ==>
      got.value.role != "default" && exists n :: n in nets && n.entry == got.value && n.prefix.Contains(a)
  {
    var kept := Spoken(nets);
    forall n ensures n in kept <==> n in nets && n.entry.role != "default" { SpokenIs(nets, n); }
    SplitAgrees(kept, few, many, a);
    if got.Some? {
      FoundIsListed(kept, few, many, a, got.value);
      if forall n :: n in nets ==> IsRole(n.entry.role) { RolesTell(kept); }
    }
  }

  function Unexpired(names: Names, now: int): Names { map n | n in names && names[n].until >= now :: names[n] }

  function StillGood(addrs: Addrs, now: int): Addrs { map a | a in addrs && addrs[a].until >= now :: addrs[a] }

  // ------------------------------------------------------------- priority

  /** At time `t` an address in an unexpired answer of a user-ruled name is held by a user
    rule, so neither a bundle rule nor a bundle network can route it. */
  ghost predicate Guarded(r: Rules, names: Names, addrs: Addrs, t: int) {
    forall n, a :: n in names && UserRuled(r, n) && names[n].until >= t && a in Unmapped(names[n].addrs) ==>
      a in addrs && !addrs[a].low && addrs[a].until >= t
  }

  /** The remembered names when those in `todo` have still to be looked at. */
  ghost predicate Half(was: Names, todo: set<string>, now: int, names: Names) {
    && (forall n :: n in names <==> n in was && (n in todo || was[n].until >= now))
    && (forall n :: n in names ==> names[n] == was[n])
  }

  /** One `place` of a Load: a remembered name, and the clock as `place` reads it. */
  datatype Placing = Placing(name: string, at: int)

  ghost predicate Ordered(steps: seq<Placing>, now: int, end: int) {
    && (forall i :: 0 <= i < |steps| ==> now <= steps[i].at <= end)
    && forall i, j :: 0 <= i < j < |steps| ==> steps[i].at <= steps[j].at && steps[i].name != steps[j].name
  }

  ghost predicate InNames(steps: seq<Placing>, names: Names) {
    forall i :: 0 <= i < |steps| ==> steps[i].name in names
  }

  ghost predicate WasPlaced(steps: seq<Placing>, n: string) { exists i :: 0 <= i < |steps| && steps[i].name == n }

  /** The learned addresses after placing remembered names one after the other. */
  ghost function Replayed(r: Rules, names: Names, steps: seq<Placing>): Addrs
    requires InNames(steps, names)
  {
    if steps == [] then map[]
    else
      var k := |steps| - 1;
      AfterPlace(r, Replayed(r, names, steps[..k]), steps[k].name, names[steps[k].name], steps[k].at)
  }

  /** An order in which a Load between `now` and `end` may place the names it keeps. */
  ghost predicate IsOrder(names: Names, steps: seq<Placing>, now: int, end: int) {
    Ordered(steps, now, end) && InNames(steps, names) && forall n :: n in names ==> WasPlaced(steps, n)
  }

  ghost predicate Relearnt(r: Rules, names: Names, now: int, end: int, addrs: Addrs) {
    exists steps :: IsOrder(names, steps, now, end) && addrs == Replayed(r, names, steps)
  }

  /** A Load that has placed the names in `done`, last at `clock`. */
  ghost predicate Going(r: Rules, names: Names, steps: seq<Placing>, now: int, clock: int, done: set<string>, addrs: Addrs) {
    && Ordered(steps, now, clock) && InNames(steps, names)
    && (forall n :: WasPlaced(steps, n) <==> n in done)
    && addrs == Replayed(r, names, steps)
  }

  lemma GoesOn(r: Rules, names: Names, steps: seq<Placing>, now: int, clock: int, done: set<string>, addrs: Addrs, p: Placing)
    requires Going(r, names, steps, now, clock, done, addrs)
    requires p.name in names && p.name !in done && now <= clock <= p.at
    ensures Going(r, names, steps + [p], now, p.at, done + {p.name}, AfterPlace(r, addrs, p.name, names[p.name], p.at))
  {
    OrderedMore(names, steps, now, clock, p);
    assert (steps + [p])[..|steps|] == steps;
  }

  lemma OrderedMore(names: Names, steps: seq<Placing>, now: int, clock: int, p: Placing)
    requires Ordered(steps, now, clock) && InNames(steps, names) && !WasPlaced(steps, p.name)
    requires p.name in names && now <= clock <= p.at
    ensures Ordered(steps + [p], now, p.at) && InNames(steps + [p], names)
    ensures forall n :: WasPlaced(steps + [p], n) <==> WasPlaced(steps, n) || n == p.name
  {
    var more := steps + [p];
    assert more[|steps|] == p && forall i :: 0 <= i < |steps| ==> more[i] == steps[i];
    assert forall i :: 0 <= i < |steps| ==> WasPlaced(steps, steps[i].name);
    forall n ensures WasPlaced(more, n) <==> WasPlaced(steps, n) || n == p.name {
      if i :| 0 <= i < |steps| && steps[i].name == n { assert more[i].name == n; }
    }
  }

  lemma GoneThrough(r: Rules, names: Names, steps: seq<Placing>, now: int, clock: int, end: int, addrs: Addrs)
    requires Going(r, names, steps, now, clock, names.Keys, addrs) && clock <= end
    ensures Relearnt(r, names, now, end, addrs)
  {
    assert IsOrder(names, steps, now, end);
  }

  /** Remembered user-ruled answers that share an address agree on lasting to `t`. */
  ghost predicate Agree(r: Rules, names: Names, t: int) {
    forall n, m, a :: Shares(r, names, n, a) && Shares(r, names, m, a) && names[n].until >= t ==> names[m].until >= t
  }

  ghost predicate Shares(r: Rules, names: Names, n: string, a: Addr) {
    n in names && UserRuled(r, n) && a in Unmapped(names[n].addrs)
  }

  /** User rules hold at `t` for the names placed so far. */
  ghost predicate GuardedSoFar(r: Rules, names: Names, steps: seq<Placing>, addrs: Addrs, t: int) {
    forall n, a :: Shares(r, names, n, a) && WasPlaced(steps, n) && names[n].until >= t ==>
      a in addrs && !addrs[a].low && addrs[a].until >= t
  }

  lemma PlaceKeepsGuard(r: Rules, names: Names, steps: seq<Placing>, addrs: Addrs, p: Placing, t: int)
    requires GuardedSoFar(r, names, steps, addrs, t) && Agree(r, names, t)
    requires p.name in names && p.at <= t
    requires forall n :: WasPlaced(steps + [p], n) ==> WasPlaced(steps, n) || n == p.name
    ensures GuardedSoFar(r, names, steps + [p], AfterPlace(r, addrs, p.name, names[p.name], p.at), t)
  {
    var after := AfterPlace(r, addrs, p.name, names[p.name], p.at);
    forall n, a | Shares(r, names, n, a) && WasPlaced(steps + [p], n) && names[n].until >= t
      ensures a in after && !after[a].low && after[a].until >= t
    {
      if UserRuled(r, p.name) && a in Unmapped(names[p.name].addrs) { assert Shares(r, names, p.name, a); }
    }
  }

  lemma {:induction false} ReplayGuards(r: Rules, names: Names, steps: seq<Placing>, now: int, end: int, t: int)
    requires Ordered(steps, now, end) && InNames(steps, names) && end <= t && Agree(r, names, t)
    ensures GuardedSoFar(r, names, steps, Replayed(r, names, steps), t)
  {
    if steps != [] {
      var k := |steps| - 1;
      var front, p := steps[..k], steps[k];
      ReplayGuards(r, names, front, now, end, t);
      assert steps == front + [p];
      PlaceKeepsGuard(r, names, front, Replayed(r, names, front), p, t);
    }
  }

  lemma AgreedGuards(r: Rules, names: Names, now: int, end: int, addrs: Addrs, t: int)
    requires Relearnt(r, names, now, end, addrs) && end <= t && Agree(r, names, t)
    ensures Guarded(r, names, addrs, t)
  {
    var steps :| IsOrder(names, steps, now, end) && addrs == Replayed(r, names, steps);
    ReplayGuards(r, names, steps, now, end, t);
    forall n, a | n in names && UserRuled(r, n) && names[n].until >= t && a in Unmapped(names[n].addrs)
      ensures a in addrs && !addrs[a].low && addrs[a].until >= t
    {
      assert Shares(r, names, n, a) && WasPlaced(steps, n);
    }
  }

  /** The names of `done` can be placed one after the other, at one reading. */
  lemma {:induction false} SomeOrder(r: Rules, names: Names, done: set<string>, now: int)
    returns (steps: seq<Placing>, addrs: Addrs)
    requires done <= names.Keys
    ensures Going(r, names, steps, now, now, done, addrs)
  {
    if done == {} {
      steps, addrs := [], map[];
    } else {
      var n :| n in done;
      var front, before := SomeOrder(r, names, done - {n}, now);
      GoesOn(r, names, front, now, now, done - {n}, before, Placing(n, now));
      assert done - {n} + {n} == done;
      steps, addrs := front + [Placing(n, now)], AfterPlace(r, before, n, names[n], now);
    }
  }

  /** The last user-ruled name placed has its addresses, for as long as its answer lasts. */
  lemma LastPlacedWins(r: Rules, names: Names, now: int, end: int, m: string, a: Addr) returns (addrs: Addrs)
    requires now <= end && Shares(r, names, m, a)
    ensures Relearnt(r, names, now, end, addrs)
    ensures a in addrs && !addrs[a].low && addrs[a].until == names[m].until
  {
    var front, before := SomeOrder(r, names, names.Keys - {m}, now);
    GoesOn(r, names, front, now, now, names.Keys - {m}, before, Placing(m, now));
    assert names.Keys - {m} + {m} == names.Keys;
    addrs := AfterPlace(r, before, m, names[m], now);
    GoneThrough(r, names, front + [Placing(m, now)], now, now, end, addrs);
  }

  /** When user rules hold after a Load whatever order it goes in: exactly when remembered
    answers that share an address agree on lasting that long. */
  lemma LoadGuardsIff(r: Rules, names: Names, now: int, end: int, t: int)
    requires now <= end <= t
    ensures Agree(r, names, t) <==> forall addrs :: Relearnt(r, names, now, end, addrs) ==> Guarded(r, names, addrs, t)
  {
    if Agree(r, names, t) {
      forall addrs | Relearnt(r, names, now, end, addrs) ensures Guarded(r, names, addrs, t) {
        AgreedGuards(r, names, now, end, addrs, t);
      }
    } else {
      var n, m, a :| Shares(r, names, n, a) && Shares(r, names, m, a) && names[n].until >= t && names[m].until < t;
      var addrs := LastPlacedWins(r, names, now, end, m, a);
      assert !Guarded(r, names, addrs, t);
    }
  }

  datatype Lesson = Lesson(name: string, found: seq<Addr>, now: int, later: int)

  /** One Learn, by way of the tables `midNames` and `midAddrs` that purging may leave. */
  ghost predicate Learnt(r: Rules, names: Names, addrs: Addrs, l: Lesson, midNames: Names, midAddrs: Addrs,
                         names': Names, addrs': Addrs) {
    && (midNames == names || midNames == Unexpired(names, l.now))
    && (midAddrs == addrs || midAddrs == StillGood(addrs, l.now))
    && names' == midNames[l.name := Answer(l.found, l.now + KEEP)]
    && PlaceSpec(r, midAddrs, l.name, Answer(l.found, l.now + KEEP), l.later, addrs')
  }

  ghost predicate LearnSpec(r: Rules, names: Names, addrs: Addrs, l: Lesson, names': Names, addrs': Addrs) {
    exists midNames, midAddrs :: Learnt(r, names, addrs, l, midNames, midAddrs, names', addrs')
  }

  lemma LearntSo(r: Rules, names: Names, addrs: Addrs, l: Lesson, midNames: Names, midAddrs: Addrs, names': Names, addrs': Addrs)
    requires Learnt(r, names, addrs, l, midNames, midAddrs, names', addrs')
    ensures LearnSpec(r, names, addrs, l, names', addrs')
  {
  }

  ghost predicate LearnInv(r: Rules, names: Names, addrs: Addrs, clock: int) {
    && (forall n :: n in names ==> names[n].until <= clock + KEEP)
    && forall n, a :: n in names && UserRuled(r, n) && names[n].until >= clock && a in Unmapped(names[n].addrs) ==>
         a in addrs && !addrs[a].low && addrs[a].until >= names[n].until
  }

  lemma LearnKeepsInv(r: Rules, names: Names, addrs: Addrs, clock: int, l: Lesson, names': Names, addrs': Addrs)
    requires LearnInv(r, names, addrs, clock) && clock <= l.now <= l.later
    requires LearnSpec(r, names, addrs, l, names', addrs')
    ensures LearnInv(r, names', addrs', l.later)
  {
    var midNames, midAddrs :| Learnt(r, names, addrs, l, midNames, midAddrs, names', addrs');
    PurgeKeepsInv(r, names, addrs, clock, l.now, midNames, midAddrs);
    PlaceKeepsInv(r, midNames, midAddrs, l, names', addrs');
  }

  lemma PurgeKeepsInv(r: Rules, names: Names, addrs: Addrs, clock: int, now: int, names': Names, addrs': Addrs)
    requires LearnInv(r, names, addrs, clock) && clock <= now
    requires names' == names || names' == Unexpired(names, now)
    requires addrs' == addrs || addrs' == StillGood(addrs, now)
    ensures LearnInv(r, names', addrs', now)
  {
  }

  lemma PlaceKeepsInv(r: Rules, names: Names, addrs: Addrs, l: Lesson, names': Names, addrs': Addrs)
    requires LearnInv(r, names, addrs, l.now) && l.now <= l.later
    requires names' == names[l.name := Answer(l.found, l.now + KEEP)]
    requires PlaceSpec(r, addrs, l.name, Answer(l.found, l.now + KEEP), l.later, addrs')
    ensures LearnInv(r, names', addrs', l.later)
  {
    forall n, a | n in names' && UserRuled(r, n) && names'[n].until >= l.later && a in Unmapped(names'[n].addrs)
      ensures a in addrs' && !addrs'[a].low && addrs'[a].until >= names'[n].until
    {
      if n != l.name {
        assert n in names && a in addrs && !addrs[a].low;
      }
    }
  }

  datatype View = View(names: Names, addrs: Addrs)

  /** A run of Learn calls from an empty table, on a clock that never goes back. */
  ghost predicate Run(r: Rules, trace: seq<View>, lessons: seq<Lesson>, start: int) {
    && |trace| == |lessons| + 1
    && trace[0] == View(map[], map[])
    && forall i :: 0 <= i < |lessons| ==>
         && ClockAt(lessons, i, start) <= lessons[i].now <= lessons[i].later
         && LearnSpec(r, trace[i].names, trace[i].addrs, lessons[i], trace[i + 1].names, trace[i + 1].addrs)
  }

  /** The last clock reading before lesson `i`. */
  function ClockAt(lessons: seq<Lesson>, i: nat, start: int): int
    requires i <= |lessons|
  {
    if i == 0 then start else lessons[i - 1].later
  }

  lemma RunStep(r: Rules, trace: seq<View>, lessons: seq<Lesson>, start: int, i: nat)
    requires Run(r, trace, lessons, start) && i < |lessons|
    ensures ClockAt(lessons, i, start) <= lessons[i].now <= lessons[i].later == ClockAt(lessons, i + 1, start)
    ensures LearnSpec(r, trace[i].names, trace[i].addrs, lessons[i], trace[i + 1].names, trace[i + 1].addrs)
  {
  }

  lemma {:induction false} RunKeepsInv(r: Rules, trace: seq<View>, lessons: seq<Lesson>, start: int, i: nat)
    requires Run(r, trace, lessons, start) && i < |trace|
    ensures LearnInv(r, trace[i].names, trace[i].addrs, ClockAt(lessons, i, start))
  {
    if i > 0 {
      RunKeepsInv(r, trace, lessons, start, i - 1);
      RunStep(r, trace, lessons, start, i - 1);
      LearnKeepsInv(r, trace[i - 1].names, trace[i - 1].addrs, ClockAt(lessons, i - 1, start), lessons[i - 1],
                    trace[i].names, trace[i].addrs);
    }
  }

  /** Through any run of Learn, and at any later moment, user rules win. */
  lemma UserRuleWins(r: Rules, trace: seq<View>, lessons: seq<Lesson>, start: int, i: nat, t: int)
    requires Run(r, trace, lessons, start) && i < |trace| && t >= ClockAt(lessons, i, start)
    ensures Guarded(r, trace[i].names, trace[i].addrs, t)
  {
    RunKeepsInv(r, trace, lessons, start, i);
    InvGuards(r, trace[i].names, trace[i].addrs, ClockAt(lessons, i, start), t);
  }

  lemma InvGuards(r: Rules, names: Names, addrs: Addrs, clock: int, t: int)
    requires LearnInv(r, names, addrs, clock) && t >= clock
    ensures Guarded(r, names, addrs, t)
  {
  }

  // ------------------------------------------------------- loads and learning

  /** A table with its rules and the last clock reading, and what may happen to it. */
  datatype Life = Life(rules: Rules, names: Names, addrs: Addrs, clock: int)

  datatype Event = Learning(l: Lesson) | Reloading(rules: Rules, now: int, end: int)

  function Begins(e: Event): int { if e.Learning? then e.l.now else e.now }

  function Ends(e: Event): int { if e.Learning? then e.l.later else e.end }

  ghost predicate Happens(s: Life, e: Event, t: Life) {
    s.clock <= Begins(e) <= Ends(e) == t.clock &&
    match e
    case Learning(l) => t.rules == s.rules && LearnSpec(s.rules, s.names, s.addrs, l, t.names, t.addrs)
    case Reloading(r, now, end) =>
      t.rules == r && t.names == Unexpired(s.names, now) && Relearnt(r, t.names, now, end, t.addrs)
  }

  /** Any run of Load and Learn from a new table, on a clock that never goes back. */
  ghost predicate Lives(trace: seq<Life>, events: seq<Event>) {
    && |trace| == |events| + 1
    && trace[0].names == map[] && trace[0].addrs == map[]
    && forall i {:trigger events[i]} :: 0 <= i < |events| ==> Happens(trace[i], events[i], trace[i + 1])
  }

  lemma LifeStep(trace: seq<Life>, events: seq<Event>, i: nat) returns (s: Life, e: Event, t: Life)
    requires Lives(trace, events) && i < |events|
    ensures s == trace[i] && e == events[i] && t == trace[i + 1] && Happens(s, e, t)
  {
    s, e, t := trace[i], events[i], trace[i + 1];
  }

  ghost predicate NoneBeyond(names: Names, clock: int) { forall n :: n in names ==> names[n].until <= clock + KEEP }

  lemma EventKeepsBound(s: Life, e: Event, t: Life)
    requires Happens(s, e, t) && NoneBeyond(s.names, s.clock)
    ensures NoneBeyond(t.names, t.clock)
  {
    if e.Learning? {
      var midNames, midAddrs :| Learnt(s.rules, s.names, s.addrs, e.l, midNames, midAddrs, t.names, t.addrs);
    }
  }

  lemma {:induction false} NamesAreBounded(trace: seq<Life>, events: seq<Event>, i: nat)
    requires Lives(trace, events) && i < |trace|
    ensures NoneBeyond(trace[i].names, trace[i].clock)
  {
    if i > 0 {
      NamesAreBounded(trace, events, i - 1);
      var s, e, t := LifeStep(trace, events, i - 1);
      EventKeepsBound(s, e, t);
    }
  }

  /** What Learn hears lasts an hour, longer than anything heard before, so it takes no
    address from a user rule too early. */
  lemma LearnKeepsGuard(s: Life, l: Lesson, t: Life, at: int)
    requires Happens(s, Learning(l), t) && t.clock <= at
    requires NoneBeyond(s.names, s.clock) && Guarded(s.rules, s.names, s.addrs, at)
    ensures Guarded(t.rules, t.names, t.addrs, at)
  {
    var midNames, midAddrs :| Learnt(s.rules, s.names, s.addrs, l, midNames, midAddrs, t.names, t.addrs);
    GuardPurged(s, l.now, midNames, midAddrs, at);
    GuardPlaced(s.rules, midNames, midAddrs, l, t.names, t.addrs, s.clock, at);
  }

  lemma GuardPurged(s: Life, now: int, names: Names, addrs: Addrs, at: int)
    requires Guarded(s.rules, s.names, s.addrs, at) && now <= at
    requires names == s.names || names == Unexpired(s.names, now)
    requires addrs == s.addrs || addrs == StillGood(s.addrs, now)
    ensures Guarded(s.rules, names, addrs, at)
  {
  }

  lemma GuardPlaced(r: Rules, names: Names, addrs: Addrs, l: Lesson, names': Names, addrs': Addrs, clock: int, at: int)
    requires Guarded(r, names, addrs, at) && NoneBeyond(names, clock) && clock <= l.now && l.later <= at
    requires names' == names[l.name := Answer(l.found, l.now + KEEP)]
    requires PlaceSpec(r, addrs, l.name, Answer(l.found, l.now + KEEP), l.later, addrs')
    ensures Guarded(r, names', addrs', at)
  {
    forall n, a | n in names' && UserRuled(r, n) && names'[n].until >= at && a in Unmapped(names'[n].addrs)
      ensures a in addrs' && !addrs'[a].low && addrs'[a].until >= at
    {
      if n != l.name { assert a in addrs && !addrs[a].low && addrs[a].until >= at; }
    }
  }

  /** A user rule outlives what follows a Load: if the answers it kept agree on lasting to
    `at`, then through any Learns up to then no bundle rule takes their addresses. */
  lemma {:induction false} UserRuleWinsAfterLoad(trace: seq<Life>, events: seq<Event>, j: nat, i: nat, at: int)
    requires Lives(trace, events) && j < i < |trace| && events[j].Reloading?
    requires forall k :: j < k < i ==> events[k].Learning?
    requires Agree(trace[j + 1].rules, trace[j + 1].names, at) && trace[i].clock <= at
    ensures Guarded(trace[i].rules, trace[i].names, trace[i].addrs, at)
    decreases i
  {
    var s, e, t := LifeStep(trace, events, i - 1);
    if i == j + 1 {
      AgreedGuards(t.rules, t.names, e.now, e.end, t.addrs, at);
    } else {
      UserRuleWinsAfterLoad(trace, events, j, i - 1, at);
      NamesAreBounded(trace, events, i - 1);
      LearnKeepsGuard(s, e.l, t, at);
    }
  }

  /** A run of Load after which a bundle rule has an address although a user rule was given it
    for longer: "a" and "b" have user rules and "c" a bundle rule, they share the address
    and last to 10, 5 and 20; they are placed in that order, "c" at 6. */
  lemma LoadMayYield(x: Addr)
    requires Unmap(x) == x
    ensures var r := Rules(map["a" := "tunnel", "b" := "direct"], map["c" := Entry("list", "direct")]);
      var names: Names := map["a" := Answer([x], 10), "b" := Answer([x], 5), "c" := Answer([x], 20)];
      exists addrs: Addrs :: Relearnt(r, names, 1, 6, addrs) && x in addrs && addrs[x].low && !Guarded(r, names, addrs, 6)
  {
    var r := Rules(map["a" := "tunnel", "b" := "direct"], map["c" := Entry("list", "direct")]);
    var names: Names := map["a" := Answer([x], 10), "b" := Answer([x], 5), "c" := Answer([x], 20)];
    assert Unmapped([x]) == {x} by { assert Unmap([x][0]) == x; }
    assert DotAt("c") == 1;
    assert RuleOf(r, "a") == Some(Learned("a", "tunnel", false, 0));
    assert RuleOf(r, "b") == Some(Learned("b", "direct", false, 0));
    assert FirstTail("c", r.user.Keys) == None;
    assert RuleOf(r, "c") == Some(Learned("list", "direct", true, 0));
    var m1: Addrs := map[x := Learned("a", "tunnel", false, 10)];
    var m2: Addrs := map[x := Learned("b", "direct", false, 5)];
    var m3: Addrs := map[x := Learned("list", "direct", true, 20)];
    PlaceIs(r, map[], "a", names["a"], 1, m1);
    PlaceIs(r, m1, "b", names["b"], 1, m2);
    PlaceIs(r, m2, "c", names["c"], 6, m3);
    ThreePlaced(r, names, m1, m2, m3);
  }

  lemma ThreePlaced(r: Rules, names: Names, m1: Addrs, m2: Addrs, m3: Addrs)
    requires names.Keys == {"a", "b", "c"}
    requires m1 == AfterPlace(r, map[], "a", names["a"], 1)
    requires m2 == AfterPlace(r, m1, "b", names["b"], 1)
    requires m3 == AfterPlace(r, m2, "c", names["c"], 6)
    ensures Relearnt(r, names, 1, 6, m3)
  {
    var s1, d1 := PlaceNext(r, names, [], 1, 1, {}, map[], "a", 1, m1);
    var s2, d2 := PlaceNext(r, names, s1, 1, 1, d1, m1, "b", 1, m2);
    var s3, d3 := PlaceNext(r, names, s2, 1, 1, d2, m2, "c", 6, m3);
    assert d3 == names.Keys;
    GoneThrough(r, names, s3, 1, 6, 6, m3);
  }

  lemma PlaceNext(r: Rules, names: Names, steps: seq<Placing>, now: int, clock: int, done: set<string>, addrs: Addrs,
                  name: string, at: int, after: Addrs) returns (steps': seq<Placing>, done': set<string>)
    requires Going(r, names, steps, now, clock, done, addrs)
    requires name in names && name !in done && now <= clock <= at
    requires after == AfterPlace(r, addrs, name, names[name], at)
    ensures Going(r, names, steps', now, at, done', after) && done' == done + {name}
  {
    GoesOn(r, names, steps, now, clock, done, addrs, Placing(name, at));
    steps', done' := steps + [Placing(name, at)], done + {name};
  }
}
