/** Address groups of internal/domainroute/domainroute.go: a large group of prefixes is
  sorted and merged into disjoint spans that a bisection can search. */
module Spans {
  import opened Options
  import opened Net

  const FEW_NETS := 64

  // ------------------------------------------------------- the top address

  /** The bits of an address, most significant first: byte `i`, bit `7 - j` of Go's slice
    is bit `8*i + j` here. */
  type Bits = seq<bool>

  function ToBits(v: nat, n: nat): (r: Bits)
    ensures |r| == n
  {
    if n == 0 then [] else ToBits(v / 2, n - 1) + [v % 2 == 1]
  }

  function Value(b: Bits): nat {
    if b == [] then 0 else 2 * Value(b[..|b| - 1]) + if b[|b| - 1] then 1 else 0
  }

  function Same(bit: bool, n: nat): (r: Bits) { seq(n, _ => bit) }

  function Masked(p: Prefix): Bits
    requires p.Valid()
  {
    ToBits(p.val, Width(p.fam))[..p.bits] + Same(false, Width(p.fam) - p.bits)
  }

  method Last(p: Prefix) returns (top: Addr)
    requires p.Valid()
    ensures top == Addr(p.fam, p.Last())
  {
    var raw := Masked(p);
    for bit := p.bits to |raw|
      invariant |raw| == Width(p.fam)
      invariant raw == ToBits(p.val, |raw|)[..p.bits] + Same(true, bit - p.bits) + Same(false, |raw| - bit)
    {
      raw := raw[bit := true];
    }
    LastIsTop(p, raw);
    return Addr(p.fam, Value(raw));
  }

  lemma {:induction false} ValueExtends(b: Bits, bit: bool, n: nat)
    ensures Value(b + Same(bit, n)) == Value(b) * Pow2(n) + if bit then Pow2(n) - 1 else 0
  {
    if n == 0 {
      assert b + Same(bit, n) == b;
    } else {
      ValueExtends(b, bit, n - 1);
      var c := b + Same(bit, n);
      assert c[..|c| - 1] == b + Same(bit, n - 1) && c[|c| - 1] == bit;
      Doubled(Value(b), Pow2(n - 1));
    }
  }

  lemma Doubled(a: nat, s: nat)
    ensures a * (2 * s) == 2 * (a * s)
  {
  }

  lemma HalfThenDivide(v: nat, s: nat)
    requires s > 0
    ensures v / 2 / s == v / (2 * s)
  {
    var q := v / 2 / s;
    Divided(v / 2, s);
    Doubled(q, s);
    assert q * (2 * s) <= v < q * (2 * s) + 2 * s;
    Quotient(v, q, 2 * s);
  }

  lemma {:induction false} ValuePrefix(v: nat, n: nat, b: nat)
    requires b <= n && v < Pow2(n)
    ensures Value(ToBits(v, n)[..b]) == v / Pow2(n - b)
    decreases n
  {
    if b == 0 {
      Quotient(v, 0, Pow2(n));
    } else if b < n {
      assert ToBits(v, n)[..b] == ToBits(v / 2, n - 1)[..b];
      ValuePrefix(v / 2, n - 1, b);
      HalfThenDivide(v, Pow2(n - 1 - b));
    } else {
      var c := ToBits(v, n);
      assert c[..n] == c && c[..n - 1] == ToBits(v / 2, n - 1)[..n - 1];
      ValuePrefix(v / 2, n - 1, n - 1);
    }
  }

  /** Setting every bit after the prefix gives the top address of the prefix. */
  lemma LastIsTop(p: Prefix, raw: Bits)
    requires p.Valid()
    requires raw == ToBits(p.val, Width(p.fam))[..p.bits] + Same(true, Width(p.fam) - p.bits) + Same(false, 0)
    ensures Value(raw) == p.Last()
  {
    var w := Width(p.fam);
    var front := ToBits(p.val, w)[..p.bits];
    assert raw == front + Same(true, w - p.bits);
    ValueExtends(front, true, w - p.bits);
    ValuePrefix(p.val, w, p.bits);
    FloorIs(p.val, p.Size());
  }

  lemma {:induction false} ValueTells(b: Bits, c: Bits)
    requires |b| == |c| && Value(b) == Value(c)
    ensures b == c
  {
    if b != [] {
      ValueTells(b[..|b| - 1], c[..|c| - 1]);
      assert b == b[..|b| - 1] + [b[|b| - 1]] && c == c[..|c| - 1] + [c[|c| - 1]];
    }
  }

  /** A prefix holds the addresses of its family that begin with its bits. */
  lemma ContainsSameBits(p: Prefix, a: Addr)
    requires p.Valid() && a.val < Pow2(Width(a.fam))
    ensures p.Contains(a) <==>
      a.fam == p.fam && ToBits(a.val, Width(a.fam))[..p.bits] == ToBits(p.val, Width(p.fam))[..p.bits]
  {
    if a.fam == p.fam {
      var w, s := Width(p.fam), p.Size();
      var b, c := ToBits(a.val, w)[..p.bits], ToBits(p.val, w)[..p.bits];
      ValuePrefix(a.val, w, p.bits);
      ValuePrefix(p.val, w, p.bits);
      FloorIs(a.val, s);
      FloorIs(p.val, s);
      if a.val / s * s == p.val / s * s { Quotients(a.val, p.val, s); }
      if Value(b) == Value(c) { ValueTells(b, c); }
    }
  }

  lemma Quotients(x: nat, y: nat, s: nat)
    requires s > 0 && x / s * s == y / s * s
    ensures x / s == y / s
  {
    Divided(y, s);
    Quotient(y, x / s, s);
  }

  // ---------------------------------------------------------------- order

  predicate Le(a: Addr, b: Addr) {
    if a.fam == b.fam then a.val <= b.val else a.fam == V4
  }

  predicate Lt(a: Addr, b: Addr) { Le(a, b) && a != b }

  function FirstOf(p: Prefix): Addr
    requires p.Valid()
  {
    Addr(p.fam, p.First())
  }

  datatype Entry = Entry(rule: string, role: string)

  datatype NetEntry = NetEntry(prefix: Prefix, entry: Entry)

  datatype Set = Set(entry: Entry, lo: seq<Addr>, hi: seq<Addr>)

  ghost predicate AllValid(nets: seq<NetEntry>) { forall n :: n in nets ==> n.prefix.Valid() }

  ghost predicate Sorted(nets: seq<NetEntry>)
    requires AllValid(nets)
  {
    forall i, j :: 0 <= i < j < |nets| ==> Le(FirstOf(nets[i].prefix), FirstOf(nets[j].prefix))
  }

  /** `sort.Slice` by masked address; ties may come out in any order. */
  ghost predicate SortOf(group: seq<NetEntry>, sorted: seq<NetEntry>)
    requires AllValid(group)
  {
    |sorted| == |group| && (forall n :: n in sorted <==> n in group) && Sorted(sorted)
  }

  function Insert(n: NetEntry, s: seq<NetEntry>): (r: seq<NetEntry>)
    requires n.prefix.Valid() && AllValid(s)
    ensures |r| == |s| + 1 && forall m :: m in r <==> m == n || m in s
  {
    if s == [] || Le(FirstOf(n.prefix), FirstOf(s[0].prefix)) then [n] + s
    else
      assert s == [s[0]] + s[1..];
      [s[0]] + Insert(n, s[1..])
  }

  lemma {:induction false} InsertSorts(n: NetEntry, s: seq<NetEntry>)
    requires n.prefix.Valid() && AllValid(s) && Sorted(s)
    ensures Sorted(Insert(n, s))
  {
    if s != [] && !Le(FirstOf(n.prefix), FirstOf(s[0].prefix)) {
      var rest := Insert(n, s[1..]);
      InsertSorts(n, s[1..]);
      forall m | m in rest ensures Le(FirstOf(s[0].prefix), FirstOf(m.prefix)) {
        if m != n { assert m in s[1..]; }
      }
    }
  }

  function Sort(group: seq<NetEntry>): (r: seq<NetEntry>)
    requires AllValid(group)
    ensures |r| == |group| && forall n :: n in r <==> n in group
  {
    if group == [] then []
    else
      assert group == [group[0]] + group[1..];
      Insert(group[0], Sort(group[1..]))
  }

  lemma {:induction false} SortSorts(group: seq<NetEntry>)
    requires AllValid(group)
    ensures SortOf(group, Sort(group))
  {
    if group != [] {
      SortSorts(group[1..]);
      InsertSorts(group[0], Sort(group[1..]));
    }
  }

  // ---------------------------------------------------------------- spans

  predicate Between(lo: Addr, a: Addr, hi: Addr) { lo.fam == a.fam && lo.val <= a.val <= hi.val }

  /** Spans as `sortNets` builds them: none empty, each ending before the next begins. */
  ghost predicate Apart(lo: seq<Addr>, hi: seq<Addr>) {
    && |lo| == |hi|
    && (forall i :: 0 <= i < |lo| ==> lo[i].fam == hi[i].fam && lo[i].val <= hi[i].val)
    && (forall i, j :: 0 <= i < j < |lo| ==> Lt(hi[i], lo[j]))
  }

  ghost predicate Covers(lo: seq<Addr>, hi: seq<Addr>, a: Addr) {
    exists i :: 0 <= i < |lo| && i < |hi| && Between(lo[i], a, hi[i])
  }

  ghost predicate SomeContains(nets: seq<NetEntry>, a: Addr)
    requires AllValid(nets)
  {
    exists n :: n in nets && n.prefix.Contains(a)
  }

  /** `spans.has`: bisection for the last span starting at or before the address. */
  method Has(s: Set, a: Addr) returns (found: bool)
    requires Apart(s.lo, s.hi)
    ensures found == Covers(s.lo, s.hi, a)
  {
    var i, j := 0, |s.lo|;
    while i < j
      invariant 0 <= i <= j <= |s.lo|
      invariant forall k :: 0 <= k < i ==> Le(s.lo[k], a)
      invariant forall k :: j <= k < |s.lo| ==> !Le(s.lo[k], a)
    {
      var h := (i + j) / 2;
      if Le(s.lo[h], a) { i := h + 1; } else { j := h; }
    }
    i := i - 1;
    found := i >= 0 && s.lo[i].fam == a.fam && Le(a, s.hi[i]);
    if found { assert Between(s.lo[i], a, s.hi[i]); }
  }

  /** The merging loop over a sorted group. */
  method Merge(entry: Entry, sorted: seq<NetEntry>) returns (s: Set)
    requires AllValid(sorted) && Sorted(sorted)
    ensures s.entry == entry && Apart(s.lo, s.hi)
    ensures forall a :: Covers(s.lo, s.hi, a) <==> SomeContains(sorted, a)
  {
    var lo: seq<Addr>, hi: seq<Addr> := [], [];
    for k := 0 to |sorted|
      invariant Apart(lo, hi)
      invariant forall i, m :: 0 <= i < |lo| && k <= m < |sorted| ==> Le(lo[i], FirstOf(sorted[m].prefix))
      invariant forall a :: Covers(lo, hi, a) <==> SomeContains(sorted[..k], a)
    {
      var p := sorted[k].prefix;
      var first := FirstOf(p);
      var top := Last(p);
      var at := |hi| - 1;
      ghost var lo0, hi0 := lo, hi;
      if at >= 0 && hi[at].fam == first.fam && Le(first, hi[at]) {
        if Lt(hi[at], top) { hi := hi[at := top]; }
      } else {
        lo := lo + [first];
        hi := hi + [top];
      }
      CoverGrows(sorted, k, lo0, hi0, lo, hi);
    }
    assert sorted[..|sorted|] == sorted;
    s := Set(entry, lo, hi);
  }

  /** One step of the merge adds exactly the addresses of one prefix. */
  lemma CoverGrows(sorted: seq<NetEntry>, k: nat, lo: seq<Addr>, hi: seq<Addr>, lo': seq<Addr>, hi': seq<Addr>)
    requires AllValid(sorted) && k < |sorted| && Apart(lo, hi) && |lo'| == |hi'|
    requires forall a :: Covers(lo, hi, a) <==> SomeContains(sorted[..k], a)
    requires var p := sorted[k].prefix; var first, top := FirstOf(p), Addr(p.fam, p.Last());
      if |hi| > 0 && hi[|hi| - 1].fam == p.fam && Le(first, hi[|hi| - 1]) then
        Le(lo[|lo| - 1], first) && lo' == lo && hi' == if Lt(hi[|hi| - 1], top) then hi[|hi| - 1 := top] else hi
      else lo' == lo + [first] && hi' == hi + [top]
    ensures forall a :: Covers(lo', hi', a) <==> SomeContains(sorted[..k + 1], a)
  {
    forall a ensures Covers(lo', hi', a) <==> SomeContains(sorted[..k + 1], a) {
      ContainsIsRange(sorted[k].prefix, a);
      OneMore(sorted, k, a);
      CoverStep(sorted[k].prefix, lo, hi, lo', hi', a);
    }
  }

  lemma OneMore(nets: seq<NetEntry>, k: nat, a: Addr)
    requires AllValid(nets) && k < |nets|
    ensures SomeContains(nets[..k + 1], a) <==> SomeContains(nets[..k], a) || nets[k].prefix.Contains(a)
  {
    assert nets[..k + 1] == nets[..k] + [nets[k]];
    if nets[k].prefix.Contains(a) { assert nets[k] in nets[..k + 1]; }
  }

  lemma CoverStep(p: Prefix, lo: seq<Addr>, hi: seq<Addr>, lo': seq<Addr>, hi': seq<Addr>, a: Addr)
    requires p.Valid() && Apart(lo, hi) && |lo'| == |hi'|
    requires var first, top := FirstOf(p), Addr(p.fam, p.Last());
      if |hi| > 0 && hi[|hi| - 1].fam == p.fam && Le(first, hi[|hi| - 1]) then
        Le(lo[|lo| - 1], first) && lo' == lo && hi' == if Lt(hi[|hi| - 1], top) then hi[|hi| - 1 := top] else hi
      else lo' == lo + [first] && hi' == hi + [top]
    ensures Covers(lo', hi', a) <==> Covers(lo, hi, a) || Between(FirstOf(p), a, Addr(p.fam, p.Last()))
  {
    var n := |lo'| - 1;
    if Covers(lo, hi, a) {
      var i :| 0 <= i < |lo| && i < |hi| && Between(lo[i], a, hi[i]);
      assert Between(lo'[i], a, hi'[i]);
    }
    if Between(FirstOf(p), a, Addr(p.fam, p.Last())) {
      assert Between(lo'[n], a, hi'[n]);
    }
    if Covers(lo', hi', a) {
      var i :| 0 <= i < |lo'| && i < |hi'| && Between(lo'[i], a, hi'[i]);
      if i < n { assert Between(lo[i], a, hi[i]); }
      else if |lo'| == |lo| && a.val <= hi[n].val { assert Between(lo[n], a, hi[n]); }
    }
  }

  // --------------------------------------------------------------- groups

  /** What `sortNets` groups by: the rule and the role run together. */
  function Key(e: Entry): string { e.rule + e.role }

  function OfKey(nets: seq<NetEntry>, key: string): (r: seq<NetEntry>)
    ensures forall n :: n in r <==> n in nets && Key(n.entry) == key
  {
    if nets == [] then []
    else
      var front, n := nets[..|nets| - 1], nets[|nets| - 1];
      assert nets == front + [n];
      OfKey(front, key) + if Key(n.entry) == key then [n] else []
  }

  /** A span set holds exactly the addresses of the prefixes of its group. */
  ghost predicate SetOf(s: Set, nets: seq<NetEntry>)
    requires AllValid(nets)
  {
    && Apart(s.lo, s.hi)
    && (exists n :: n in nets && n.entry == s.entry)
    && forall a :: Covers(s.lo, s.hi, a) <==> SomeContains(OfKey(nets, Key(s.entry)), a)
  }

  /** Every net is either listed or its group has become a span set. */
  ghost predicate Placed(n: NetEntry, few: seq<NetEntry>, many: seq<Set>) {
    n in few || exists s :: s in many && Key(s.entry) == Key(n.entry)
  }

  ghost predicate SplitOf(nets: seq<NetEntry>, few: seq<NetEntry>, many: seq<Set>)
    requires AllValid(nets)
  {
    && (forall n :: n in few ==> n in nets)
    && (forall s :: s in many ==> SetOf(s, nets))
    && (forall n :: n in nets ==> Placed(n, few, many))
  }

  ghost predicate Grouped(nets: seq<NetEntry>, k: nat, byRule: map<string, seq<NetEntry>>)
    requires k <= |nets|
  {
    && (forall i :: 0 <= i < k ==> Key(nets[i].entry) in byRule)
    && forall key :: if key in byRule then byRule[key] == OfKey(nets[..k], key) != [] else OfKey(nets[..k], key) == []
  }

  lemma GroupedStep(nets: seq<NetEntry>, k: nat, byRule: map<string, seq<NetEntry>>)
    requires k < |nets| && Grouped(nets, k, byRule)
    ensures var key := Key(nets[k].entry);
      Grouped(nets, k + 1, byRule[key := if key in byRule then byRule[key] + [nets[k]] else [nets[k]]])
  {
    forall key ensures OfKey(nets[..k + 1], key) == OfKey(nets[..k], key) + if Key(nets[k].entry) == key then [nets[k]] else [] {
      OfKeyStep(nets, k, key);
    }
  }

  lemma OfKeyStep(nets: seq<NetEntry>, k: nat, key: string)
    requires k < |nets|
    ensures OfKey(nets[..k + 1], key) == OfKey(nets[..k], key) + if Key(nets[k].entry) == key then [nets[k]] else []
  {
    assert nets[..k + 1][..k] == nets[..k];
  }

  /** Where the first net of a key stands. */
  function FirstAt(nets: seq<NetEntry>, key: string): (r: nat)
    ensures r <= |nets|
    ensures r < |nets| ==> Key(nets[r].entry) == key
    ensures forall j :: 0 <= j < r ==> Key(nets[j].entry) != key
  {
    if nets == [] || Key(nets[0].entry) == key then 0 else 1 + FirstAt(nets[1..], key)
  }

  function KeysOf(nets: seq<NetEntry>): (r: seq<string>)
    ensures |r| == |nets| && forall j :: 0 <= j < |r| ==> r[j] == Key(nets[j].entry)
  {
    seq(|nets|, j requires 0 <= j < |nets| => Key(nets[j].entry))
  }

  /** `first` tells where a key is new. */
  ghost predicate Firsts(ks: seq<string>, first: string -> nat) {
    forall k :: 0 <= k < |ks| && (forall j :: 0 <= j < k ==> ks[j] != ks[k]) ==> first(ks[k]) == k
  }

  lemma FirstIs(nets: seq<NetEntry>, k: nat)
    requires k < |nets| && forall j :: 0 <= j < k ==> Key(nets[j].entry) != Key(nets[k].entry)
    ensures FirstAt(nets, Key(nets[k].entry)) == k
  {
  }

  /** The first `k` keys, each once, in order of appearance. */
  ghost predicate Appear(ks: seq<string>, k: nat, order: seq<string>, first: string -> nat)
    requires k <= |ks|
  {
    && (forall j :: 0 <= j < k ==> ks[j] in order)
    && (forall x :: 0 <= x < |order| ==> first(order[x]) < k)
    && forall x, y :: 0 <= x < y < |order| ==> first(order[x]) < first(order[y])
  }

  lemma AppearStep(ks: seq<string>, k: nat, order: seq<string>, more: seq<string>, first: string -> nat)
    requires k < |ks| && Firsts(ks, first) && Appear(ks, k, order, first)
    requires more == if ks[k] in order then order else order + [ks[k]]
    ensures Appear(ks, k + 1, more, first)
  {
    if ks[k] !in order {
      assert more[|order|] == ks[k];
      assert first(ks[k]) == k;
    }
  }

  /** The first `k` keys, each once, as the loop of `sortNets` collects them. */
  function OrderOf(ks: seq<string>, k: nat): seq<string>
    requires k <= |ks|
  {
    if k == 0 then []
    else
      var order := OrderOf(ks, k - 1);
      if ks[k - 1] in order then order else order + [ks[k - 1]]
  }

  lemma OrderAppears(ks: seq<string>, first: string -> nat)
    requires Firsts(ks, first)
    ensures Appear(ks, |ks|, OrderOf(ks, |ks|), first)
  {
    var k: nat, order := 0, [];
    while k < |ks|
      invariant k <= |ks| && order == OrderOf(ks, k)
      invariant Appear(ks, k, order, first)
    {
      AppearStep(ks, k, order, OrderOf(ks, k + 1), first);
      k, order := k + 1, OrderOf(ks, k + 1);
    }
  }

  lemma OrderStep(ks: seq<string>, k: nat, order: seq<string>, key: string)
    requires k < |ks| && order == OrderOf(ks, k) && key == ks[k]
    ensures OrderOf(ks, k + 1) == if key in order then order else order + [key]
  {
  }

  method GroupNets(nets: seq<NetEntry>, ghost ks: seq<string>)
    returns (byRule: map<string, seq<NetEntry>>, order: seq<string>)
    requires |ks| == |nets| && forall j :: 0 <= j < |ks| ==> ks[j] == Key(nets[j].entry)
    ensures forall key :: key in order <==> key in byRule
    ensures Grouped(nets, |nets|, byRule)
    ensures order == OrderOf(ks, |ks|)
  {
    byRule, order := map[], [];
    for k := 0 to |nets|
      invariant forall key :: key in order <==> key in byRule
      invariant Grouped(nets, k, byRule)
      invariant order == OrderOf(ks, k)
    {
      var n := nets[k];
      var key := Key(n.entry);
      GroupedStep(nets, k, byRule);
      OrderStep(ks, k, order, key);
      if key !in byRule {
        order := order + [key];
        byRule := byRule[key := [n]];
      } else {
        byRule := byRule[key := byRule[key] + [n]];
      }
    }
  }

  /** `at` tells where the first net of a rule and role stands, `size` how many it has. */
  ghost predicate Measures(nets: seq<NetEntry>, at: Entry -> nat, size: Entry -> nat) {
    && (forall e: Entry {:trigger FirstAt(nets, Key(e))} :: at(e) == FirstAt(nets, Key(e)))
    && (forall e: Entry {:trigger OfKey(nets, Key(e))} :: size(e) == |OfKey(nets, Key(e))|)
  }

  /** Group `k` is the one that starts at `bound(k)`, and its nets know it. */
  ghost predicate Bounded(byRule: map<string, seq<NetEntry>>, order: seq<string>, at: Entry -> nat, size: Entry -> nat,
                          bound: nat -> nat) {
    && (forall k: nat :: k < |order| ==> order[k] in byRule && bound(k) < bound(k + 1))
    && forall k: nat, n :: k < |order| && order[k] in byRule && n in byRule[order[k]] ==>
         at(n.entry) == bound(k) && size(n.entry) == |byRule[order[k]]|
  }

  lemma Measured(nets: seq<NetEntry>, byRule: map<string, seq<NetEntry>>, order: seq<string>, first: string -> nat)
    returns (at: Entry -> nat, size: Entry -> nat, bound: nat -> nat)
    requires (forall key :: key in order <==> key in byRule) && Grouped(nets, |nets|, byRule)
    requires Appear(KeysOf(nets), |nets|, order, first)
    requires forall key {:trigger FirstAt(nets, key)} :: first(key) == FirstAt(nets, key)
    ensures Measures(nets, at, size) && Bounded(byRule, order, at, size, bound)
  {
    at, size := (e: Entry) => first(Key(e)), (e: Entry) => |OfKey(nets, Key(e))|;
    bound := (k: nat) => if k < |order| then first(order[k]) else |nets|;
    forall k: nat, n | k < |order| && n in byRule[order[k]]
      ensures at(n.entry) == bound(k) && size(n.entry) == |byRule[order[k]]|
    {
      GroupMeets(nets, byRule, order[k], n);
    }
  }

  lemma GroupMeets(nets: seq<NetEntry>, byRule: map<string, seq<NetEntry>>, key: string, n: NetEntry)
    requires Grouped(nets, |nets|, byRule) && key in byRule && n in byRule[key]
    ensures byRule[key] == OfKey(nets, key) && Key(n.entry) == key
  {
    assert nets[..|nets|] == nets;
  }

  lemma FirstsTell(nets: seq<NetEntry>, first: string -> nat)
    requires forall key {:trigger FirstAt(nets, key)} :: first(key) == FirstAt(nets, key)
    ensures Firsts(KeysOf(nets), first)
  {
    var ks := KeysOf(nets);
    forall k | 0 <= k < |ks| && forall j :: 0 <= j < k ==> ks[j] != ks[k] ensures first(ks[k]) == k {
      assert forall j :: 0 <= j < k ==> ks[j] == Key(nets[j].entry);
      FirstIs(nets, k);
    }
  }

  method GroupInOrder(nets: seq<NetEntry>)
    returns (byRule: map<string, seq<NetEntry>>, order: seq<string>, ghost at: Entry -> nat, ghost size: Entry -> nat,
             ghost bound: nat -> nat)
    ensures forall key :: key in order <==> key in byRule
    ensures Grouped(nets, |nets|, byRule)
    ensures Measures(nets, at, size) && Bounded(byRule, order, at, size, bound)
  {
    ghost var first := key => FirstAt(nets, key);
    FirstsTell(nets, first);
    byRule, order := GroupNets(nets, KeysOf(nets));
    OrderAppears(KeysOf(nets), first);
    at, size, bound := Measured(nets, byRule, order, first);
  }

  ghost predicate FewInTurn(few: seq<NetEntry>, at: Entry -> nat, size: Entry -> nat, bound: nat) {
    && (forall i :: 0 <= i < |few| ==> size(few[i].entry) <= 64 && at(few[i].entry) < bound)
    && forall i, j :: 0 <= i < j < |few| ==> at(few[i].entry) <= at(few[j].entry)
  }

  ghost predicate ManyInTurn(many: seq<Set>, at: Entry -> nat, size: Entry -> nat, bound: nat) {
    && (forall i :: 0 <= i < |many| ==> size(many[i].entry) > 64 && at(many[i].entry) < bound)
    && forall i, j :: 0 <= i < j < |many| ==> at(many[i].entry) <= at(many[j].entry)
  }

  /** The groups looked at so far are searched in turn: those of up to 64 nets first, each
    kind in the order in which the rule and role first appear. */
  ghost predicate InTurn(few: seq<NetEntry>, many: seq<Set>, at: Entry -> nat, size: Entry -> nat, bound: nat) {
    FewInTurn(few, at, size, bound) && ManyInTurn(many, at, size, bound)
  }

  lemma FewMore(few: seq<NetEntry>, many: seq<Set>, group: seq<NetEntry>, at: Entry -> nat, size: Entry -> nat,
                here: nat, bound: nat)
    requires InTurn(few, many, at, size, here) && here < bound && |group| <= 64
    requires forall n :: n in group ==> at(n.entry) == here && size(n.entry) == |group|
    ensures InTurn(few + group, many, at, size, bound)
  {
    forall i | 0 <= i < |group| ensures at(group[i].entry) == here && size(group[i].entry) <= 64 {
      assert group[i] in group;
    }
  }

  lemma ManyMore(few: seq<NetEntry>, many: seq<Set>, s: Set, at: Entry -> nat, size: Entry -> nat, here: nat, bound: nat)
    requires InTurn(few, many, at, size, here) && here < bound && at(s.entry) == here && size(s.entry) > 64
    ensures InTurn(few, many + [s], at, size, bound)
  {
  }

  ghost predicate Ranked(nets: seq<NetEntry>, few: seq<NetEntry>, many: seq<Set>) {
    exists at, size, bound :: Measures(nets, at, size) && InTurn(few, many, at, size, bound)
  }

  lemma PlacedMore(nets: seq<NetEntry>, few0: seq<NetEntry>, many0: seq<Set>, few: seq<NetEntry>, many: seq<Set>,
                   order: seq<string>, k: nat)
    requires k < |order| && few0 <= few && many0 <= many
    requires forall n :: n in nets && Key(n.entry) in order[..k] ==> Placed(n, few0, many0)
    requires forall n :: n in nets && Key(n.entry) == order[k] ==> Placed(n, few, many)
    ensures forall n :: n in nets && Key(n.entry) in order[..k + 1] ==> Placed(n, few, many)
  {
    assert order[..k + 1] == order[..k] + [order[k]];
    forall n | n in nets && Key(n.entry) in order[..k] ensures Placed(n, few, many) {
      assert Placed(n, few0, many0);
      assert n in few0 ==> n in few;
      assert forall s :: s in many0 ==> s in many;
    }
  }

  /** A big group, sorted and merged, under the entry that comes first. */
  method MakeSet(group: seq<NetEntry>) returns (s: Set)
    requires AllValid(group) && group != []
    ensures Apart(s.lo, s.hi) && exists n :: n in group && n.entry == s.entry
    ensures forall a :: Covers(s.lo, s.hi, a) <==> SomeContains(group, a)
  {
    var sorted := Sort(group);
    SortSorts(group);
    s := Merge(sorted[0].entry, sorted);
    assert sorted[0] in group;
    SameContains(sorted, group);
  }

  method SortNets(nets: seq<NetEntry>) returns (few: seq<NetEntry>, many: seq<Set>)
    requires AllValid(nets)
    ensures SplitOf(nets, few, many)
    ensures Ranked(nets, few, many)
  {
    ghost var at, size, bound;
    var byRule, order;
    byRule, order, at, size, bound := GroupInOrder(nets);
    assert nets[..|nets|] == nets;
    few, many := [], [];
    for k := 0 to |order|
      invariant forall n :: n in few ==> n in nets
      invariant forall s :: s in many ==> SetOf(s, nets)
      invariant forall n :: n in nets && Key(n.entry) in order[..k] ==> Placed(n, few, many)
      invariant InTurn(few, many, at, size, bound(k))
    {
      ghost var few0, many0 := few, many;
      var group := byRule[order[k]];
      if |group| <= FEW_NETS {
        FewMore(few, many, group, at, size, bound(k), bound(k + 1));
        few := few + group;
      } else {
        var set' := MakeSet(group);
        ManyMore(few, many, set', at, size, bound(k), bound(k + 1));
        many := many + [set'];
        assert many[|many| - 1] == set';
      }
      PlacedMore(nets, few0, many0, few, many, order, k);
    }
    assert order[..|order|] == order;
  }

  /** The turn at which the nets of a key are searched. */
  function Turn(nets: seq<NetEntry>, key: string): nat {
    FirstAt(nets, key) + if |OfKey(nets, key)| <= 64 then 0 else |nets|
  }

  /** Of all the networks that hold an address those of the key found are searched first. */
  lemma FoundFirst(nets: seq<NetEntry>, few: seq<NetEntry>, many: seq<Set>, a: Addr, e: Entry, n: NetEntry)
    requires AllValid(nets) && SplitOf(nets, few, many) && Ranked(nets, few, many)
    requires AllValid(few) && Finds(few, many, a, Some(e))
    requires n in nets && n.prefix.Contains(a)
    ensures Turn(nets, Key(e)) <= Turn(nets, Key(n.entry))
  {
    var at, size, bound :| Measures(nets, at, size) && InTurn(few, many, at, size, bound);
    FoundInTurn(nets, few, many, a, e, n, at, size, bound);
    assert at(e) == FirstAt(nets, Key(e)) && at(n.entry) == FirstAt(nets, Key(n.entry));
    assert size(e) == |OfKey(nets, Key(e))| && size(n.entry) == |OfKey(nets, Key(n.entry))|;
  }

  lemma FoundInTurn(nets: seq<NetEntry>, few: seq<NetEntry>, many: seq<Set>, a: Addr, e: Entry, n: NetEntry,
                    at: Entry -> nat, size: Entry -> nat, bound: nat)
    requires AllValid(nets) && SplitOf(nets, few, many) && Measures(nets, at, size) && InTurn(few, many, at, size, bound)
    requires AllValid(few) && Finds(few, many, a, Some(e))
    requires n in nets && n.prefix.Contains(a)
    ensures size(e) <= 64 < size(n.entry) || ((size(e) <= 64 <==> size(n.entry) <= 64) && at(e) <= at(n.entry))
  {
    if n in few {
      FewFirst(few, many, a, e, n, at, size, bound);
    } else {
      var j := SetAt(nets, few, many, n, at, size, bound, a);
      ManyFirst(few, many, a, e, j, at, size, bound);
    }
  }

  lemma FewFirst(few: seq<NetEntry>, many: seq<Set>, a: Addr, e: Entry, n: NetEntry, at: Entry -> nat, size: Entry -> nat,
                 bound: nat)
    requires AllValid(few) && FewInTurn(few, at, size, bound) && Finds(few, many, a, Some(e))
    requires n in few && n.prefix.Contains(a)
    ensures size(e) <= 64 && size(n.entry) <= 64 && at(e) <= at(n.entry)
  {
    var i: nat :| FirstFew(few, a, i) && Some(e) == Some(few[i].entry);
    var j :| 0 <= j < |few| && few[j] == n;
  }

  lemma ManyFirst(few: seq<NetEntry>, many: seq<Set>, a: Addr, e: Entry, j: nat, at: Entry -> nat, size: Entry -> nat,
                  bound: nat)
    requires AllValid(few) && InTurn(few, many, at, size, bound) && Finds(few, many, a, Some(e))
    requires j < |many| && Covers(many[j].lo, many[j].hi, a)
    ensures size(many[j].entry) > 64 && (size(e) <= 64 || at(e) <= at(many[j].entry))
  {
    if SomeContains(few, a) {
      var i: nat :| FirstFew(few, a, i) && Some(e) == Some(few[i].entry);
    } else {
      assert many[j] in many;
      var i: nat :| FirstSet(many, a, i) && Some(e) == Some(many[i].entry);
    }
  }

  /** A net that is not listed one by one has its set among the many. */
  lemma SetAt(nets: seq<NetEntry>, few: seq<NetEntry>, many: seq<Set>, n: NetEntry, at: Entry -> nat, size: Entry -> nat,
              bound: nat, a: Addr) returns (j: nat)
    requires AllValid(nets) && SplitOf(nets, few, many) && Measures(nets, at, size) && InTurn(few, many, at, size, bound)
    requires n in nets && n.prefix.Contains(a) && n !in few
    ensures j < |many| && Covers(many[j].lo, many[j].hi, a)
    ensures at(many[j].entry) == at(n.entry) && size(many[j].entry) == size(n.entry)
  {
    assert Placed(n, few, many);
    var s :| s in many && Key(s.entry) == Key(n.entry);
    j :| 0 <= j < |many| && many[j] == s;
    assert SetOf(s, nets) && n in OfKey(nets, Key(s.entry));
    assert at(s.entry) == FirstAt(nets, Key(s.entry)) && at(n.entry) == FirstAt(nets, Key(n.entry));
    assert size(s.entry) == |OfKey(nets, Key(s.entry))| && size(n.entry) == |OfKey(nets, Key(n.entry))|;
  }

  lemma SameContains(s: seq<NetEntry>, t: seq<NetEntry>)
    requires AllValid(s) && AllValid(t) && forall n :: n in s <==> n in t
    ensures forall a :: SomeContains(s, a) <==> SomeContains(t, a)
  {
  }

  /** Net `i` of the few is the first that contains the address. */
  ghost predicate FirstFew(few: seq<NetEntry>, a: Addr, i: nat)
    requires AllValid(few)
  {
    i < |few| && few[i].prefix.Contains(a) && forall j :: 0 <= j < i ==> !few[j].prefix.Contains(a)
  }

  /** Set `i` is the first that covers the address. */
  ghost predicate FirstSet(many: seq<Set>, a: Addr, i: nat) {
    i < |many| && Covers(many[i].lo, many[i].hi, a) && forall j :: 0 <= j < i ==> !Covers(many[j].lo, many[j].hi, a)
  }

  /** The entry an address finds among the networks: the first of the few, else the first set. */
  ghost predicate Finds(few: seq<NetEntry>, many: seq<Set>, a: Addr, got: Option<Entry>)
    requires AllValid(few)
  {
    if SomeContains(few, a) then exists i: nat :: FirstFew(few, a, i) && got == Some(few[i].entry)
    else if exists s :: s in many && Covers(s.lo, s.hi, a) then exists i: nat :: FirstSet(many, a, i) && got == Some(many[i].entry)
    else got == None
  }

  /** The lookup of `held`: the few one by one, then each set by bisection. */
  method Lookup(few: seq<NetEntry>, many: seq<Set>, a: Addr) returns (got: Option<Entry>)
    requires AllValid(few) && forall s :: s in many ==> Apart(s.lo, s.hi)
    ensures Finds(few, many, a, got)
  {
    for i := 0 to |few|
      invariant forall j :: 0 <= j < i ==> !few[j].prefix.Contains(a)
    {
      if few[i].prefix.Contains(a) {
        assert FirstFew(few, a, i);
        return Some(few[i].entry);
      }
    }
    for i := 0 to |many|
      invariant forall j :: 0 <= j < i ==> !Covers(many[j].lo, many[j].hi, a)
    {
      var has := Has(many[i], a);
      if has {
        assert FirstSet(many, a, i);
        return Some(many[i].entry);
      }
    }
    return None;
  }

  /** Sorting, merging and bisecting agree with a linear scan of the prefixes: an address
    is found exactly when some prefix contains it, under the entry of such a prefix. */
  method Classify(nets: seq<NetEntry>, a: Addr) returns (got: Option<Entry>)
    requires AllValid(nets)
    ensures got.Some? <==> SomeContains(nets, a)
    ensures got.Some? ==> Listed(nets, a, got.value)
    ensures got.Some? && KeysTell(nets) ==> exists n :: n in nets && n.prefix.Contains(a) && n.entry == got.value
    ensures got.Some? ==> forall n :: n in nets && n.prefix.Contains(a) ==>
                            Turn(nets, Key(got.value)) <= Turn(nets, Key(n.entry))
  {
    var few, many := SortNets(nets);
    got := Lookup(few, many, a);
    SplitAgrees(nets, few, many, a);
    if got.Some? {
      FoundIsListed(nets, few, many, a, got.value);
      forall n | n in nets && n.prefix.Contains(a) ensures Turn(nets, Key(got.value)) <= Turn(nets, Key(n.entry)) {
        FoundFirst(nets, few, many, a, got.value, n);
      }
    }
  }

  /** Some net holds the address under the key found, and some net has the entry found. */
  ghost predicate Listed(nets: seq<NetEntry>, a: Addr, e: Entry)
    requires AllValid(nets)
  {
    exists n, m :: n in nets && m in nets && n.prefix.Contains(a) && Key(n.entry) == Key(e) && m.entry == e
  }

  lemma FoundIsListed(nets: seq<NetEntry>, few: seq<NetEntry>, many: seq<Set>, a: Addr, e: Entry)
    requires AllValid(nets) && SplitOf(nets, few, many) && AllValid(few) && Finds(few, many, a, Some(e))
    ensures Listed(nets, a, e)
  {
    if SomeContains(few, a) {
      var i: nat :| FirstFew(few, a, i) && Some(e) == Some(few[i].entry);
      assert few[i] in few && few[i] in nets;
    } else {
      var i: nat :| FirstSet(many, a, i) && Some(e) == Some(many[i].entry);
      assert many[i] in many && SetOf(many[i], nets);
      assert SomeContains(OfKey(nets, Key(e)), a);
      var n :| n in OfKey(nets, Key(e)) && n.prefix.Contains(a);
      var m :| m in nets && m.entry == e;
    }
  }

  /** The rule and the role run together still tell the entries apart. */
  ghost predicate KeysTell(nets: seq<NetEntry>) {
    forall n, m :: n in nets && m in nets && Key(n.entry) == Key(m.entry) ==> n.entry == m.entry
  }

  /** The roles of internal/clientstate/rules.go. */
  predicate IsRole(r: string) { r == "default" || r == "direct" || r == "tunnel" || r == "egress" || r == "noEgress" }

  /** With these roles they do, since no role ends another. */
  lemma RolesTell(nets: seq<NetEntry>)
    requires forall n :: n in nets ==> IsRole(n.entry.role)
    ensures KeysTell(nets)
  {
    forall n, m | n in nets && m in nets && Key(n.entry) == Key(m.entry) ensures n.entry == m.entry {
      KeyIsInjective(n.entry, m.entry);
    }
  }

  lemma KeyIsInjective(a: Entry, b: Entry)
    requires IsRole(a.role) && IsRole(b.role) && Key(a) == Key(b)
    ensures a == b
  {
    var k := Key(a);
    RoleEnding(a.role);
    RoleEnding(b.role);
    SameEnd(k, a.rule, a.role, 2);
    SameEnd(k, b.rule, b.role, 2);
    SameEnd(k, a.rule, a.role, 6);
    SameEnd(k, b.rule, b.role, 6);
    assert k[..|k| - |a.role|] == a.rule && k[..|k| - |b.role|] == b.rule;
  }

  lemma SameEnd(k: string, rule: string, role: string, d: nat)
    requires k == rule + role && 0 < d <= |role|
    ensures k[|k| - d] == role[|role| - d]
  {
  }

  /** The second and the sixth letter from the end tell the role. */
  lemma RoleEnding(r: string)
    requires IsRole(r)
    ensures |r| >= 6
    ensures var x, y := r[|r| - 2], r[|r| - 6];
      && (r == "default" <==> x == 'l') && (r == "direct" <==> x == 'c') && (r == "tunnel" <==> x == 'e')
      && (r == "egress" <==> x == 's' && y == 'e') && (r == "noEgress" <==> x == 's' && y == 'E')
  {
  }

  /** It does depend on the roles: `KeysTell` does not hold of all strings. */
  lemma KeysMayRunTogether()
    ensures Key(Entry("a", "bc")) == Key(Entry("ab", "c"))
  {
    assert "a" + "bc" == "ab" + "c";
  }

  lemma SplitAgrees(nets: seq<NetEntry>, few: seq<NetEntry>, many: seq<Set>, a: Addr)
    requires AllValid(nets) && SplitOf(nets, few, many) && AllValid(few)
    ensures SomeContains(nets, a) <==> SomeContains(few, a) || exists s :: s in many && Covers(s.lo, s.hi, a)
  {
    if SomeContains(nets, a) {
      var n :| n in nets && n.prefix.Contains(a);
      assert Placed(n, few, many);
      if n !in few {
        var s :| s in many && Key(s.entry) == Key(n.entry);
        assert SetOf(s, nets);
        assert n in OfKey(nets, Key(s.entry));
      }
    }
    if s :| s in many && Covers(s.lo, s.hi, a) {
      assert SetOf(s, nets);
      assert SomeContains(OfKey(nets, Key(s.entry)), a);
    }
  }
}
