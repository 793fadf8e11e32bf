/** Ageing a cached DNS message in place: `age`, `skipName` and `afterQuestions` of
  internal/dnsproxy/dnsproxy.go, over any bytes at all (section 4.1 of RFC 1035 says what
  they would mean in a well-formed message). */
module DnsAge {
  import opened Options
  import opened Bytes

  const OPT := 41
  const STALE := 0xFFFF_FFFF

  /** The index after a name; it may lie past the end of the message. */
  function SkipName(msg: Bytes, i: nat): (r: nat)
    ensures r >= i
    decreases if i < |msg| then |msg| - i else 0
  {
    if i >= |msg| then i
    else if msg[i] >= 0xC0 then i + 2
    else if msg[i] == 0 then i + 1
    else SkipName(msg, i + 1 + msg[i] as int)
  }

  function Questions(msg: Bytes, i: nat, q: nat): (r: nat)
    ensures r >= i
    decreases q
  {
    if q == 0 || i >= |msg| then i else Questions(msg, SkipName(msg, i) + 4, q - 1)
  }

  function AfterQuestions(msg: Bytes): nat
    requires |msg| >= 12
  {
    Questions(msg, 12, U16(msg, 4))
  }

  function Records(msg: Bytes): nat
    requires |msg| >= 12
  {
    U16(msg, 6) + U16(msg, 8) + U16(msg, 10)
  }

  /** Where the fixed part of each visited record starts, in visiting order. */
  function Walk(msg: Bytes, i: nat, n: nat): (r: seq<nat>)
    ensures Spaced(r, i, |msg|)
    decreases n
  {
    if n == 0 || i + 10 > |msg| then []
    else
      var j := SkipName(msg, i);
      if j + 10 > |msg| then [] else [j] + Walk(msg, j + 10 + U16(msg, j + 8), n - 1)
  }

  function Visited(msg: Bytes): (r: seq<nat>)
    ensures Spaced(r, 12, |msg|)
  {
    if |msg| < 12 then [] else Lower(Walk(msg, AfterQuestions(msg), Records(msg)), AfterQuestions(msg), 12, |msg|)
  }

  /** Record positions from `i` on, ten bytes apart at least, all inside `len` bytes. */
  predicate Spaced(ps: seq<nat>, i: nat, len: nat) {
    ps == [] || (i <= ps[0] && ps[0] + 10 <= len && Spaced(ps[1..], ps[0] + 10, len))
  }

  function Lower(ps: seq<nat>, i: nat, low: nat, len: nat): (r: seq<nat>)
    requires low <= i && Spaced(ps, i, len)
    ensures r == ps && Spaced(r, low, len)
  {
    ps
  }

  /** Byte `k` lies in the TTL of a listed record. */
  predicate Zone(ps: seq<nat>, k: nat) {
    ps != [] && (ps[0] + 4 <= k < ps[0] + 8 || Zone(ps[1..], k))
  }

  lemma {:induction false} ZoneAbove(ps: seq<nat>, i: nat, len: nat, k: nat)
    requires Spaced(ps, i, len) && k < i + 4
    ensures !Zone(ps, k)
  {
    if ps != [] { ZoneAbove(ps[1..], ps[0] + 10, len, k); }
  }

  // ------------------------------------------------- the walk is structure

  lemma {:induction false} SkipLocal(a: Bytes, b: Bytes, i: nat)
    requires |a| == |b| && forall k :: i <= k < |a| && k < SkipName(a, i) ==> a[k] == b[k]
    ensures SkipName(b, i) == SkipName(a, i)
    decreases if i < |a| then |a| - i else 0
  {
    if i < |a| && 0 < a[i] < 0xC0 { SkipLocal(a, b, i + 1 + a[i] as int); }
  }

  lemma HeadOutside(ps: seq<nat>, i: nat, j: nat, next: nat, size: nat)
    requires ps != [] && ps[0] == j && i <= j && j + 10 <= next && Spaced(ps[1..], next, size)
    ensures forall k :: i <= k < j + 4 || j + 8 <= k < j + 10 ==> !Zone(ps, k)
  {
    forall k | i <= k < j + 4 || j + 8 <= k < j + 10 ensures !Zone(ps, k) {
      if k < j + 10 { ZoneAbove(ps[1..], next, size, k); }
    }
  }

  /** The walk depends on no TTL byte: messages that differ only there are walked alike. */
  lemma {:induction false} WalkStable(a: Bytes, b: Bytes, i: nat, n: nat)
    requires |a| == |b| && forall k :: i <= k < |a| && !Zone(Walk(a, i, n), k) ==> a[k] == b[k]
    ensures Walk(b, i, n) == Walk(a, i, n)
    decreases n
  {
    if n > 0 && i + 10 <= |a| {
      if SkipName(a, i) + 10 <= |a| {
        var next := WalkHeadStable(a, b, i, n);
        WalkStable(a, b, next, n - 1);
        WalkJoin(a, b, i, n, next);
      } else {
        SkipLocal(a, b, i);
      }
    }
  }

  lemma WalkJoin(a: Bytes, b: Bytes, i: nat, n: nat, next: nat)
    requires |a| == |b| && n > 0 && i + 10 <= |a| && SkipName(b, i) == SkipName(a, i) <= |a| - 10
    requires next == SkipName(a, i) + 10 + U16(a, SkipName(a, i) + 8) == SkipName(a, i) + 10 + U16(b, SkipName(a, i) + 8)
    requires Walk(b, next, n - 1) == Walk(a, next, n - 1)
    ensures Walk(b, i, n) == Walk(a, i, n)
  {
  }

  /** The first record is found alike, and what follows it differs in TTLs only. */
  lemma WalkHeadStable(a: Bytes, b: Bytes, i: nat, n: nat) returns (next: nat)
    requires |a| == |b| && forall k :: i <= k < |a| && !Zone(Walk(a, i, n), k) ==> a[k] == b[k]
    requires n > 0 && i + 10 <= |a| && SkipName(a, i) + 10 <= |a|
    ensures SkipName(b, i) == SkipName(a, i)
    ensures next == SkipName(a, i) + 10 + U16(a, SkipName(a, i) + 8) == SkipName(a, i) + 10 + U16(b, SkipName(a, i) + 8)
    ensures forall k :: next <= k < |a| && !Zone(Walk(a, next, n - 1), k) ==> a[k] == b[k]
  {
    var j := SkipName(a, i);
    next := j + 10 + U16(a, j + 8);
    var ps, rest := Walk(a, i, n), Walk(a, next, n - 1);
    assert ps == [j] + rest && ps[1..] == rest;
    HeadOutside(ps, i, j, next, |a|);
    SkipLocal(a, b, i);
  }

  // --------------------------------------------- rewriting the TTL fields

  type Field = b: Bytes | |b| == 4 witness [0, 0, 0, 0]

  function TtlAt(msg: Bytes, p: nat): Field
    requires p + 10 <= |msg|
  {
    msg[p + 4..p + 8]
  }

  /** The record at `j` with its TTL put through `f`, unless it is an OPT record. */
  function RewriteOne(msg: Bytes, j: nat, f: Field -> Field): (r: Bytes)
    requires j + 10 <= |msg|
    ensures |r| == |msg|
    ensures forall k :: 0 <= k < |msg| && !(j + 4 <= k < j + 8) ==> r[k] == msg[k]
    ensures TtlAt(r, j) == if U16(msg, j) == OPT then TtlAt(msg, j) else f(TtlAt(msg, j))
  {
    if U16(msg, j) == OPT then msg
    else
      var ttl := f(TtlAt(msg, j));
      var r := seq(|msg|, k requires 0 <= k < |msg| => if j + 4 <= k < j + 8 then ttl[k - j - 4] else msg[k]);
      assert TtlAt(r, j) == ttl;
      r
  }

  function RewriteAll(msg: Bytes, ps: seq<nat>, i: nat, f: Field -> Field): (r: Bytes)
    requires Spaced(ps, i, |msg|)
    ensures |r| == |msg|
    decreases |ps|
  {
    if ps == [] then msg else RewriteAll(RewriteOne(msg, ps[0], f), ps[1..], ps[0] + 10, f)
  }

  lemma {:induction false} RewriteOutside(msg: Bytes, ps: seq<nat>, i: nat, f: Field -> Field, k: nat)
    requires Spaced(ps, i, |msg|) && k < |msg| && !Zone(ps, k)
    ensures RewriteAll(msg, ps, i, f)[k] == msg[k]
    decreases |ps|
  {
    if ps != [] { RewriteOutside(RewriteOne(msg, ps[0], f), ps[1..], ps[0] + 10, f, k); }
  }

  /** In `r` every listed record has its kind, and its TTL put through `f` unless OPT. */
  ghost predicate Through(msg: Bytes, ps: seq<nat>, i: nat, f: Field -> Field, r: Bytes)
    requires |r| == |msg| && Spaced(ps, i, |msg|)
    decreases |ps|
  {
    ps == [] ||
    (&& U16(r, ps[0]) == U16(msg, ps[0])
     && TtlAt(r, ps[0]) == (if U16(msg, ps[0]) == OPT then TtlAt(msg, ps[0]) else f(TtlAt(msg, ps[0])))
     && Through(msg, ps[1..], ps[0] + 10, f, r))
  }

  /** `Through` looks at its message only from `i` on. */
  lemma {:induction false} ThroughFrom(a: Bytes, b: Bytes, ps: seq<nat>, i: nat, f: Field -> Field, r: Bytes)
    requires |a| == |b| == |r| && Spaced(ps, i, |a|) && forall k :: i <= k < |a| ==> a[k] == b[k]
    requires Through(a, ps, i, f, r)
    ensures Through(b, ps, i, f, r)
    decreases |ps|
  {
    if ps != [] {
      assert TtlAt(a, ps[0]) == TtlAt(b, ps[0]);
      ThroughFrom(a, b, ps[1..], ps[0] + 10, f, r);
    }
  }

  lemma {:induction false} RewriteGoesThrough(msg: Bytes, ps: seq<nat>, i: nat, f: Field -> Field)
    requires Spaced(ps, i, |msg|)
    ensures Through(msg, ps, i, f, RewriteAll(msg, ps, i, f))
    decreases |ps|
  {
    if ps != [] {
      var j, rest := ps[0], ps[1..];
      var one, r := RewriteOne(msg, j, f), RewriteAll(msg, ps, i, f);
      forall k | j <= k < j + 10 ensures r[k] == one[k] {
        ZoneAbove(rest, j + 10, |msg|, k);
        RewriteOutside(one, rest, j + 10, f, k);
      }
      assert TtlAt(r, j) == TtlAt(one, j);
      RewriteGoesThrough(one, rest, j + 10, f);
      ThroughFrom(one, msg, rest, j + 10, f, r);
    }
  }

  /** A byte in a listed TTL reads the same in two messages that treat that TTL alike. */
  lemma {:induction false} ZoneByte(msg: Bytes, ps: seq<nat>, i: nat, f: Field -> Field, g: Field -> Field, h: Field -> Field,
                                    x: Bytes, y: Bytes, z: Bytes, k: nat)
    requires |x| == |y| == |z| == |msg| && Spaced(ps, i, |msg|) && k < |msg| && Zone(ps, k)
    requires Through(msg, ps, i, f, x) && Through(x, ps, i, g, y) && Through(msg, ps, i, h, z)
    requires forall b: Field :: g(f(b)) == h(b)
    ensures y[k] == z[k]
    decreases |ps|
  {
    var j := ps[0];
    if j + 4 <= k < j + 8 {
      assert TtlAt(y, j) == TtlAt(z, j);
      assert y[k] == TtlAt(y, j)[k - j - 4] && z[k] == TtlAt(z, j)[k - j - 4];
    } else {
      ZoneByte(msg, ps[1..], j + 10, f, g, h, x, y, z, k);
    }
  }

  function Rewrite(msg: Bytes, f: Field -> Field): (r: Bytes)
    ensures |r| == |msg|
  {
    RewriteAll(msg, Visited(msg), 12, f)
  }

  /** `r` is `msg` but for the TTLs of the records visited in it, OPT apart. */
  ghost predicate OnlyTtls(msg: Bytes, f: Field -> Field, r: Bytes) {
    && |r| == |msg|
    && Through(msg, Visited(msg), 12, f, r)
    && forall k :: 0 <= k < |msg| && !Zone(Visited(msg), k) ==> r[k] == msg[k]
  }

  lemma {:induction false} QuestionsLocal(a: Bytes, b: Bytes, i: nat, q: nat)
    requires |a| == |b| && forall k :: i <= k < |a| && k < Questions(a, i, q) ==> a[k] == b[k]
    ensures Questions(b, i, q) == Questions(a, i, q)
    decreases q
  {
    if q > 0 && i < |a| {
      SkipLocal(a, b, i);
      QuestionsLocal(a, b, SkipName(a, i) + 4, q - 1);
    }
  }

  /** Nor does it depend on the id. */
  lemma VisitedStable(a: Bytes, b: Bytes)
    requires |a| == |b| && forall k :: 2 <= k < |a| && !Zone(Visited(a), k) ==> a[k] == b[k]
    ensures Visited(b) == Visited(a)
    ensures |a| >= 12 ==> a[3] == b[3] && U16(b, 6) == U16(a, 6) && AfterQuestions(b) == AfterQuestions(a)
  {
    if |a| >= 12 {
      var i := AfterQuestions(a);
      var ps := Walk(a, i, Records(a));
      forall k | 2 <= k < |a| && k < i ensures a[k] == b[k] { ZoneAbove(ps, i, |a|, k); }
      assert Records(b) == Records(a) && U16(b, 4) == U16(a, 4);
      QuestionsLocal(a, b, 12, U16(a, 4));
      assert AfterQuestions(b) == i;
      WalkStable(a, b, i, Records(a));
    }
  }

  /** Rewriting touches nothing but TTLs of visited records other than OPT, and a second
    walk over its output visits the very same records. */
  lemma RewriteTouchesOnlyTtls(msg: Bytes, f: Field -> Field)
    ensures OnlyTtls(msg, f, Rewrite(msg, f))
    ensures Visited(Rewrite(msg, f)) == Visited(msg)
  {
    var ps, r := Visited(msg), Rewrite(msg, f);
    forall k | 0 <= k < |msg| && !Zone(ps, k) ensures r[k] == msg[k] { RewriteOutside(msg, ps, 12, f, k); }
    RewriteGoesThrough(msg, ps, 12, f);
    VisitedStable(msg, r);
  }

  /** Two rewrites one after the other are one rewrite with the functions composed. */
  lemma RewriteTwice(msg: Bytes, f: Field -> Field, g: Field -> Field, h: Field -> Field)
    requires forall b: Field :: g(f(b)) == h(b)
    ensures Rewrite(Rewrite(msg, f), g) == Rewrite(msg, h)
  {
    var ps := Visited(msg);
    var x, z := Rewrite(msg, f), Rewrite(msg, h);
    var y := Rewrite(x, g);
    RewriteTouchesOnlyTtls(msg, f);
    RewriteTouchesOnlyTtls(x, g);
    RewriteTouchesOnlyTtls(msg, h);
    forall k | 0 <= k < |msg| ensures y[k] == z[k] {
      if Zone(ps, k) { ZoneByte(msg, ps, 12, f, g, h, x, y, z, k); }
    }
  }

  // --------------------------------------------------------------- ageing

  function Ttl(left: nat, secs: nat): (r: nat)
    requires left <= STALE
    ensures r <= STALE
  {
    if secs == STALE || secs >= left then 1 else left - secs
  }

  function AgedField(b: Field, secs: nat): Field { Be32(Ttl(U32(b, 0), secs)) }

  function Ager(secs: nat): Field -> Field { (b: Field) => AgedField(b, secs) }

  function Aged(msg: Bytes, secs: nat): (r: Bytes)
    ensures |r| == |msg|
  {
    Rewrite(msg, Ager(secs))
  }

  lemma TtlAdds(left: nat, a: nat, b: nat)
    requires left <= STALE && a + b <= STALE
    ensures Ttl(Ttl(left, a), b) == Ttl(left, a + b)
  {
  }

  /** Ageing rewrites only TTLs, and visits the same records when done again. */
  lemma AgeTouchesOnlyTtls(msg: Bytes, secs: nat)
    ensures OnlyTtls(msg, Ager(secs), Aged(msg, secs))
    ensures Visited(Aged(msg, secs)) == Visited(msg)
  {
    RewriteTouchesOnlyTtls(msg, Ager(secs));
  }

  /** What a client reads: each TTL less the seconds gone, never below one; OPT as it was. */
  ghost predicate Reads(msg: Bytes, p: nat, secs: nat, r: Bytes)
    requires |r| == |msg| && p + 10 <= |msg|
  {
    U32(r, p + 4) ==
      if U16(msg, p) == OPT then U32(msg, p + 4)
      else if U32(msg, p + 4) > secs && secs != STALE then U32(msg, p + 4) - secs else 1
  }

  lemma FieldReads(msg: Bytes, p: nat)
    requires p + 10 <= |msg|
    ensures U32(TtlAt(msg, p), 0) == U32(msg, p + 4)
  {
  }

  lemma {:induction false} ThroughReads(msg: Bytes, ps: seq<nat>, i: nat, secs: nat, r: Bytes, p: nat)
    requires |r| == |msg| && Spaced(ps, i, |msg|) && Through(msg, ps, i, Ager(secs), r) && p in ps
    ensures p + 10 <= |msg| && Reads(msg, p, secs, r)
    decreases |ps|
  {
    if p == ps[0] {
      FieldReads(msg, p);
      FieldReads(r, p);
    } else {
      ThroughReads(msg, ps[1..], ps[0] + 10, secs, r, p);
    }
  }

  lemma AgedTtl(msg: Bytes, secs: nat, p: nat)
    requires p in Visited(msg)
    ensures p + 10 <= |msg| && Reads(msg, p, secs, Aged(msg, secs))
  {
    AgeTouchesOnlyTtls(msg, secs);
    ThroughReads(msg, Visited(msg), 12, secs, Aged(msg, secs), p);
  }

  /** Ageing by `a` and then by `b` is ageing by `a + b`, while the sum fits 32 bits. */
  lemma AgeingAdds(msg: Bytes, a: nat, b: nat)
    requires a + b <= STALE
    ensures Aged(Aged(msg, a), b) == Aged(msg, a + b)
  {
    forall x: Field ensures Ager(b)(Ager(a)(x)) == Ager(a + b)(x) {
      TtlAdds(U32(x, 0), a, b);
    }
    RewriteTwice(msg, Ager(a), Ager(b), Ager(a + b));
  }

  // ------------------------------------------------------------- in place

  method SkipNameLoop(msg: array<byte>, start: nat) returns (i: nat)
    ensures i == SkipName(msg[..], start)
  {
    i := start;
    while i < msg.Length
      invariant SkipName(msg[..], i) == SkipName(msg[..], start)
    {
      if msg[i] >= 0xC0 { return i + 2; }
      if msg[i] == 0 { return i + 1; }
      i := i + 1 + msg[i] as int;
    }
  }

  method AfterQuestionsLoop(msg: array<byte>) returns (i: nat)
    requires msg.Length >= 12
    ensures i == AfterQuestions(msg[..])
  {
    i := 12;
    var q := U16(msg[..], 4);
    while q > 0 && i < msg.Length
      invariant Questions(msg[..], i, q) == AfterQuestions(msg[..])
    {
      i := SkipNameLoop(msg, i);
      i, q := i + 4, q - 1;
    }
  }

  /** One record, written back over itself. */
  method RewriteRecord(msg: array<byte>, j: nat, f: Field -> Field)
    requires j + 10 <= msg.Length
    modifies msg
    ensures msg[..] == RewriteOne(old(msg[..]), j, f)
  {
    if U16(msg[..], j) != OPT {
      ghost var before := msg[..];
      var left := f(msg[j + 4..j + 8]);
      assert TtlAt(before, j) == msg[j + 4..j + 8];
      msg[j + 4], msg[j + 5], msg[j + 6], msg[j + 7] := left[0], left[1], left[2], left[3];
      assert msg[..] == RewriteOne(before, j, f);
    }
  }

  /** One turn of the loop of `age`; `next` is None when the record does not fit. */
  method RewriteNext(msg: array<byte>, i: nat, f: Field -> Field, ghost was: Bytes, ghost n: nat, ghost low: nat,
                     ghost goal: Bytes)
    returns (next: Option<nat>, ghost low': nat)
    requires n > 0 && i + 10 <= msg.Length && Ahead(was, msg[..], i, n, low, f, goal)
    modifies msg
    ensures next == None ==> msg[..] == goal
    ensures next.Some? ==> Ahead(was, msg[..], next.value, n - 1, low', f, goal)
  {
    var j := SkipNameLoop(msg, i);
    AheadReads(was, msg[..], i);
    if j + 10 > msg.Length {
      AheadEnds(was, msg[..], i, n, low, f, goal);
      return None, low;
    }
    var length := U16(msg[..], j + 8);
    AheadMore(was, msg[..], i, n, low, f, goal, j, j + 10 + length);
    RewriteRecord(msg, j, f);
    return Some(j + 10 + length), j + 10;
  }

  /** The loop of `age`, whatever is done to a TTL. */
  method RewriteLoop(msg: array<byte>, start: nat, records: nat, f: Field -> Field, ghost was: Bytes, ghost goal: Bytes)
    requires StillAhead(was, msg[..], start, records, f, goal)
    modifies msg
    ensures msg[..] == goal
  {
    var i: nat, n: nat := start, records;
    while n > 0 && i + 10 <= msg.Length
      invariant StillAhead(was, msg[..], i, n, f, goal)
      decreases n
    {
      var next := RewriteTurn(msg, i, f, was, n, goal);
      if next == None { return; }
      i, n := next.value, n - 1;
    }
    AheadLast(was, msg[..], i, n, f, goal);
  }

  /** The same turn, for whatever bound the records ahead keep to. */
  method RewriteTurn(msg: array<byte>, i: nat, f: Field -> Field, ghost was: Bytes, ghost n: nat, ghost goal: Bytes)
    returns (next: Option<nat>)
    requires n > 0 && i + 10 <= msg.Length && StillAhead(was, msg[..], i, n, f, goal)
    modifies msg
    ensures next == None ==> msg[..] == goal
    ensures next.Some? ==> StillAhead(was, msg[..], next.value, n - 1, f, goal)
  {
    ghost var low: nat :| Ahead(was, msg[..], i, n, low, f, goal);
    ghost var low': nat;
    next, low' := RewriteNext(msg, i, f, was, n, low, goal);
  }

  method Age(msg: array<byte>, secs: nat)
    modifies msg
    ensures msg[..] == Aged(old(msg[..]), secs)
  {
    if msg.Length < 12 { return; }
    var i := AfterQuestionsLoop(msg);
    AheadFirst(msg[..], Ager(secs));
    RewriteLoop(msg, i, Records(msg[..]), Ager(secs), msg[..], Aged(msg[..], secs));
  }

  /** In the loop of `age`: the bytes ahead are untouched, and ageing the records still
    ahead gives the whole result. */
  ghost predicate Ahead(was: Bytes, msg: Bytes, i: nat, n: nat, low: nat, f: Field -> Field, goal: Bytes) {
    && |msg| == |was| && low <= i && (forall k :: i <= k < |was| ==> msg[k] == was[k])
    && Spaced(Walk(was, i, n), low, |msg|)
    && RewriteAll(msg, Walk(was, i, n), low, f) == goal
  }

  ghost predicate StillAhead(was: Bytes, msg: Bytes, i: nat, n: nat, f: Field -> Field, goal: Bytes) {
    exists low: nat :: Ahead(was, msg, i, n, low, f, goal)
  }

  lemma AheadFirst(msg: Bytes, f: Field -> Field)
    requires |msg| >= 12
    ensures StillAhead(msg, msg, AfterQuestions(msg), Records(msg), f, Rewrite(msg, f))
  {
    assert Ahead(msg, msg, AfterQuestions(msg), Records(msg), 12, f, Rewrite(msg, f));
  }

  lemma AheadLast(was: Bytes, msg: Bytes, i: nat, n: nat, f: Field -> Field, goal: Bytes)
    requires StillAhead(was, msg, i, n, f, goal) && (n == 0 || i + 10 > |msg|)
    ensures msg == goal
  {
    var low: nat :| Ahead(was, msg, i, n, low, f, goal);
  }

  lemma WalkHead(msg: Bytes, i: nat, n: nat)
    requires n > 0 && i + 10 <= |msg|
    ensures var j := SkipName(msg, i);
      Walk(msg, i, n) == if j + 10 > |msg| then [] else [j] + Walk(msg, j + 10 + U16(msg, j + 8), n - 1)
  {
  }

  lemma RewriteHead(msg: Bytes, j: nat, rest: seq<nat>, low: nat, f: Field -> Field)
    requires Spaced([j] + rest, low, |msg|)
    ensures j + 10 <= |msg| && Spaced(rest, j + 10, |msg|)
    ensures RewriteAll(msg, [j] + rest, low, f) == RewriteAll(RewriteOne(msg, j, f), rest, j + 10, f)
  {
    assert ([j] + rest)[1..] == rest;
  }

  lemma AheadOne(was: Bytes, msg: Bytes, i: nat, n: nat, low: nat, f: Field -> Field, goal: Bytes, j: nat, next: nat)
    requires n > 0 && Ahead(was, msg, i, n, low, f, goal) && i <= j && j + 10 <= |msg| && j + 10 <= next
    requires Walk(was, i, n) == [j] + Walk(was, next, n - 1)
    ensures Ahead(was, RewriteOne(msg, j, f), next, n - 1, j + 10, f, goal)
  {
    RewriteHead(msg, j, Walk(was, next, n - 1), low, f);
  }

  /** The bytes ahead being untouched, the loop reads there what the first walk read. */
  lemma AheadReads(was: Bytes, msg: Bytes, i: nat)
    requires |msg| == |was| && forall k :: i <= k < |was| ==> msg[k] == was[k]
    ensures SkipName(msg, i) == SkipName(was, i)
    ensures SkipName(was, i) + 10 <= |was| ==> U16(msg, SkipName(was, i) + 8) == U16(was, SkipName(was, i) + 8)
  {
    SkipLocal(was, msg, i);
  }

  lemma AheadMore(was: Bytes, msg: Bytes, i: nat, n: nat, low: nat, f: Field -> Field, goal: Bytes, j: nat, next: nat)
    requires n > 0 && i + 10 <= |msg| && Ahead(was, msg, i, n, low, f, goal) && j == SkipName(was, i)
    requires j + 10 <= |msg| && next == j + 10 + U16(was, j + 8)
    ensures Ahead(was, RewriteOne(msg, j, f), next, n - 1, j + 10, f, goal)
  {
    WalkHead(was, i, n);
    AheadOne(was, msg, i, n, low, f, goal, j, next);
  }

  lemma AheadEnds(was: Bytes, msg: Bytes, i: nat, n: nat, low: nat, f: Field -> Field, goal: Bytes)
    requires n > 0 && i + 10 <= |msg| && Ahead(was, msg, i, n, low, f, goal) && SkipName(was, i) + 10 > |msg|
    ensures goal == msg
  {
    WalkHead(was, i, n);
    AheadNone(was, msg, i, n, low, f, goal);
  }

  lemma AheadNone(was: Bytes, msg: Bytes, i: nat, n: nat, low: nat, f: Field -> Field, goal: Bytes)
    requires Ahead(was, msg, i, n, low, f, goal) && Walk(was, i, n) == []
    ensures goal == msg
  {
  }
}
