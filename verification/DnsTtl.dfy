/** How long an answer may be cached: `answerTTL` of internal/dnsproxy/dnsproxy.go, and what
  its bound means for the answers the cache serves.  Durations are nanoseconds. */
module DnsTtl {
  import opened Bytes
  import opened DnsAge
  import opened DnsCache

  const NAME_ERROR := 3

  /** The records `answerTTL` reads: it wants two more bytes before each than `age` does. */
  function Read(msg: Bytes, i: nat, n: nat): (r: seq<nat>)
    ensures Inside(r, |msg|)
    decreases n
  {
    if n == 0 || i + 12 > |msg| then []
    else
      var j := SkipName(msg, i);
      if j + 10 > |msg| then [] else [j] + Read(msg, j + 10 + U16(msg, j + 8), n - 1)
  }

  predicate Inside(ps: seq<nat>, len: nat) { forall k :: 0 <= k < |ps| ==> ps[k] + 10 <= len }

  function Life(msg: Bytes, p: nat): (r: nat)
    requires p + 10 <= |msg|
  {
    U32(msg, p + 4) * SECOND
  }

  function Min(a: int, b: int): int { if a < b then a else b }

  function Max(a: int, b: int): int { if a > b then a else b }

  function Shortest(msg: Bytes, ps: seq<nat>, best: int): int
    requires Inside(ps, |msg|)
  {
    if ps == [] then best else Shortest(msg, ps[1..], Min(best, Life(msg, ps[0])))
  }

  /** Nothing listed is shorter, and something listed, or the start, is as short. */
  lemma {:induction false} ShortestIsLeast(msg: Bytes, ps: seq<nat>, best: int)
    requires Inside(ps, |msg|)
    ensures Shortest(msg, ps, best) <= best
    ensures forall k :: 0 <= k < |ps| ==> Shortest(msg, ps, best) <= Life(msg, ps[k])
    ensures Shortest(msg, ps, best) == best || exists k :: 0 <= k < |ps| && Shortest(msg, ps, best) == Life(msg, ps[k])
    decreases |ps|
  {
    if ps != [] {
      var rest := ps[1..];
      ShortestIsLeast(msg, rest, Min(best, Life(msg, ps[0])));
      assert forall k :: 0 < k < |ps| ==> ps[k] == rest[k - 1];
    }
  }

  function AnswerTtl(msg: Bytes, lo: int, hi: int, empty: int): (r: int)
    ensures r > 0 ==> |msg| >= 12
  {
    if |msg| < 12 || msg[3] % 16 !in {0, NAME_ERROR} then 0
    else if U16(msg, 6) == 0 then Max(lo, empty)
    else Min(Max(Shortest(msg, Read(msg, AfterQuestions(msg), U16(msg, 6)), hi), lo), hi)
  }

  method AnswerTtlLoop(msg: array<byte>, lo: int, hi: int, empty: int) returns (r: int)
    ensures r == AnswerTtl(msg[..], lo, hi, empty)
  {
    if msg.Length < 12 { return 0; }
    var rcode := msg[3] % 16;
    if rcode != 0 && rcode != NAME_ERROR { return 0; }
    var answers := U16(msg[..], 6);
    if answers == 0 { return Max(lo, empty); }
    var i := AfterQuestionsLoop(msg);
    var best := ShortestLoop(msg, i, answers, hi);
    return Min(Max(best, lo), hi);
  }

  method ShortestLoop(msg: array<byte>, start: nat, answers: nat, hi: int) returns (best: int)
    ensures best == Shortest(msg[..], Read(msg[..], start, answers), hi)
  {
    best := hi;
    var i: nat, n: nat := start, answers;
    while n > 0 && i + 12 <= msg.Length
      invariant Shortest(msg[..], Read(msg[..], i, n), best) == Shortest(msg[..], Read(msg[..], start, answers), hi)
      decreases n
    {
      var j := SkipNameLoop(msg, i);
      ReadHead(msg[..], i, n, best);
      if j + 10 > msg.Length { return; }
      best := Min(best, Life(msg[..], j));
      i, n := j + 10 + U16(msg[..], j + 8), n - 1;
    }
  }

  lemma ReadHead(msg: Bytes, i: nat, n: nat, best: int)
    requires n > 0 && i + 12 <= |msg|
    ensures var j := SkipName(msg, i);
      Shortest(msg, Read(msg, i, n), best) ==
      if j + 10 > |msg| then best
      else Shortest(msg, Read(msg, j + 10 + U16(msg, j + 8), n - 1), Min(best, Life(msg, j)))
  {
    var j := SkipName(msg, i);
    if j + 10 <= |msg| {
      var rest := Read(msg, j + 10 + U16(msg, j + 8), n - 1);
      assert Read(msg, i, n) == [j] + rest && ([j] + rest)[1..] == rest;
    }
  }

  // ------------------------------------------------ what it reads of the walk

  /** The answer section, as `age` walks it. */
  function Answers(msg: Bytes): (r: seq<nat>)
    requires |msg| >= 12
  {
    Walk(msg, AfterQuestions(msg), U16(msg, 6))
  }

  lemma {:induction false} SpacedFits(ps: seq<nat>, i: nat, len: nat, p: nat)
    requires Spaced(ps, i, len) && p in ps
    ensures i <= p && p + 10 <= len
  {
    if p != ps[0] { SpacedFits(ps[1..], ps[0] + 10, len, p); }
  }

  lemma SkipMoves(msg: Bytes, i: nat)
    requires i < |msg|
    ensures SkipName(msg, i) > i
  {
  }

  /** Where the name of the record at `p` starts, walking the records from `i`. */
  function NameOf(msg: Bytes, i: nat, p: nat): (r: nat)
    decreases if i < |msg| then |msg| - i else 0
  {
    var j := SkipName(msg, i);
    if j >= p || j + 10 > |msg| then i else NameOf(msg, j + 10 + U16(msg, j + 8), p)
  }

  /** The record ends the message, without data, and its name is the single root byte. */
  predicate Bare(msg: Bytes, i: nat, p: nat) { p + 10 == |msg| && NameOf(msg, i, p) + 1 == p }

  /** Of the records walked, `answerTTL` misses exactly such a record. */
  lemma {:induction false} ReadsAllButBare(msg: Bytes, i: nat, n: nat, p: nat)
    requires p in Walk(msg, i, n)
    ensures p in Read(msg, i, n) <==> !Bare(msg, i, p)
    decreases n
  {
    var j := SkipName(msg, i);
    var next := j + 10 + U16(msg, j + 8);
    var rest := Walk(msg, next, n - 1);
    SkipMoves(msg, i);
    assert Walk(msg, i, n) == [j] + rest;
    if p == j {
      ReadStartsAt(msg, i, n, p);
    } else {
      SpacedFits(rest, next, |msg|, p);
      assert NameOf(msg, i, p) == NameOf(msg, next, p);
      ReadsAllButBare(msg, next, n - 1, p);
    }
  }

  lemma ReadStartsAt(msg: Bytes, i: nat, n: nat, p: nat)
    requires n > 0 && i + 10 <= |msg| && p == SkipName(msg, i) && p + 10 <= |msg|
    ensures p in Read(msg, i, n) <==> i + 12 <= |msg|
    ensures NameOf(msg, i, p) == i < p
  {
    SkipMoves(msg, i);
  }

  /** From `i` on the messages differ at most in the TTLs of the listed records. */
  ghost predicate SameBut(a: Bytes, b: Bytes, i: nat, ps: seq<nat>) {
    |a| == |b| && forall k :: i <= k < |a| && !Zone(ps, k) ==> a[k] == b[k]
  }

  /** The names start where they did when only TTLs and the id have changed. */
  lemma {:induction false} NameStable(a: Bytes, b: Bytes, i: nat, n: nat, p: nat)
    requires SameBut(a, b, i, Walk(a, i, n)) && p in Walk(a, i, n)
    ensures NameOf(b, i, p) == NameOf(a, i, p)
    decreases n
  {
    var j, next := HeadStable(a, b, i, n);
    if p != j {
      SpacedFits(Walk(a, next, n - 1), next, |a|, p);
      NameStable(a, b, next, n - 1, p);
    }
    NameStep(a, b, i, p, j, next);
  }

  lemma NameStep(a: Bytes, b: Bytes, i: nat, p: nat, j: nat, next: nat)
    requires |a| == |b| && SkipName(a, i) == SkipName(b, i) == j && j + 10 <= |a|
    requires next == j + 10 + U16(a, j + 8) == j + 10 + U16(b, j + 8)
    requires j < p ==> NameOf(b, next, p) == NameOf(a, next, p)
    ensures NameOf(b, i, p) == NameOf(a, i, p)
  {
  }

  lemma HeadStable(a: Bytes, b: Bytes, i: nat, n: nat) returns (j: nat, next: nat)
    requires SameBut(a, b, i, Walk(a, i, n)) && Walk(a, i, n) != []
    ensures n > 0 && SkipName(a, i) == SkipName(b, i) == j && j + 10 <= |a|
    ensures next == j + 10 + U16(a, j + 8) == j + 10 + U16(b, j + 8)
    ensures Walk(a, i, n) == [j] + Walk(a, next, n - 1) && SameBut(a, b, next, Walk(a, next, n - 1))
  {
    j := SkipName(a, i);
    next := j + 10 + U16(a, j + 8);
    var ps := Walk(a, i, n);
    assert ps == [j] + Walk(a, next, n - 1) && ps[1..] == Walk(a, next, n - 1);
    HeadOutside(ps, i, j, next, |a|);
    SkipLocal(a, b, i);
  }

  /** The answer record at `p` is one that `answerTTL` reads. */
  predicate Bounds(msg: Bytes, p: nat)
    requires |msg| >= 12
  {
    p in Answers(msg) && p + 10 <= |msg| && !Bare(msg, AfterQuestions(msg), p)
  }

  /** `xs` is the first `n` elements of `ys`, or all of it. */
  ghost predicate Begins(xs: seq<nat>, ys: seq<nat>, n: nat) {
    |xs| == Min(n, |ys|) && xs <= ys
  }

  lemma BeginsMore(j: nat, xs: seq<nat>, ys: seq<nat>, n: nat)
    requires Begins(xs, ys, n)
    ensures Begins([j] + xs, [j] + ys, n + 1)
  {
  }

  /** A shorter walk is the beginning of a longer one. */
  lemma {:induction false} WalkTake(msg: Bytes, i: nat, n: nat, m: nat)
    requires n <= m
    ensures Begins(Walk(msg, i, n), Walk(msg, i, m), n)
    decreases n
  {
    if n > 0 && i + 10 <= |msg| {
      var j := SkipName(msg, i);
      if j + 10 <= |msg| {
        var next := j + 10 + U16(msg, j + 8);
        WalkTake(msg, next, n - 1, m - 1);
        BeginsMore(j, Walk(msg, next, n - 1), Walk(msg, next, m - 1), n - 1);
      }
    }
  }

  lemma AnswersBeginVisit(msg: Bytes)
    requires |msg| >= 12
    ensures Begins(Answers(msg), Visited(msg), U16(msg, 6))
    ensures forall p :: p in Answers(msg) ==> p in Visited(msg)
  {
    WalkTake(msg, AfterQuestions(msg), U16(msg, 6), Records(msg));
  }

  /** What the cache serves has the answer section of what it stored. */
  lemma ServedAnswers(e: Entry, query: Bytes, now: int)
    requires |e.answer| >= 12 && |query| >= 2
    ensures Answers(Served(e, query, now)) == Answers(e.answer)
    ensures Served(e, query, now)[3] == e.answer[3] && U16(Served(e, query, now), 6) == U16(e.answer, 6)
  {
    var secs := if Fresh(e, now) then Elapsed(e, now) else STALE;
    AgeTouchesOnlyTtls(e.answer, secs);
    VisitedStable(e.answer, Served(e, query, now));
    AnswersBeginVisit(e.answer);
    AnswersBeginVisit(Served(e, query, now));
  }

  lemma ServedBounds(e: Entry, query: Bytes, now: int, p: nat)
    requires |e.answer| >= 12 && |query| >= 2 && Bounds(e.answer, p)
    ensures Bounds(Served(e, query, now), p)
  {
    ServedAnswers(e, query, now);
    AnswersBeginVisit(e.answer);
    ServedSame(e, query, now);
    NameStable(e.answer, Served(e, query, now), AfterQuestions(e.answer), Records(e.answer), p);
  }

  lemma ServedSame(e: Entry, query: Bytes, now: int)
    requires |e.answer| >= 12 && |query| >= 2
    ensures var r, i := Served(e, query, now), AfterQuestions(e.answer);
      AfterQuestions(r) == i && SameBut(e.answer, r, i, Walk(e.answer, i, Records(e.answer)))
  {
    AgeTouchesOnlyTtls(e.answer, if Fresh(e, now) then Elapsed(e, now) else STALE);
    VisitedStable(e.answer, Served(e, query, now));
  }

  // -------------------------------------------------------------- theorems

  /** A cached answer never outlives a record of its answer section, unless the configured
    minimum says so, nor the configured maximum. */
  lemma NeverOutlives(msg: Bytes, lo: int, hi: int, empty: int, p: nat)
    requires |msg| >= 12 && Bounds(msg, p) && hi >= 0
    ensures AnswerTtl(msg, lo, hi, empty) <= Min(hi, Max(lo, Life(msg, p)))
  {
    var i, n := AfterQuestions(msg), U16(msg, 6);
    ReadsAllButBare(msg, i, n, p);
    ShortestIsLeast(msg, Read(msg, i, n), hi);
  }

  /** The entry `store` makes of an answer at `t`. */
  function Cached(answer: Bytes, t: int, lo: int, hi: int, empty: int): Entry {
    Entry(answer, t, t + AnswerTtl(answer, lo, hi, empty), false)
  }

  /** While an entry is fresh the floor of one second never bites: each TTL of the answer
    section is served as exactly what is left of it. */
  lemma FreshNeverFloors(answer: Bytes, t: int, lo: int, hi: int, empty: int, query: Bytes, now: int, p: nat)
    requires |answer| >= 12 && |query| >= 2 && hi >= 0
    requires Bounds(answer, p) && U16(answer, p) != OPT && lo <= Life(answer, p)
    requires t <= now && Fresh(Cached(answer, t, lo, hi, empty), now)
    ensures (now - t) / SECOND < U32(answer, p + 4)
    ensures U32(Served(Cached(answer, t, lo, hi, empty), query, now), p + 4) == U32(answer, p + 4) - (now - t) / SECOND
  {
    var e := Cached(answer, t, lo, hi, empty);
    NeverOutlives(answer, lo, hi, empty, p);
    assert now - t < U32(answer, p + 4) * SECOND;
    AnswersBeginVisit(answer);
    FreshHitServes(e, query, now, p);
  }

  /** An answer cached here and cached again by whoever asked is gone everywhere less than
    a second after the record's own time has run out. */
  lemma CachedTwice(answer: Bytes, t: int, lo: int, hi: int, empty: int, query: Bytes, now: int, p: nat,
                    lo': int, hi': int, empty': int)
    requires |answer| >= 12 && |query| >= 2 && hi >= 0 && hi' >= 0
    requires Bounds(answer, p) && U16(answer, p) != OPT && lo <= Life(answer, p) && lo' <= SECOND
    requires t <= now && Fresh(Cached(answer, t, lo, hi, empty), now)
    ensures var reply := Served(Cached(answer, t, lo, hi, empty), query, now);
      Cached(reply, now, lo', hi', empty').expires < t + Life(answer, p) + SECOND
  {
    var e := Cached(answer, t, lo, hi, empty);
    var reply := Served(e, query, now);
    FreshNeverFloors(answer, t, lo, hi, empty, query, now, p);
    ServedAnswers(e, query, now);
    ServedBounds(e, query, now, p);
    NeverOutlives(reply, lo', hi', empty', p);
  }

  /** The record left out is really there: a root record without data that ends the message
    has five seconds to live, `age` visits it, and the answer is cached for the maximum. */
  lemma LastWithoutDataIsMissed(hi: int)
    requires hi > 5 * SECOND
    ensures var msg: Bytes := [0, 0, 0x81, 0x80, 0, 0, 0, 1, 0, 0, 0, 0, 0, 0, 1, 0, 1, 0, 0, 0, 5, 0, 0];
      Answers(msg) == [13] && Bare(msg, 12, 13) && Life(msg, 13) == 5 * SECOND && AnswerTtl(msg, 0, hi, 0) == hi
  {
    var msg: Bytes := [0, 0, 0x81, 0x80, 0, 0, 0, 1, 0, 0, 0, 0, 0, 0, 1, 0, 1, 0, 0, 0, 5, 0, 0];
    assert U16(msg, 4) == 0 && U16(msg, 6) == 1 && U16(msg, 17) == 0 && U16(msg, 19) == 5;
    assert AfterQuestions(msg) == 12 && SkipName(msg, 12) == 13;
    assert Walk(msg, 12, 1) == [13] + Walk(msg, 23, 0);
  }
}
