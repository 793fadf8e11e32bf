/** The answer cache of internal/dnsproxy/dnsproxy.go: a map of entries and a list in order
  of use, kept together by `lookup`, `store`, `evictAbove`, `Flush` and `Reconfigure`.
  Times are nanoseconds. */
module DnsCache {
  import opened Options
  import opened Bytes
  import opened DnsAge

  const SECOND := 1_000_000_000

  type Key = string

  datatype Entry = Entry(answer: Bytes, stored: int, expires: int, refreshing: bool)

  /** `lru` has the most recently used key in front.  `touches` is history: every use of a
    key, oldest first; the source keeps no such thing. */
  datatype Cache = Cache(entries: map<Key, Entry>, lru: seq<Key>, size: nat, touches: seq<Key>)

  // ----------------------------------------------------------------- list

  ghost predicate Distinct(s: seq<Key>) { forall i, j :: 0 <= i < j < |s| ==> s[i] != s[j] }

  function Without(s: seq<Key>, key: Key): (r: seq<Key>)
    ensures forall k :: k in r <==> k in s && k != key
    ensures |r| <= |s|
  {
    if s == [] then [] else (if s[0] == key then [] else [s[0]]) + Without(s[1..], key)
  }

  lemma {:induction false} WithoutKeepsDistinct(s: seq<Key>, key: Key)
    requires Distinct(s)
    ensures Distinct(Without(s, key)) && |Without(s, key)| == |s| - if key in s then 1 else 0
  {
    if s != [] {
      WithoutKeepsDistinct(s[1..], key);
      assert s[0] !in s[1..];
      assert s == [s[0]] + s[1..];
    }
  }

  /** When a key was last used, or -1. */
  function LastUse(touches: seq<Key>, key: Key): (r: int)
    ensures -1 <= r < |touches|
  {
    if touches == [] then -1
    else if touches[|touches| - 1] == key then |touches| - 1
    else LastUse(touches[..|touches| - 1], key)
  }

  /** The list is in order of last use, most recent first. */
  ghost predicate Recent(s: seq<Key>, touches: seq<Key>) {
    forall i, j :: 0 <= i < j < |s| ==> LastUse(touches, s[i]) > LastUse(touches, s[j])
  }

  lemma {:induction false} WithoutKeepsRecent(s: seq<Key>, key: Key, touches: seq<Key>)
    requires Recent(s, touches)
    ensures Recent(Without(s, key), touches)
  {
    if s != [] {
      WithoutKeepsRecent(s[1..], key, touches);
      var rest := Without(s[1..], key);
      forall k | k in rest ensures LastUse(touches, s[0]) > LastUse(touches, k) {
        var j :| 0 <= j < |s[1..]| && s[1..][j] == k;
        assert s[j + 1] == k;
      }
    }
  }

  lemma TouchedIsRecent(s: seq<Key>, key: Key, touches: seq<Key>)
    requires Recent(s, touches) && key !in s
    ensures Recent([key] + s, touches + [key])
  {
    var after := touches + [key];
    assert after[..|after| - 1] == touches;
    forall k | k in s ensures LastUse(after, k) == LastUse(touches, k) < |touches| == LastUse(after, key) {}
  }

  // ------------------------------------------------------------ invariant

  /** Map and list hold the same keys, one for one, never more than the size, in order. */
  ghost predicate Inv(c: Cache) {
    && c.size >= 1
    && Distinct(c.lru) && (forall k :: k in c.lru <==> k in c.entries)
    && |c.lru| <= c.size
    && Recent(c.lru, c.touches)
    && (forall k :: k in c.entries ==> |c.entries[k].answer| >= 12)
  }

  /** As many entries as list elements. */
  lemma {:induction false} SameCount(lru: seq<Key>, keys: set<Key>)
    requires Distinct(lru) && forall k :: k in lru <==> k in keys
    ensures |lru| == |keys|
  {
    if lru == [] {
      assert keys == {};
    } else {
      SameCount(lru[1..], keys - {lru[0]});
    }
  }

  // ----------------------------------------------------------- operations

  /** The keys in front, as many as fit; the rest leave map and list together. */
  function Evicted(c: Cache, limit: nat): Cache {
    var keep := c.lru[..if |c.lru| < limit then |c.lru| else limit];
    c.(lru := keep, entries := Kept(c.entries, keep))
  }

  function Kept(entries: map<Key, Entry>, keep: seq<Key>): map<Key, Entry> {
    map k | k in entries && k in keep :: entries[k]
  }

  function Touched(c: Cache, key: Key): Cache {
    c.(lru := [key] + Without(c.lru, key), touches := c.touches + [key])
  }

  function Stored(c: Cache, key: Key, answer: Bytes, ttl: int, now: int): Cache {
    if ttl <= 0 then c
    else
      var e := Entry(answer, now, now + ttl, false);
      var room := if key in c.entries || c.size == 0 then c else Evicted(c, c.size - 1);
      Touched(room.(entries := room.entries[key := e]), key)
  }

  predicate Fresh(e: Entry, now: int) { now < e.expires }

  predicate Servable(e: Entry, now: int, stale: int) { Fresh(e, now) || (stale > 0 && now < e.expires + stale) }

  function LookedUp(c: Cache, key: Key, now: int, stale: int): Cache {
    if key !in c.entries then c
    else
      var e := c.entries[key];
      if !Servable(e, now, stale) then c.(entries := c.entries - {key}, lru := Without(c.lru, key))
      else Touched(c.(entries := c.entries[key := e.(refreshing := e.refreshing || !Fresh(e, now))]), key)
  }

  /** What `lookup` hands out: the stored answer aged, under the id of the query. */
  function Served(e: Entry, query: Bytes, now: int): (r: Bytes)
    requires |e.answer| >= 12 && |query| >= 2
  {
    Put(Aged(e.answer, if Fresh(e, now) then Elapsed(e, now) else STALE), 0, query[..2])
  }

  /** Whole seconds since the entry was stored, cut to 32 bits. */
  function Elapsed(e: Entry, now: int): nat {
    (if now >= e.stored then (now - e.stored) / SECOND else 0) % 0x1_0000_0000
  }

  function Flushed(c: Cache): Cache { c.(entries := map[], lru := []) }

  function Resized(c: Cache, size: int): Cache {
    var n := if size < 1 then 1 else size;
    Evicted(c.(size := n), n)
  }

  // --------------------------------------------------------- preservation

  lemma EvictKeepsInv(c: Cache, limit: nat)
    requires Inv(c)
    ensures Inv(Evicted(c, limit)) && |Evicted(c, limit).lru| <= limit
  {
  }

  lemma RemoveKeepsInv(c: Cache, key: Key)
    requires Inv(c)
    ensures Inv(c.(entries := c.entries - {key}, lru := Without(c.lru, key)))
  {
    WithoutKeepsDistinct(c.lru, key);
    WithoutKeepsRecent(c.lru, key, c.touches);
  }

  lemma PutKeepsInv(c: Cache, key: Key, e: Entry)
    requires Inv(c) && |e.answer| >= 12 && (key in c.entries || |c.lru| < c.size)
    ensures Inv(Touched(c.(entries := c.entries[key := e]), key))
  {
    var rest := Without(c.lru, key);
    WithoutKeepsDistinct(c.lru, key);
    WithoutKeepsRecent(c.lru, key, c.touches);
    TouchedIsRecent(rest, key, c.touches);
  }

  datatype Op =
    | Lookup(key: Key, now: int, stale: int)
    | Store(key: Key, answer: Bytes, ttl: int, now: int)
    | Renewed(key: Key)                  // a failed renewal clears the refreshing mark
    | Flush
    | Reconfigure(size: int)

  /** Only answers of at least a header have a positive time to live (`answerTTL`). */
  predicate Legal(op: Op) { op.Store? && op.ttl > 0 ==> |op.answer| >= 12 }

  function Apply(c: Cache, op: Op): Cache {
    match op
    case Lookup(key, now, stale) => LookedUp(c, key, now, stale)
    case Store(key, answer, ttl, now) => Stored(c, key, answer, ttl, now)
    case Renewed(key) =>
      if key in c.entries then c.(entries := c.entries[key := c.entries[key].(refreshing := false)]) else c
    case Flush => Flushed(c)
    case Reconfigure(size) => Resized(c, size)
  }

  lemma LookupKeepsInv(c: Cache, key: Key, now: int, stale: int)
    requires Inv(c)
    ensures Inv(LookedUp(c, key, now, stale))
  {
    if key in c.entries {
      var e := c.entries[key];
      if Servable(e, now, stale) {
        PutKeepsInv(c, key, e.(refreshing := e.refreshing || !Fresh(e, now)));
      } else {
        RemoveKeepsInv(c, key);
      }
    }
  }

  lemma StoreKeepsInv(c: Cache, key: Key, answer: Bytes, ttl: int, now: int)
    requires Inv(c) && (ttl > 0 ==> |answer| >= 12)
    ensures Inv(Stored(c, key, answer, ttl, now))
  {
    if ttl > 0 {
      var e := Entry(answer, now, now + ttl, false);
      if key in c.entries {
        PutKeepsInv(c, key, e);
      } else {
        EvictKeepsInv(c, c.size - 1);
        PutKeepsInv(Evicted(c, c.size - 1), key, e);
      }
    }
  }

  lemma ApplyKeepsInv(c: Cache, op: Op)
    requires Inv(c) && Legal(op)
    ensures Inv(Apply(c, op))
  {
    match op
    case Lookup(key, now, stale) => LookupKeepsInv(c, key, now, stale);
    case Store(key, answer, ttl, now) => StoreKeepsInv(c, key, answer, ttl, now);
    case Reconfigure(size) =>
      var n := if size < 1 then 1 else size;
      var whole := c.(size := if n < |c.lru| then |c.lru| else n);
      assert Inv(whole);
      EvictKeepsInv(whole, n);
    case _ =>
  }

  function Run(c: Cache, ops: seq<Op>): Cache {
    if ops == [] then c else Apply(Run(c, ops[..|ops| - 1]), ops[|ops| - 1])
  }

  /** On every run of operations the map and the list stay one for one, in order of last
    use, and within the size. */
  lemma {:induction false} RunKeepsInv(c: Cache, ops: seq<Op>)
    requires Inv(c) && forall op :: op in ops ==> Legal(op)
    ensures Inv(Run(c, ops)) && |Run(c, ops).entries| <= Run(c, ops).size
  {
    if ops != [] {
      RunKeepsInv(c, ops[..|ops| - 1]);
      ApplyKeepsInv(Run(c, ops[..|ops| - 1]), ops[|ops| - 1]);
    }
    var after := Run(c, ops);
    SameCount(after.lru, after.entries.Keys);
  }

  /** The key an operation uses: a hit, or an answer worth storing. */
  function Use(c: Cache, op: Op): seq<Key> {
    match op
    case Lookup(key, now, stale) => if key in c.entries && Servable(c.entries[key], now, stale) then [key] else []
    case Store(key, answer, ttl, now) => if ttl > 0 then [key] else []
    case _ => []
  }

  /** The uses of a run, told from its operations. */
  function History(c: Cache, ops: seq<Op>): seq<Key> {
    if ops == [] then []
    else History(c, ops[..|ops| - 1]) + Use(Run(c, ops[..|ops| - 1]), ops[|ops| - 1])
  }

  lemma UseIsTouched(c: Cache, op: Op)
    ensures Apply(c, op).touches == c.touches + Use(c, op)
  {
  }

  lemma {:induction false} TouchesAreHistory(c: Cache, ops: seq<Op>)
    requires c.touches == []
    ensures Run(c, ops).touches == History(c, ops)
  {
    if ops != [] {
      TouchesAreHistory(c, ops[..|ops| - 1]);
      UseIsTouched(Run(c, ops[..|ops| - 1]), ops[|ops| - 1]);
    }
  }

  /** The order of the list is the order of the run's own hits and stores. */
  lemma OrderIsHistory(c: Cache, ops: seq<Op>)
    requires Inv(c) && c.touches == [] && forall op :: op in ops ==> Legal(op)
    ensures Recent(Run(c, ops).lru, History(c, ops))
  {
    RunKeepsInv(c, ops);
    TouchesAreHistory(c, ops);
  }

  /** Evictions take the least recently used: whatever goes was last used before anything
    that stays. */
  lemma EvictsLeastRecent(c: Cache, limit: nat, gone: Key, kept: Key)
    requires Inv(c) && gone in c.entries && gone !in Evicted(c, limit).entries && kept in Evicted(c, limit).entries
    ensures LastUse(c.touches, gone) < LastUse(c.touches, kept)
  {
    var i :| 0 <= i < |c.lru| && c.lru[i] == gone;
    var j :| 0 <= j < |Evicted(c, limit).lru| && c.lru[j] == kept;
  }

  lemma IdKeepsField(a: Bytes, id: Bytes, p: nat)
    requires |id| == 2 && 2 <= p && p + 4 <= |a|
    ensures U32(Put(a, 0, id), p) == U32(a, p)
  {
  }

  /** A fresh hit serves every TTL but OPT's as stored less the whole seconds elapsed,
    never below one, under the query's own id. */
  lemma FreshHitServes(e: Entry, query: Bytes, now: int, p: nat)
    requires |e.answer| >= 12 && |query| >= 2 && e.stored <= now < e.stored + 0xFFFF_FFFF * SECOND && Fresh(e, now)
    requires p in Visited(e.answer)
    ensures Served(e, query, now)[..2] == query[..2]
    ensures p + 10 <= |e.answer| && Reads(e.answer, p, (now - e.stored) / SECOND, Served(e, query, now))
  {
    var secs := Elapsed(e, now);
    assert secs == (now - e.stored) / SECOND;
    AgedTtl(e.answer, secs, p);
    IdKeepsField(Aged(e.answer, secs), query[..2], p + 4);
  }

  // ------------------------------------------------------------- in place

  ghost predicate OneForOne(entries: map<Key, Entry>, lru: seq<Key>) {
    Distinct(lru) && forall k :: k in lru <==> k in entries
  }

  lemma KeptAll(entries: map<Key, Entry>, lru: seq<Key>)
    requires OneForOne(entries, lru)
    ensures Kept(entries, lru) == entries && |entries| == |lru|
  {
    SameCount(lru, entries.Keys);
  }

  /** Dropping the key at the back keeps map and list one for one. */
  lemma DropBack(entries: map<Key, Entry>, lru: seq<Key>)
    requires OneForOne(entries, lru) && lru != []
    ensures OneForOne(entries - {lru[|lru| - 1]}, lru[..|lru| - 1])
    ensures |entries - {lru[|lru| - 1]}| == |lru| - 1
  {
    var back, front := lru[|lru| - 1], lru[..|lru| - 1];
    assert lru == front + [back];
    assert back !in front;
    KeptAll(entries - {back}, front);
  }

  lemma KeptPrefix(all: map<Key, Entry>, whole: seq<Key>, entries: map<Key, Entry>, front: seq<Key>)
    requires OneForOne(all, whole) && OneForOne(entries, front) && front <= whole
    requires forall k :: k in entries ==> k in all && entries[k] == all[k]
    ensures entries == Kept(all, front)
  {
  }

  /** What the loop of `evictAbove` has left of `c`. */
  ghost predicate Trimmed(c: Cache, entries: map<Key, Entry>, lru: seq<Key>, limit: nat) {
    && OneForOne(entries, lru) && |entries| == |lru| && lru <= c.lru
    && (forall k :: k in entries ==> k in c.entries && entries[k] == c.entries[k])
    && (|lru| >= limit || lru == c.lru)
  }

  lemma TrimFirst(c: Cache, limit: nat)
    requires OneForOne(c.entries, c.lru)
    ensures Trimmed(c, c.entries, c.lru, limit)
  {
    KeptAll(c.entries, c.lru);
  }

  lemma TrimStep(c: Cache, entries: map<Key, Entry>, lru: seq<Key>, limit: nat)
    requires Trimmed(c, entries, lru, limit) && |entries| > limit
    ensures lru != [] && Trimmed(c, entries - {lru[|lru| - 1]}, lru[..|lru| - 1], limit)
  {
    DropBack(entries, lru);
  }

  lemma TrimLast(c: Cache, entries: map<Key, Entry>, lru: seq<Key>, limit: nat)
    requires OneForOne(c.entries, c.lru) && Trimmed(c, entries, lru, limit) && |entries| <= limit
    ensures Evicted(c, limit) == c.(entries := entries, lru := lru)
  {
    KeptPrefix(c.entries, c.lru, entries, lru);
  }

  class Resolver {
    var entries: map<Key, Entry>
    var lru: seq<Key>
    var size: nat
    var evicted: nat
    ghost var touches: seq<Key>

    ghost function View(): Cache
      reads this
    {
      Cache(entries, lru, size, touches)
    }

    constructor (n: int)
      ensures Inv(View()) && View() == Cache(map[], [], if n < 1 then 1 else n, [])
    {
      entries, lru, size, evicted, touches := map[], [], if n < 1 then 1 else n, 0, [];
    }

    /** `evictAbove`: from the back of the list while the map is too big. */
    method EvictAbove(limit: nat)
      requires OneForOne(entries, lru)
      modifies this`entries, this`lru, this`evicted
      ensures View() == Evicted(old(View()), limit)
      ensures evicted - old(evicted) == |old(lru)| - |lru|
    {
      TrimFirst(View(), limit);
      var kept, order := Trim(entries, lru, limit, View());
      evicted := evicted + |lru| - |order|;
      TrimLast(View(), kept, order, limit);
      entries, lru := kept, order;
    }

    /** The loop of `evictAbove`, on the map and the list. */
    static method Trim(entries: map<Key, Entry>, lru: seq<Key>, limit: nat, ghost c: Cache)
      returns (kept: map<Key, Entry>, order: seq<Key>)
      requires Trimmed(c, entries, lru, limit)
      ensures Trimmed(c, kept, order, limit) && |kept| <= limit && |order| <= |lru|
    {
      kept, order := entries, lru;
      while |kept| > limit
        invariant Trimmed(c, kept, order, limit) && |order| <= |lru|
      {
        TrimStep(c, kept, order, limit);
        var back := order[|order| - 1];
        order := order[..|order| - 1];
        kept := kept - {back};
      }
    }

    /** `Reconfigure`: a new size, and whatever no longer fits goes. */
    method Reconfigure(n: int)
      requires Inv(View())
      modifies this
      ensures View() == Resized(old(View()), n) && Inv(View())
    {
      ApplyKeepsInv(View(), Op.Reconfigure(n));
      size := if n < 1 then 1 else n;
      EvictAbove(size);
    }

    method Flush()
      modifies this
      ensures View() == Flushed(old(View())) && entries == map[] && lru == []
    {
      entries, lru := map[], [];
    }

    method Store(key: Key, answer: Bytes, ttl: int, now: int)
      requires Inv(View()) && (ttl > 0 ==> |answer| >= 12)
      modifies this
      ensures View() == Stored(old(View()), key, answer, ttl, now) && Inv(View())
      ensures Replaces(old(View()), key, answer, ttl, now, View())
    {
      StoreKeepsInv(View(), key, answer, ttl, now);
      StorePuts(View(), key, answer, ttl, now);
      if ttl <= 0 { return; }
      var e := Entry(answer, now, now + ttl, false);
      if key in entries {
        entries := entries[key := e];
        lru := [key] + Without(lru, key);
      } else {
        NewEntry(View(), key, answer, ttl, now);
        EvictAbove(size - 1);
        lru := [key] + lru;
        entries := entries[key := e];
      }
      touches := touches + [key];
    }

    method Lookup(key: Key, query: Bytes, now: int, stale: int) returns (got: Option<Bytes>, refresh: bool)
      requires Inv(View()) && |query| >= 2
      modifies this
      ensures View() == LookedUp(old(View()), key, now, stale) && Inv(View())
      ensures got.Some? <==> key in old(entries) && (now < old(entries)[key].expires
                                                     || (stale > 0 && now < old(entries)[key].expires + stale))
      ensures got.Some? ==> got.value == Served(old(entries)[key], query, now)
      ensures refresh <==> got.Some? && now >= old(entries)[key].expires && !old(entries)[key].refreshing
    {
      LookupKeepsInv(View(), key, now, stale);
      if key !in entries { return None, false; }
      var e := entries[key];
      if !Servable(e, now, stale) {
        lru := Without(lru, key);
        entries := entries - {key};
        return None, false;
      }
      lru := [key] + Without(lru, key);
      touches := touches + [key];
      refresh := !Fresh(e, now) && !e.refreshing;
      entries := entries[key := e.(refreshing := e.refreshing || refresh)];
      return Some(Served(e, query, now)), refresh;
    }
  }

  /** The answer is there, in front and whatever the key had before, unless it has no time to
    live, and no other entry is touched but to evict it. */
  ghost predicate Replaces(c: Cache, key: Key, answer: Bytes, ttl: int, now: int, after: Cache) {
    && (ttl <= 0 ==> after == c)
    && (ttl > 0 ==>
          && key in after.entries && after.entries[key] == Entry(answer, now, now + ttl, false)
          && |after.lru| > 0 && after.lru[0] == key)
    && forall k :: k in after.entries && k != key ==> k in c.entries && after.entries[k] == c.entries[k]
  }

  lemma StorePuts(c: Cache, key: Key, answer: Bytes, ttl: int, now: int)
    requires Inv(c)
    ensures Replaces(c, key, answer, ttl, now, Stored(c, key, answer, ttl, now))
  {
  }

  /** Storing a new key puts it in front of what an eviction leaves. */
  lemma NewEntry(c: Cache, key: Key, answer: Bytes, ttl: int, now: int)
    requires c.size >= 1 && ttl > 0 && key !in c.entries && key !in c.lru
    ensures var r := Evicted(c, c.size - 1);
      Stored(c, key, answer, ttl, now) ==
      Cache(r.entries[key := Entry(answer, now, now + ttl, false)], [key] + r.lru, c.size, c.touches + [key])
  {
    WithoutAbsent(Evicted(c, c.size - 1).lru, key);
  }

  lemma {:induction false} WithoutAbsent(s: seq<Key>, key: Key)
    requires key !in s
    ensures Without(s, key) == s
  {
    if s != [] { WithoutAbsent(s[1..], key); }
  }
}
