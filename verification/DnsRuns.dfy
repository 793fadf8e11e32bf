/** What the answer cache of internal/dnsproxy/dnsproxy.go holds and serves after any run of
  lookups, stores, renewals, flushes and resizings, told from the operations themselves. */
module DnsRuns {
  import opened Bytes
  import opened DnsAge
  import opened DnsCache
  import DnsWire

  /** A store of the key that takes: one with time to live. */
  predicate Puts(op: Op, key: Key) { op.Store? && op.key == key && op.ttl > 0 }

  /** The last store of the key that took, or -1. */
  function LastPut(ops: seq<Op>, key: Key): (r: int)
    ensures -1 <= r < |ops|
    ensures r >= 0 ==> Puts(ops[r], key)
    ensures forall k :: r < k < |ops| ==> !Puts(ops[k], key)
  {
    if ops == [] then -1
    else if Puts(ops[|ops| - 1], key) then |ops| - 1
    else LastPut(ops[..|ops| - 1], key)
  }

  /** The cache of a resolver that has done nothing yet. */
  ghost predicate New(c: Cache) { c.size >= 1 && c.entries == map[] && c.lru == [] && c.touches == [] }

  ghost predicate AllLegal(ops: seq<Op>) { forall op :: op in ops ==> Legal(op) }

  /** The entry is what the store put in, whatever has been asked of it since. */
  predicate From(e: Entry, op: Op)
    requires op.Store?
  {
    e.answer == op.answer && e.stored == op.now && e.expires == op.now + op.ttl
  }

  // --------------------------------------------------------- what is held

  /** An operation puts in nothing but a store of that key, and leaves what it keeps. */
  lemma OneStep(c: Cache, op: Op, key: Key)
    requires Inv(c) && key in Apply(c, op).entries
    ensures Puts(op, key) ==> From(Apply(c, op).entries[key], op) && !Apply(c, op).entries[key].refreshing
    ensures !Puts(op, key) ==> key in c.entries
    ensures !Puts(op, key) ==>
      Apply(c, op).entries[key].(refreshing := false) == c.entries[key].(refreshing := false)
  {
  }

  /** Every entry held is the answer last stored under its key, since when it was stored and
    for as long as it was given. */
  lemma {:induction false} HoldsLastPut(c: Cache, ops: seq<Op>, key: Key)
    requires New(c) && AllLegal(ops) && key in Run(c, ops).entries
    ensures LastPut(ops, key) >= 0 && From(Run(c, ops).entries[key], ops[LastPut(ops, key)])
  {
    if ops != [] {
      var before := ops[..|ops| - 1];
      RunKeepsInv(c, before);
      OneStep(Run(c, before), ops[|ops| - 1], key);
      if !Puts(ops[|ops| - 1], key) { HoldsLastPut(c, before, key); }
    }
  }

  /** A store that takes is there at once, in front, in place of whatever the key had. */
  lemma PutTakes(c: Cache, ops: seq<Op>, key: Key, answer: Bytes, ttl: int, now: int)
    requires New(c) && AllLegal(ops) && ttl > 0 && |answer| >= 12
    ensures var after := Run(c, ops + [Op.Store(key, answer, ttl, now)]);
      && key in after.entries && after.entries[key] == Entry(answer, now, now + ttl, false)
      && |after.lru| > 0 && after.lru[0] == key
  {
    var op := Op.Store(key, answer, ttl, now);
    assert (ops + [op])[..|ops|] == ops;
    RunKeepsInv(c, ops);
  }

  /** How a key is lost: by a flush; by a lookup of it past its time and its grace; by the
    store of a new key or a resizing that leaves no room so far back in the order of use. */
  predicate Loses(c: Cache, p: nat, op: Op)
    requires p < |c.lru| && c.lru[p] in c.entries
  {
    match op
    case Lookup(key, now, stale) =>
      key == c.lru[p] && now >= c.entries[key].expires && (stale <= 0 || now >= c.entries[key].expires + stale)
    case Store(key, answer, ttl, now) => ttl > 0 && key !in c.entries && p + 1 >= c.size
    case Renewed(key) => false
    case Flush => true
    case Reconfigure(size) => p >= size && p >= 1
  }

  lemma LosesExactly(c: Cache, ops: seq<Op>, p: nat, op: Op)
    requires New(c) && AllLegal(ops) && Legal(op) && p < |Run(c, ops).lru|
    ensures Run(c, ops).lru[p] in Run(c, ops).entries
    ensures Run(c, ops).lru[p] !in Run(c, ops + [op]).entries <==> Loses(Run(c, ops), p, op)
  {
    assert (ops + [op])[..|ops|] == ops;
    RunKeepsInv(c, ops);
    LosesOne(Run(c, ops), p, op);
  }

  lemma LosesOne(c: Cache, p: nat, op: Op)
    requires Inv(c) && p < |c.lru|
    ensures c.lru[p] !in Apply(c, op).entries <==> Loses(c, p, op)
  {
    if op.Store? || op.Reconfigure? {
      var limit := if op.Store? then c.size - 1 else if op.size < 1 then 1 else op.size;
      KeepsFront(c, limit, p);
    }
  }

  lemma KeepsFront(c: Cache, limit: nat, p: nat)
    requires Inv(c) && p < |c.lru|
    ensures c.lru[p] in Evicted(c, limit).entries <==> p < limit
  {
    var keep := Evicted(c, limit).lru;
    assert forall k :: 0 <= k < |keep| ==> keep[k] == c.lru[k];
  }

  /** A resizing keeps as many as fit, and a cache has room for one at least. */
  lemma ResizeKeeps(c: Cache, ops: seq<Op>, size: int)
    requires New(c) && AllLegal(ops)
    ensures var was, now := Run(c, ops), Run(c, ops + [Op.Reconfigure(size)]);
      && now.size == (if size < 1 then 1 else size)
      && |now.entries| == if |was.entries| < now.size then |was.entries| else now.size
  {
    var op := Op.Reconfigure(size);
    assert (ops + [op])[..|ops|] == ops;
    RunKeepsInv(c, ops);
    RunKeepsInv(c, ops + [op]);
    SameCount(Run(c, ops).lru, Run(c, ops).entries.Keys);
    SameCount(Run(c, ops + [op]).lru, Run(c, ops + [op]).entries.Keys);
  }

  // -------------------------------------------------------- what is served

  /** The seconds an answer is aged by: those since it was stored, cut to 32 bits, or, past
    its time, as many as leave one second. */
  function Seconds(op: Op, now: int): nat
    requires op.Store?
  {
    if now >= op.now + op.ttl then 0xFFFF_FFFF
    else if now >= op.now then (now - op.now) / 1_000_000_000 % 0x1_0000_0000
    else 0
  }

  lemma ServesOne(e: Entry, op: Op, query: Bytes, now: int)
    requires op.Store? && From(e, op) && |e.answer| >= 12 && |query| >= 2
    ensures Served(e, query, now) == Put(Aged(op.answer, Seconds(op, now)), 0, query[..2])
  {
    var secs := if Fresh(e, now) then Elapsed(e, now) else STALE;
    assert secs == Seconds(op, now);
  }

  lemma UnderId(m: DnsWire.Message, query: Bytes)
    requires DnsWire.Counted(m) && |query| >= 2
    ensures Put(DnsWire.Encode(m), 0, query[..2]) == DnsWire.Encode(m.(id := U16(query, 0)))
  {
    assert Be16(U16(query, 0)) == query[..2];
    var a, b := DnsWire.Encode(m), DnsWire.Encode(m.(id := U16(query, 0)));
    assert a == a[..12] + a[12..] && b == b[..12] + b[12..] && a[12..] == b[12..];
    assert a[..12] == DnsWire.Header(m) && b[..12] == DnsWire.Header(m.(id := U16(query, 0)));
  }

  /** After any run a hit serves the message last stored under its key, every record older
    by the seconds since that store, under the id of the query that asks. */
  lemma HitServesLastPut(c: Cache, ops: seq<Op>, key: Key, query: Bytes, now: int, m: DnsWire.Message)
    requires New(c) && AllLegal(ops) && key in Run(c, ops).entries && |query| >= 2
    requires DnsWire.Counted(m) && LastPut(ops, key) >= 0 && ops[LastPut(ops, key)].answer == DnsWire.Encode(m)
    ensures |Run(c, ops).entries[key].answer| >= 12
    ensures Served(Run(c, ops).entries[key], query, now)
         == DnsWire.Encode(DnsWire.OlderMessage(m, Seconds(ops[LastPut(ops, key)], now)).(id := U16(query, 0)))
  {
    var e, op := Run(c, ops).entries[key], ops[LastPut(ops, key)];
    HoldsLastPut(c, ops, key);
    ServesOne(e, op, query, now);
    DnsWire.AgesEncoded(m, Seconds(op, now));
    UnderId(DnsWire.OlderMessage(m, Seconds(op, now)), query);
  }

  // --------------------------------------------------------- asking anew

  /** A lookup that asks for a renewal: past its time but within its grace, and none asked for yet. */
  predicate Asks(c: Cache, op: Op, key: Key) {
    && op.Lookup? && op.key == key && key in c.entries && !c.entries[key].refreshing
    && c.entries[key].expires <= op.now < c.entries[key].expires + op.stale
  }

  /** The renewal of the key is over, well or badly. */
  predicate Settles(op: Op, key: Key) { Puts(op, key) || (op.Renewed? && op.key == key) }

  /** Until a renewal that was asked for has ended no other is asked for. */
  lemma RenewedOnce(c: Cache, ops: seq<Op>, key: Key, i: nat, j: nat)
    requires New(c) && AllLegal(ops) && i < j < |ops|
    requires Asks(Run(c, ops[..i]), ops[i], key) && Asks(Run(c, ops[..j]), ops[j], key)
    ensures exists k :: i < k < j && Settles(ops[k], key)
  {
    if forall k :: i < k < j ==> !Settles(ops[k], key) {
      RunStep(c, ops, i + 1);
      AskedMarks(Run(c, ops[..i]), ops[i], key);
      StaysAsked(c, ops, key, i, j);
      assert false;
    }
  }

  /** After `k` operations a renewal of the key is under way, if the key is still held. */
  ghost predicate Marked(c: Cache, ops: seq<Op>, key: Key, k: nat)
    requires k <= |ops|
  {
    key in Run(c, ops[..k]).entries ==> Run(c, ops[..k]).entries[key].refreshing
  }

  lemma {:induction false} StaysAsked(c: Cache, ops: seq<Op>, key: Key, i: nat, j: nat)
    requires New(c) && AllLegal(ops) && i < j <= |ops|
    requires Marked(c, ops, key, i + 1) && forall k :: i < k < j ==> !Settles(ops[k], key)
    ensures Marked(c, ops, key, j)
    decreases j
  {
    if j - 1 > i {
      StaysAsked(c, ops, key, i, j - 1);
      StaysMarked(c, ops, key, j - 1);
    }
  }

  lemma StaysMarked(c: Cache, ops: seq<Op>, key: Key, k: nat)
    requires New(c) && AllLegal(ops) && k < |ops| && Marked(c, ops, key, k) && !Settles(ops[k], key)
    ensures Marked(c, ops, key, k + 1)
  {
    RunStep(c, ops, k + 1);
    RunKeepsInv(c, ops[..k]);
    StaysOne(Run(c, ops[..k]), ops[k], key);
  }

  lemma RunStep(c: Cache, ops: seq<Op>, j: nat)
    requires 0 < j <= |ops|
    ensures Run(c, ops[..j]) == Apply(Run(c, ops[..j - 1]), ops[j - 1])
  {
    assert ops[..j][..j - 1] == ops[..j - 1];
  }

  lemma AskedMarks(c: Cache, op: Op, key: Key)
    requires Asks(c, op, key)
    ensures key in Apply(c, op).entries && Apply(c, op).entries[key].refreshing
  {
  }

  lemma StaysOne(c: Cache, op: Op, key: Key)
    requires Inv(c) && !Settles(op, key) && (key in c.entries ==> c.entries[key].refreshing)
    ensures key in Apply(c, op).entries ==> Apply(c, op).entries[key].refreshing
  {
  }
}
