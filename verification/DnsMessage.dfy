/** The small message codec of internal/dnsproxy/dnsproxy.go (section 4.1 of RFC 1035):
  reading a question, answering it with an address, and reading addresses back.  An empty
  byte string stands for nil. */
module DnsMessage {
  import opened Options
  import opened Bytes
  import opened DnsAge

  const DOT: byte := 46
  const A := 1
  const AAAA := 28

  // ------------------------------------------------------------- question

  /** `questionEnd` from the label at `at`: the index after type and class, or -1. */
  function QEnd(msg: Bytes, at: nat): (r: int)
    ensures r == -1 || at + 5 <= r <= |msg|
    decreases if at < |msg| then |msg| - at else 0
  {
    if at >= |msg| then -1
    else if msg[at] == 0 then (if at + 5 > |msg| then -1 else at + 5)
    else if msg[at] >= 0x40 then -1
    else QEnd(msg, at + msg[at] as int + 1)
  }

  function QuestionEnd(msg: Bytes): (r: int)
    ensures r == -1 || 17 <= r <= |msg|
  {
    if |msg| < 12 then -1 else QEnd(msg, 12)
  }

  method QuestionEndLoop(msg: Bytes) returns (end: int)
    ensures end == QuestionEnd(msg)
  {
    if |msg| < 12 { return -1; }
    var at: nat := 12;
    while at < |msg|
      invariant QEnd(msg, at) == QEnd(msg, 12)
    {
      var length := msg[at] as int;
      if length == 0 {
        at := at + 1;
        if at + 4 > |msg| { return -1; }
        return at + 4;
      }
      if length >= 0x40 { return -1; }
      at := at + length + 1;
    }
    return -1;
  }

  function Join(a: Bytes, b: Bytes): Bytes {
    if a == [] then b else if b == [] then a else a + [DOT] + b
  }

  /** The labels from `at` to the root, with dots between them. */
  function NameOf(msg: Bytes, at: nat): Bytes
    decreases if at < |msg| then |msg| - at else 0
  {
    if at >= |msg| || msg[at] == 0 || at + 1 + msg[at] as int > |msg| then []
    else Join(msg[at + 1..at + 1 + msg[at] as int], NameOf(msg, at + 1 + msg[at] as int))
  }

  datatype Asked = Asked(name: Bytes, qtype: nat)

  /** What a question reads as, when there is one; `lower` is `strings.ToLower`, whatever it does. */
  function QuestionSpec(msg: Bytes, lower: Bytes -> Bytes): Option<Asked> {
    var end := QuestionEnd(msg);
    if end < 0 || U16(msg, 4) == 0 then None else Some(Asked(lower(NameOf(msg, 12)), U16(msg, end - 4)))
  }

  lemma JoinAssoc(a: Bytes, b: Bytes, c: Bytes)
    ensures Join(Join(a, b), c) == Join(a, Join(b, c))
  {
    if a != [] && b != [] && c != [] {
      assert a + [DOT] + b + [DOT] + c == a + [DOT] + (b + [DOT] + c);
    }
  }

  lemma QuestionStep(msg: Bytes, i: nat, sb: Bytes)
    requires i < |msg| && 0 < msg[i] < 0x40 && i + 1 + msg[i] as int <= |msg|
    ensures var next := i + 1 + msg[i] as int; var part := msg[i + 1..next];
      && QEnd(msg, next) == QEnd(msg, i)
      && Join(if |sb| > 0 then sb + [DOT] + part else part, NameOf(msg, next)) == Join(sb, NameOf(msg, i))
  {
    var next := i + 1 + msg[i] as int;
    JoinAssoc(sb, msg[i + 1..next], NameOf(msg, next));
  }

  /** `Question` accepts a message exactly when `questionEnd` does and a question is
    announced, and reads the same name and type. */
  method Question(msg: Bytes, lower: Bytes -> Bytes) returns (got: Option<Asked>)
    ensures got == QuestionSpec(msg, lower)
  {
    if |msg| < 12 || U16(msg, 4) == 0 { return None; }
    var sb: Bytes, i: nat := [], 12;
    while i < |msg| && msg[i] != 0
      invariant 12 <= i <= |msg| && QEnd(msg, i) == QEnd(msg, 12)
      invariant Join(sb, NameOf(msg, i)) == NameOf(msg, 12)
    {
      var l := msg[i] as int;
      if l >= 0x40 || i + 1 + l > |msg| { return None; }
      QuestionStep(msg, i, sb);
      var part := msg[i + 1..i + 1 + l];
      sb := if |sb| > 0 then sb + [DOT] + part else part;
      i := i + 1 + l;
    }
    if i < |msg| { i := i + 1; }
    if i + 4 > |msg| { return None; }
    return Some(Asked(lower(sb), U16(msg, i)));
  }

  /** The question depends on nothing but the bytes of the name and its root. */
  lemma {:induction false} QEndLocal(a: Bytes, b: Bytes, at: nat)
    requires QEnd(a, at) >= 0 && QEnd(a, at) <= |b|
    requires forall k :: at <= k < QEnd(a, at) - 4 ==> a[k] == b[k]
    ensures QEnd(b, at) == QEnd(a, at) && NameOf(b, at) == NameOf(a, at)
    decreases |a| - at
  {
    if a[at] != 0 {
      var next := at + a[at] as int + 1;
      QEndLocal(a, b, next);
      assert a[at + 1..next] == b[at + 1..next];
    }
  }

  // -------------------------------------------------------------- replies

  function ShortReply(query: Bytes, low: byte): (out: Bytes)
    ensures out == [] <==> QuestionEnd(query) < 0
    ensures out != [] ==> |out| == QuestionEnd(query)
  {
    var end := QuestionEnd(query);
    if end < 0 then []
    else Put(query[..end], 2, [0x81, low] + Be16(1) + Zeros(6))
  }

  /** `ip.To4` and `ip.To16` on a 4- or 16-byte address. */
  function To4(ip: Bytes): (r: Bytes) {
    if |ip| == 4 then ip
    else if |ip| == 16 && ip[..12] == Zeros(10) + [0xFF, 0xFF] then ip[12..]
    else []
  }

  function To16(ip: Bytes): (r: Bytes) {
    if |ip| == 4 then Zeros(10) + [0xFF, 0xFF] + ip else if |ip| == 16 then ip else []
  }

  /** The address a query of the type is answered with; empty if there is none. */
  function Payload(ip: Bytes, qtype: nat): (r: Bytes)
    ensures r == [] || |r| == if qtype == A then 4 else 16
  {
    if qtype == A then To4(ip) else To16(ip)
  }

  /** One answer record: a pointer to the question's name, 30 seconds to live. */
  function Record(qtype: nat, data: Bytes): Bytes
    requires qtype < 0x1_0000 && |data| < 0x1_0000
  {
    [0xC0, 0x0C] + Be16(qtype) + [0x00, 0x01, 0x00, 0x00, 0x00, 0x1E] + Be16(|data|) + data
  }

  function AnswerTo(query: Bytes, ip: Bytes, qtype: nat): (out: Bytes)
    requires qtype < 0x1_0000
  {
    var head, data := ShortReply(query, 0x80), Payload(ip, qtype);
    if head == [] || data == [] then [] else Put(head, 6, Be16(1)) + Record(qtype, data)
  }

  /** `AskFor`: the question alone, with another type. */
  function AskFor(query: Bytes, qtype: nat): (out: Bytes)
    requires qtype < 0x1_0000
  {
    var end := QuestionEnd(query);
    if end < 17 then [] else Put(Put(query[..end], 4, Be16(1) + Zeros(6)), end - 4, Be16(qtype))
  }

  /** `AskFor` repeats the question and changes nothing in it but the type. */
  lemma AskForChangesType(query: Bytes, qtype: nat, lower: Bytes -> Bytes)
    requires qtype < 0x1_0000 && QuestionEnd(query) >= 0
    ensures var out, end := AskFor(query, qtype), QuestionEnd(query);
      && |out| == end
      && QuestionSpec(out, lower) == Some(Asked(lower(NameOf(query, 12)), qtype))
      && (forall k :: 0 <= k < 4 || 12 <= k < end - 4 || end - 2 <= k < end ==> out[k] == query[k])
  {
    var end := QuestionEnd(query);
    var out := AskFor(query, qtype);
    QEndLocal(query, out, 12);
    assert out[end - 4..end - 2] == Be16(qtype);
    assert U16(out, 4) == 1;
  }

  // ------------------------------------------------------------ addresses

  /** The first answer from `i` on of the wanted type and size. */
  function FindAddr(msg: Bytes, i: nat, n: nat, qtype: nat, want: nat): Option<Bytes>
    decreases n
  {
    if n == 0 || i + 12 > |msg| then None
    else
      var j := SkipName(msg, i);
      if j + 10 > |msg| then None
      else
        var rdlen := U16(msg, j + 8);
        if j + 10 + rdlen > |msg| then None
        else if U16(msg, j) == qtype && rdlen == want then Some(msg[j + 10..j + 10 + rdlen])
        else FindAddr(msg, j + 10 + rdlen, n - 1, qtype, want)
  }

  function FirstAddrSpec(msg: Bytes, qtype: nat): Option<Bytes> {
    if |msg| < 12 || QuestionEnd(msg) < 0 then None
    else FindAddr(msg, QuestionEnd(msg), U16(msg, 6), qtype, if qtype == AAAA then 16 else 4)
  }

  /** The record at `j` holds this many bytes of data, all of them there. */
  predicate Whole(msg: Bytes, j: nat) { j + 10 <= |msg| && j + 10 + U16(msg, j + 8) <= |msg| }

  /** The address of the record at `j`, put through `u`, if it is an A or AAAA record of the right size. */
  function OneAddr(msg: Bytes, j: nat, u: Bytes -> Bytes): seq<Bytes>
    requires Whole(msg, j)
  {
    var kind, rdlen := U16(msg, j), U16(msg, j + 8);
    if (kind == A && rdlen == 4) || (kind == AAAA && rdlen == 16) then [u(msg[j + 10..j + 10 + rdlen])] else []
  }

  /** The addresses found so far and every A and AAAA address from `i` on, in order. */
  function AllAddrs(msg: Bytes, i: nat, n: nat, out: seq<Bytes>, u: Bytes -> Bytes): seq<Bytes>
    decreases n
  {
    if n == 0 || i + 12 > |msg| then out
    else
      var j := SkipName(msg, i);
      if !Whole(msg, j) then out else AllAddrs(msg, j + 10 + U16(msg, j + 8), n - 1, out + OneAddr(msg, j, u), u)
  }

  /** `addr.Unmap` on the bytes of an address. */
  function Unmapped(b: Bytes): Bytes { if To4(b) != [] then To4(b) else b }

  function AddrsSpec(msg: Bytes): seq<Bytes> {
    if QuestionEnd(msg) < 0 then [] else AllAddrs(msg, QuestionEnd(msg), U16(msg, 6), [], Unmapped)
  }

  method SkipNameIn(msg: Bytes, start: nat) returns (i: nat)
    ensures i == SkipName(msg, start)
  {
    i := start;
    while i < |msg|
      invariant SkipName(msg, i) == SkipName(msg, start)
    {
      if msg[i] >= 0xC0 { return i + 2; }
      if msg[i] == 0 { return i + 1; }
      i := i + 1 + msg[i] as int;
    }
  }

  method FirstAddr(msg: Bytes, qtype: nat) returns (got: Option<Bytes>)
    ensures got == FirstAddrSpec(msg, qtype)
  {
    if |msg| < 12 { return None; }
    var n: nat := U16(msg, 6);
    var end := QuestionEndLoop(msg);
    if n == 0 || end < 0 { return None; }
    var want := if qtype == AAAA then 16 else 4;
    var i: nat := end;
    while n > 0 && i + 12 <= |msg|
      invariant FindAddr(msg, i, n, qtype, want) == FirstAddrSpec(msg, qtype)
      decreases n
    {
      i := SkipNameIn(msg, i);
      if i + 10 > |msg| { return None; }
      var kind, rdlen := U16(msg, i), U16(msg, i + 8);
      i := i + 10;
      if i + rdlen > |msg| { return None; }
      if kind == qtype && rdlen == want { return Some(msg[i..i + rdlen]); }
      i, n := i + rdlen, n - 1;
    }
    return None;
  }

  /** One turn of the loop of `Addrs`. */
  lemma AllAddrsStep(msg: Bytes, i: nat, n: nat, out: seq<Bytes>, j: nat, u: Bytes -> Bytes)
    requires n > 0 && i + 12 <= |msg| && j == SkipName(msg, i)
    ensures AllAddrs(msg, i, n, out, u) ==
      if !Whole(msg, j) then out else AllAddrs(msg, j + 10 + U16(msg, j + 8), n - 1, out + OneAddr(msg, j, u), u)
  {
  }

  /** What is found so far and what is still ahead make up the goal. */
  ghost predicate Toward(msg: Bytes, i: nat, n: nat, out: seq<Bytes>, u: Bytes -> Bytes, goal: seq<Bytes>) {
    AllAddrs(msg, i, n, out, u) == goal
  }

  method AddrsNext(msg: Bytes, i: nat, n: nat, out: seq<Bytes>, u: Bytes -> Bytes, ghost goal: seq<Bytes>)
    returns (next: Option<nat>, more: seq<Bytes>)
    requires n > 0 && i + 12 <= |msg| && Toward(msg, i, n, out, u, goal)
    ensures next == None ==> more == goal
    ensures next.Some? ==> Toward(msg, next.value, n - 1, more, u, goal)
  {
    var j := SkipNameIn(msg, i);
    AllAddrsStep(msg, i, n, out, j, u);
    if !Whole(msg, j) { return None, out; }
    return Some(j + 10 + U16(msg, j + 8)), out + OneAddr(msg, j, u);
  }

  method AddrsLoop(msg: Bytes, start: nat, records: nat, u: Bytes -> Bytes, ghost goal: seq<Bytes>) returns (out: seq<Bytes>)
    requires Toward(msg, start, records, [], u, goal)
    ensures out == goal
  {
    out := [];
    var n: nat, i: nat := records, start;
    while n > 0 && i + 12 <= |msg|
      invariant Toward(msg, i, n, out, u, goal)
      decreases n
    {
      var next;
      next, out := AddrsNext(msg, i, n, out, u, goal);
      if next == None { return; }
      i, n := next.value, n - 1;
    }
  }

  method Addrs(msg: Bytes) returns (out: seq<Bytes>)
    ensures out == AddrsSpec(msg)
  {
    var end := QuestionEndLoop(msg);
    if end < 0 { return []; }
    out := AddrsLoop(msg, end, U16(msg, 6), Unmapped, AddrsSpec(msg));
  }

  // ----------------------------------------------------------- round trip

  /** The layout of an answer, byte by byte. */
  lemma AnswerLayout(query: Bytes, ip: Bytes, qtype: nat)
    requires (qtype == A || qtype == AAAA) && QuestionEnd(query) >= 0 && Payload(ip, qtype) != []
    ensures var out, end, data := AnswerTo(query, ip, qtype), QuestionEnd(query), Payload(ip, qtype);
      && |out| == end + 12 + |data|
      && (forall k :: 0 <= k < 2 || 12 <= k < end ==> out[k] == query[k])
      && out[2] == 0x81 && out[3] == 0x80 && U16(out, 4) == 1 && U16(out, 6) == 1 && U16(out, 8) == 0 && U16(out, 10) == 0
      && out[end] == 0xC0 && U16(out, end + 2) == qtype && U32(out, end + 6) == 30 && U16(out, end + 10) == |data|
      && out[end + 12..] == data
  {
    var end, data := QuestionEnd(query), Payload(ip, qtype);
    var head, record := Put(ShortReply(query, 0x80), 6, Be16(1)), Record(qtype, data);
    HeadLayout(query);
    RecordLayout(qtype, data);
    JoinedLayout(head, record);
    assert AnswerTo(query, ip, qtype) == head + record;
  }

  lemma HeadLayout(query: Bytes)
    requires QuestionEnd(query) >= 0
    ensures |ShortReply(query, 0x80)| == QuestionEnd(query)
    ensures var head := Put(ShortReply(query, 0x80), 6, Be16(1));
      && (forall k :: 0 <= k < 2 || 12 <= k < QuestionEnd(query) ==> head[k] == query[k])
      && head[2] == 0x81 && head[3] == 0x80 && U16(head, 4) == 1 && U16(head, 6) == 1 && U16(head, 8) == 0 && U16(head, 10) == 0
  {
  }

  lemma JoinedLayout(head: Bytes, record: Bytes)
    requires |head| >= 12 && |record| >= 12
    ensures var out, end := head + record, |head|;
      && (forall k :: 0 <= k < end ==> out[k] == head[k])
      && U16(out, 4) == U16(head, 4) && U16(out, 6) == U16(head, 6) && U16(out, 8) == U16(head, 8) && U16(out, 10) == U16(head, 10)
      && out[end] == record[0] && U16(out, end + 2) == U16(record, 2) && U32(out, end + 6) == U32(record, 6)
      && U16(out, end + 10) == U16(record, 10) && out[end + 12..] == record[12..]
  {
    assert forall k :: 0 <= k < |record| ==> (head + record)[|head| + k] == record[k];
  }

  lemma RecordLayout(qtype: nat, data: Bytes)
    requires qtype < 0x1_0000 && |data| < 0x1_0000
    ensures var r := Record(qtype, data);
      && |r| == 12 + |data| && r[0] == 0xC0 && U16(r, 2) == qtype && U32(r, 6) == 30 && U16(r, 10) == |data|
      && r[12..] == data
  {
    var a: Bytes, t, n := [0xC0, 0x0C], Be16(qtype), Be16(|data|);
    assert Record(qtype, data) == [a[0], a[1], t[0], t[1], 0x00, 0x01, 0x00, 0x00, 0x00, 0x1E, n[0], n[1]] + data;
  }

  lemma SameQuestion(query: Bytes, out: Bytes, lower: Bytes -> Bytes)
    requires 0 <= QuestionEnd(query) <= |out| && U16(out, 4) == 1
    requires forall k :: 12 <= k < QuestionEnd(query) ==> out[k] == query[k]
    ensures QuestionEnd(out) == QuestionEnd(query)
    ensures QuestionSpec(out, lower) == Some(Asked(lower(NameOf(query, 12)), U16(query, QuestionEnd(query) - 4)))
  {
    QEndLocal(query, out, 12);
  }

  lemma AnswerRepeatsQuestion(query: Bytes, ip: Bytes, qtype: nat, lower: Bytes -> Bytes)
    requires (qtype == A || qtype == AAAA) && QuestionEnd(query) >= 0 && Payload(ip, qtype) != []
    ensures var out := AnswerTo(query, ip, qtype);
      && QuestionEnd(out) == QuestionEnd(query)
      && QuestionSpec(out, lower) == Some(Asked(lower(NameOf(query, 12)), U16(query, QuestionEnd(query) - 4)))
  {
    AnswerLayout(query, ip, qtype);
    SameQuestion(query, AnswerTo(query, ip, qtype), lower);
  }

  /** One record laid out from `end` to the end of the message, as a reader finds it. */
  lemma OneRecordReads(msg: Bytes, end: nat, qtype: nat, data: Bytes)
    requires (qtype == A && |data| == 4) || (qtype == AAAA && |data| == 16)
    requires |msg| == end + 12 + |data| && msg[end] == 0xC0
    requires U16(msg, end + 2) == qtype && U16(msg, end + 10) == |data| && msg[end + 12..] == data
    ensures FindAddr(msg, end, 1, qtype, |data|) == Some(data)
    ensures AllAddrs(msg, end, 1, [], Unmapped) == [Unmapped(data)]
  {
    assert SkipName(msg, end) == end + 2;
    assert msg[end + 12..end + 12 + |data|] == data;
    assert [] + OneAddr(msg, end + 2, Unmapped) == [Unmapped(data)];
  }

  /** Reading back what `Answer` wrote: the question is repeated, and both readers return
    exactly the address put in. */
  lemma AnswerReadsBack(query: Bytes, ip: Bytes, qtype: nat, lower: Bytes -> Bytes)
    requires (qtype == A || qtype == AAAA) && QuestionEnd(query) >= 0 && Payload(ip, qtype) != []
    ensures var out := AnswerTo(query, ip, qtype);
      && QuestionSpec(out, lower) == Some(Asked(lower(NameOf(query, 12)), U16(query, QuestionEnd(query) - 4)))
      && FirstAddrSpec(out, qtype) == Some(Payload(ip, qtype))
      && AddrsSpec(out) == [Unmapped(Payload(ip, qtype))]
  {
    AnswerRepeatsQuestion(query, ip, qtype, lower);
    AnswerLayout(query, ip, qtype);
    OneRecordReads(AnswerTo(query, ip, qtype), QuestionEnd(query), qtype, Payload(ip, qtype));
  }
}
