/** What the readers of internal/dnsproxy/dnsproxy.go find in messages laid out as section
  4.1 of RFC 1035 says: the question, the addresses and the time to keep an answer. */
module DnsReaders {
  import opened Options
  import opened Bytes
  import opened DnsAge
  import opened DnsWire
  import DnsMessage
  import DnsTtl

  // ------------------------------------------------------------- questions

  lemma {:induction false} QEndSkips(msg: Bytes, at: nat)
    requires DnsMessage.QEnd(msg, at) >= 0
    ensures SkipName(msg, at) + 4 == DnsMessage.QEnd(msg, at)
    decreases |msg| - at
  {
    if msg[at] != 0 { QEndSkips(msg, at + 1 + msg[at] as int); }
  }

  /** In a message with one question the two readers agree on where it ends. */
  lemma OneQuestion(msg: Bytes)
    requires DnsMessage.QuestionEnd(msg) >= 0 && U16(msg, 4) == 1
    ensures AfterQuestions(msg) == DnsMessage.QuestionEnd(msg)
  {
    QEndSkips(msg, 12);
    assert Questions(msg, 12, 1) == Questions(msg, SkipName(msg, 12) + 4, 0);
  }

  /** Labels to the root, without a pointer. */
  predicate Plain(n: Name) { n == Root || (n.Label? && Plain(n.rest)) }

  /** The labels with dots between them. */
  function Spelled(n: Name): (b: Bytes)
    requires Plain(n)
    ensures b == [] <==> n == Root
  {
    if n == Root then [] else if n.rest == Root then n.text else n.text + [46] + Spelled(n.rest)
  }

  lemma LabelRead(msg: Bytes, i: nat, text: LabelText)
    requires Holds(msg, i, [|text|] + text)
    ensures DnsMessage.QEnd(msg, i) == DnsMessage.QEnd(msg, i + 1 + |text|)
    ensures DnsMessage.NameOf(msg, i) == DnsMessage.Join(text, DnsMessage.NameOf(msg, i + 1 + |text|))
  {
    HoldsBoth(msg, i, [|text|], text);
    HoldsAt(msg, i, [|text|], 0);
  }

  /** A plain name is read to its end; one that ends in a pointer is refused. */
  lemma {:induction false} ReadsEnd(msg: Bytes, i: nat, n: Name)
    requires Holds(msg, i, NameBytes(n)) && i + |NameBytes(n)| + 4 <= |msg|
    ensures DnsMessage.QEnd(msg, i) == if Plain(n) then i + |NameBytes(n)| + 4 else -1
    decreases n
  {
    if n.Label? {
      LabelStep(msg, i, n);
      ReadsEnd(msg, i + 1 + |n.text|, n.rest);
    } else {
      HoldsAt(msg, i, NameBytes(n), 0);
    }
  }

  lemma LabelStep(msg: Bytes, i: nat, n: Name)
    requires n.Label? && Holds(msg, i, NameBytes(n))
    ensures var next := i + 1 + |n.text|;
      && Holds(msg, next, NameBytes(n.rest)) && i + |NameBytes(n)| == next + |NameBytes(n.rest)|
      && DnsMessage.QEnd(msg, i) == DnsMessage.QEnd(msg, next)
      && DnsMessage.NameOf(msg, i) == DnsMessage.Join(n.text, DnsMessage.NameOf(msg, next))
  {
    HoldsBoth(msg, i, [|n.text|] + n.text, NameBytes(n.rest));
    LabelRead(msg, i, n.text);
  }

  lemma {:induction false} ReadsName(msg: Bytes, i: nat, n: Name)
    requires Plain(n) && Holds(msg, i, NameBytes(n))
    ensures DnsMessage.NameOf(msg, i) == Spelled(n)
    decreases n
  {
    if n.Label? {
      LabelStep(msg, i, n);
      ReadsName(msg, i + 1 + |n.text|, n.rest);
      SpelledJoin(n);
    } else {
      RootRead(msg, i);
    }
  }

  lemma RootRead(msg: Bytes, i: nat)
    requires Holds(msg, i, [0])
    ensures DnsMessage.NameOf(msg, i) == []
  {
    HoldsAt(msg, i, [0], 0);
  }

  lemma SpelledJoin(n: Name)
    requires Plain(n) && n.Label?
    ensures DnsMessage.Join(n.text, Spelled(n.rest)) == Spelled(n)
  {
  }

  lemma QuestionHolds(msg: Bytes, i: nat, q: Question)
    requires Holds(msg, i, QuestionBytes(q))
    ensures var j := i + |NameBytes(q.name)|;
      && Holds(msg, i, NameBytes(q.name)) && i + |QuestionBytes(q)| == j + 4 <= |msg| && U16(msg, j) == q.kind
  {
    var rest := Be16(q.kind) + Be16(q.family);
    HoldsBoth(msg, i, NameBytes(q.name), rest);
    HoldsU16(msg, i + |NameBytes(q.name)|, rest, 0);
  }

  /** The question read is the first one encoded, its name spelled with dots; a message
    without a question, or with a pointer in the name asked for, has none. */
  lemma QuestionEncoded(m: Message, lower: Bytes -> Bytes)
    requires Counted(m)
    ensures DnsMessage.QuestionSpec(Encode(m), lower) ==
      if m.questions == [] || !Plain(m.questions[0].name) then None
      else Some(DnsMessage.Asked(lower(Spelled(m.questions[0].name)), m.questions[0].kind))
  {
    EncodeCounts(m);
    if m.questions != [] {
      EncodeHolds(m);
      QuestionRead(Encode(m), m.questions[0], lower);
    }
  }

  lemma QuestionRead(msg: Bytes, q: Question, lower: Bytes -> Bytes)
    requires |msg| >= 12 && U16(msg, 4) > 0 && Holds(msg, 12, QuestionBytes(q))
    ensures DnsMessage.QuestionSpec(msg, lower) ==
      if Plain(q.name) then Some(DnsMessage.Asked(lower(Spelled(q.name)), q.kind)) else None
  {
    QuestionHolds(msg, 12, q);
    ReadsEnd(msg, 12, q.name);
    if Plain(q.name) { ReadsName(msg, 12, q.name); }
  }

  lemma OneQuestionEncoded(m: Message)
    requires Counted(m) && |m.questions| == 1 && Plain(m.questions[0].name)
    ensures DnsMessage.QuestionEnd(Encode(m)) == FirstRecord(m)
  {
    EncodeHolds(m);
    QuestionHolds(Encode(m), 12, m.questions[0]);
    ReadsEnd(Encode(m), 12, m.questions[0].name);
    assert Flat(m.questions, QuestionBytes) == QuestionBytes(m.questions[0]) + Flat(m.questions[1..], QuestionBytes);
  }

  // ------------------------------------------------------------- addresses

  lemma {:induction false} HoldsFirst<T>(msg: Bytes, i: nat, xs: seq<T>, ys: seq<T>, enc: T -> Bytes)
    requires HoldsAll(msg, i, xs + ys, enc)
    ensures HoldsAll(msg, i, xs, enc)
    decreases |xs|
  {
    if xs != [] {
      assert (xs + ys)[0] == xs[0] && (xs + ys)[1..] == xs[1..] + ys;
      HoldsFirst(msg, i + |enc(xs[0])|, xs[1..], ys, enc);
    }
  }

  lemma AnswersHold(m: Message)
    requires Counted(m)
    ensures HoldsAll(Encode(m), FirstRecord(m), m.answers, RecordBytes)
  {
    EncodeHolds(m);
    assert m.Records() == m.answers + (m.authority + m.additional);
    HoldsFirst(Encode(m), FirstRecord(m), m.answers, m.authority + m.additional, RecordBytes);
  }

  /** An address record of the type, with as many bytes as such an address has. */
  predicate Matches(r: Record, kind: nat) { r.kind == kind && |r.data| == Size(kind) }

  function Size(kind: nat): nat { if kind == 28 then 16 else 4 }

  /** The first matching record, if there is one, is what was found. */
  ghost predicate IsFirst(rs: seq<Record>, kind: nat, got: Option<Bytes>) {
    match got
    case None => forall k :: 0 <= k < |rs| ==> !Matches(rs[k], kind)
    case Some(data) =>
      exists k :: 0 <= k < |rs| && Matches(rs[k], kind) && data == rs[k].data
                  && forall j :: 0 <= j < k ==> !Matches(rs[j], kind)
  }

  /** The search of `FirstAddr`. */
  ghost predicate Finds(go: (nat, nat) -> Option<Bytes>, msg: Bytes, kind: nat) {
    forall i: nat, n: nat {:trigger DnsMessage.FindAddr(msg, i, n, kind, Size(kind))} ::
      go(i, n) == DnsMessage.FindAddr(msg, i, n, kind, Size(kind))
  }

  lemma FindsHere(msg: Bytes, i: nat, r: Record, n: nat, kind: nat, want: nat)
    requires n > 0 && Holds(msg, i, RecordBytes(r)) && i + 12 <= |msg|
    ensures DnsMessage.FindAddr(msg, i, n, kind, want) ==
      if r.kind == kind && |r.data| == want then Some(r.data)
      else DnsMessage.FindAddr(msg, i + |RecordBytes(r)|, n - 1, kind, want)
  {
    RecordHolds(msg, i, r);
  }

  lemma IsFirstMore(rs: seq<Record>, kind: nat, got: Option<Bytes>)
    requires rs != [] && !Matches(rs[0], kind) && IsFirst(rs[1..], kind, got)
    ensures IsFirst(rs, kind, got)
  {
    var rest := rs[1..];
    assert forall k :: 0 < k < |rs| ==> rs[k] == rest[k - 1];
    if got.Some? {
      var k :| 0 <= k < |rest| && Matches(rest[k], kind) && got.value == rest[k].data
               && forall j :: 0 <= j < k ==> !Matches(rest[j], kind);
      assert Matches(rs[k + 1], kind);
    }
  }

  lemma LastIsSmall(msg: Bytes, i: nat, rs: seq<Record>, enc: Record -> Bytes, lead: Record -> nat)
    requires rs != [] && HoldsAll(msg, i, rs, enc) && i + 12 > |msg| && Encodes(enc, lead)
    ensures rs == [rs[0]] && rs[0].data == []
  {
    assert enc(rs[0]) == RecordBytes(rs[0]);
    SmallRecord(rs[0]);
    if |rs| > 1 {
      assert enc(rs[1]) == RecordBytes(rs[1]);
      SmallRecord(rs[1]);
      SecondHolds(msg, i, rs, enc);
    }
  }

  lemma SecondHolds(msg: Bytes, i: nat, rs: seq<Record>, enc: Record -> Bytes)
    requires |rs| > 1 && HoldsAll(msg, i, rs, enc)
    ensures i + |enc(rs[0])| + |enc(rs[1])| <= |msg|
  {
    var rest := rs[1..];
    assert rest[0] == rs[1];
  }

  lemma SmallRecord(r: Record)
    ensures |RecordBytes(r)| >= 11 + |r.data|
    ensures |RecordBytes(r)| == 11 <==> r.name == Root && r.data == []
  {
  }

  lemma GoesOn(msg: Bytes, i: nat, r: Record, n: nat, kind: nat, enc: Record -> Bytes, lead: Record -> nat,
               go: (nat, nat) -> Option<Bytes>)
    requires Encodes(enc, lead) && Finds(go, msg, kind) && n > 0 && Holds(msg, i, enc(r))
    ensures go(i, 0) == None
    ensures i + 12 > |msg| ==> go(i, n) == None
    ensures i + 12 <= |msg| ==> go(i, n) == if Matches(r, kind) then Some(r.data) else go(i + |enc(r)|, n - 1)
  {
    var want := Size(kind);
    assert enc(r) == RecordBytes(r);
    assert go(i, 0) == DnsMessage.FindAddr(msg, i, 0, kind, want);
    assert go(i, n) == DnsMessage.FindAddr(msg, i, n, kind, want);
    if i + 12 <= |msg| {
      assert go(i + |enc(r)|, n - 1) == DnsMessage.FindAddr(msg, i + |enc(r)|, n - 1, kind, want);
      FindsHere(msg, i, r, n, kind, want);
    }
  }

  lemma {:induction false} FindsFirst(msg: Bytes, i: nat, rs: seq<Record>, kind: nat, enc: Record -> Bytes,
                                      lead: Record -> nat, go: (nat, nat) -> Option<Bytes>)
    requires Encodes(enc, lead) && Finds(go, msg, kind) && HoldsAll(msg, i, rs, enc)
    ensures IsFirst(rs, kind, go(i, |rs|))
    decreases |rs|
  {
    if rs == [] {
      assert go(i, 0) == DnsMessage.FindAddr(msg, i, 0, kind, Size(kind));
    } else {
      GoesOn(msg, i, rs[0], |rs|, kind, enc, lead, go);
      if i + 12 > |msg| {
        LastIsSmall(msg, i, rs, enc, lead);
      } else if !Matches(rs[0], kind) {
        FindsFirst(msg, i + |enc(rs[0])|, rs[1..], kind, enc, lead, go);
        IsFirstMore(rs, kind, go(i, |rs|));
      }
    }
  }

  /** The address read from an encoded reply is that of its first record of the type. */
  lemma FirstAddrEncoded(m: Message, kind: nat)
    requires Counted(m) && |m.questions| == 1 && Plain(m.questions[0].name)
    ensures IsFirst(m.answers, kind, DnsMessage.FirstAddrSpec(Encode(m), kind))
  {
    OneQuestionEncoded(m);
    EncodeCounts(m);
    AnswersHold(m);
    var go := (i: nat, n: nat) => DnsMessage.FindAddr(Encode(m), i, n, kind, Size(kind));
    FindsFirst(Encode(m), FirstRecord(m), m.answers, kind, RecordBytes, Lead(), go);
  }

  /** An IPv4 address written as an IPv6 one is the IPv4 address. */
  function Canonical(b: Bytes): Bytes {
    if |b| == 16 && b[..12] == [0, 0, 0, 0, 0, 0, 0, 0, 0, 0, 0xFF, 0xFF] then b[12..] else b
  }

  function Address(r: Record): seq<Bytes> {
    if Matches(r, 1) || Matches(r, 28) then [Canonical(r.data)] else []
  }

  lemma CanonicalIsUnmapped(b: Bytes)
    ensures |b| == 4 || |b| == 16 ==> DnsMessage.Unmapped(b) == Canonical(b)
  {
    assert Zeros(10) + [0xFF, 0xFF] == [0, 0, 0, 0, 0, 0, 0, 0, 0, 0, 0xFF, 0xFF];
  }

  lemma AddressRead(msg: Bytes, j: nat, r: Record, u: Bytes -> Bytes)
    requires DnsMessage.Whole(msg, j) && u == DnsMessage.Unmapped
    requires U16(msg, j) == r.kind && U16(msg, j + 8) == |r.data| && msg[j + 10..j + 10 + |r.data|] == r.data
    ensures DnsMessage.OneAddr(msg, j, u) == Address(r)
  {
    CanonicalIsUnmapped(r.data);
  }

  /** The walk of `Addrs`. */
  ghost predicate Gathers(go: (nat, nat, seq<Bytes>) -> seq<Bytes>, msg: Bytes, u: Bytes -> Bytes) {
    forall i: nat, n: nat, out: seq<Bytes> {:trigger DnsMessage.AllAddrs(msg, i, n, out, u)} ::
      go(i, n, out) == DnsMessage.AllAddrs(msg, i, n, out, u)
  }

  lemma GathersStep(msg: Bytes, i: nat, n: nat, out: seq<Bytes>, j: nat, length: nat, one: seq<Bytes>,
                    go: (nat, nat, seq<Bytes>) -> seq<Bytes>, u: Bytes -> Bytes)
    requires Gathers(go, msg, u) && n > 0 && i + 12 <= |msg| && j == SkipName(msg, i) && DnsMessage.Whole(msg, j)
    requires U16(msg, j + 8) == length && DnsMessage.OneAddr(msg, j, u) == one
    ensures go(i, n, out) == go(j + 10 + length, n - 1, out + one)
  {
    DnsMessage.AllAddrsStep(msg, i, n, out, j, u);
    assert go(i, n, out) == DnsMessage.AllAddrs(msg, i, n, out, u);
    assert go(j + 10 + length, n - 1, out + one)
        == DnsMessage.AllAddrs(msg, j + 10 + length, n - 1, out + one, u);
  }

  lemma GathersHere(msg: Bytes, i: nat, r: Record, n: nat, out: seq<Bytes>, enc: Record -> Bytes, lead: Record -> nat,
                    pick: Record -> seq<Bytes>, go: (nat, nat, seq<Bytes>) -> seq<Bytes>, u: Bytes -> Bytes)
    requires Encodes(enc, lead) && Gathers(go, msg, u) && pick == Address && u == DnsMessage.Unmapped
    requires n > 0 && Holds(msg, i, enc(r)) && i + 12 <= |msg|
    ensures go(i, n, out) == go(i + |enc(r)|, n - 1, out + pick(r))
  {
    var j := i + |NameBytes(r.name)|;
    assert enc(r) == RecordBytes(r);
    RecordHolds(msg, i, r);
    AddressRead(msg, j, r, u);
    GathersStep(msg, i, n, out, j, |r.data|, pick(r), go, u);
  }

  lemma GathersEnd(msg: Bytes, i: nat, rs: seq<Record>, out: seq<Bytes>, enc: Record -> Bytes, lead: Record -> nat,
                   pick: Record -> seq<Bytes>, go: (nat, nat, seq<Bytes>) -> seq<Bytes>, u: Bytes -> Bytes)
    requires Encodes(enc, lead) && Gathers(go, msg, u) && pick == Address && u == DnsMessage.Unmapped
    requires HoldsAll(msg, i, rs, enc)
    requires rs == [] || i + 12 > |msg|
    ensures go(i, |rs|, out) == out + Flat(rs, pick)
  {
    if rs != [] {
      LastIsSmall(msg, i, rs, enc, lead);
      assert Flat(rs, pick) == pick(rs[0]) + Flat(rs[1..], pick) == [];
    }
    assert go(i, |rs|, out) == DnsMessage.AllAddrs(msg, i, |rs|, out, u) == out;
  }

  lemma {:induction false} FindsAll(msg: Bytes, i: nat, rs: seq<Record>, out: seq<Bytes>, enc: Record -> Bytes,
                                    lead: Record -> nat, pick: Record -> seq<Bytes>,
                                    go: (nat, nat, seq<Bytes>) -> seq<Bytes>, u: Bytes -> Bytes)
    requires Encodes(enc, lead) && Gathers(go, msg, u) && pick == Address && u == DnsMessage.Unmapped
    requires HoldsAll(msg, i, rs, enc)
    ensures go(i, |rs|, out) == out + Flat(rs, pick)
    decreases |rs|
  {
    if rs == [] || i + 12 > |msg| {
      GathersEnd(msg, i, rs, out, enc, lead, pick, go, u);
    } else {
      GathersHere(msg, i, rs[0], |rs|, out, enc, lead, pick, go, u);
      FindsAll(msg, i + |enc(rs[0])|, rs[1..], out + pick(rs[0]), enc, lead, pick, go, u);
      FlatSplit(out, rs, pick);
    }
  }

  /** The addresses read from an encoded reply are those of its address records, in order. */
  lemma AddrsEncoded(m: Message)
    requires Counted(m) && |m.questions| == 1 && Plain(m.questions[0].name)
    ensures DnsMessage.AddrsSpec(Encode(m)) == Flat(m.answers, Address)
  {
    OneQuestionEncoded(m);
    EncodeCounts(m);
    AnswersHold(m);
    var go := (i: nat, n: nat, out: seq<Bytes>) => DnsMessage.AllAddrs(Encode(m), i, n, out, DnsMessage.Unmapped);
    FindsAll(Encode(m), FirstRecord(m), m.answers, [], RecordBytes, Lead(), Address, go, DnsMessage.Unmapped);
  }

  // ---------------------------------------------------------- time to live

  /** The one answer record whose time to live is not read: a record of the root without
    data that ends the message. */
  predicate Unread(m: Message, k: nat) {
    k == |m.answers| - 1 && m.authority == m.additional == [] && m.answers[k].name == Root && m.answers[k].data == []
  }

  /** `b` is no more than the lives of the records, but for the last one if it is skipped. */
  ghost predicate Within(rs: seq<Record>, b: int, skip: bool) {
    forall k :: 0 <= k < |rs| && !(skip && k == |rs| - 1) ==> b <= rs[k].ttl * 1_000_000_000
  }

  lemma WithinMore(rs: seq<Record>, b: int, skip: bool)
    requires rs != []
    ensures Within(rs, b, skip) <==>
      Within(rs[1..], b, skip) && ((skip && |rs| == 1) || b <= rs[0].ttl * 1_000_000_000)
  {
    var rest := rs[1..];
    assert forall k :: 0 < k < |rs| ==> rs[k] == rest[k - 1];
    assert forall k :: 0 <= k < |rest| ==> rs[k + 1] == rest[k];
  }

  lemma LifeHere(msg: Bytes, i: nat, r: Record, n: nat, best: int)
    requires n > 0 && Holds(msg, i, RecordBytes(r)) && i + 12 <= |msg|
    ensures DnsTtl.Shortest(msg, DnsTtl.Read(msg, i, n), best) ==
      DnsTtl.Shortest(msg, DnsTtl.Read(msg, i + |RecordBytes(r)|, n - 1), DnsTtl.Min(best, r.ttl * 1_000_000_000))
  {
    RecordHolds(msg, i, r);
    FieldReads(msg, i + |NameBytes(r.name)|);
    DnsTtl.ReadHead(msg, i, n, best);
  }

  /** The walk of `answerTTL`. */
  ghost predicate Shortens(go: (nat, nat, int) -> int, msg: Bytes) {
    forall i: nat, n: nat, best: int {:trigger DnsTtl.Shortest(msg, DnsTtl.Read(msg, i, n), best)} ::
      go(i, n, best) == DnsTtl.Shortest(msg, DnsTtl.Read(msg, i, n), best)
  }

  lemma ShortensHere(msg: Bytes, i: nat, r: Record, n: nat, best: int, enc: Record -> Bytes, lead: Record -> nat,
                     go: (nat, nat, int) -> int)
    requires Encodes(enc, lead) && Shortens(go, msg) && n > 0 && Holds(msg, i, enc(r))
    ensures go(i, n, best) ==
      if i + 12 > |msg| then best else go(i + |enc(r)|, n - 1, DnsTtl.Min(best, r.ttl * 1_000_000_000))
  {
    assert enc(r) == RecordBytes(r);
    assert go(i, n, best) == DnsTtl.Shortest(msg, DnsTtl.Read(msg, i, n), best);
    if i + 12 <= |msg| {
      LifeHere(msg, i, r, n, best);
      var next, less := i + |enc(r)|, DnsTtl.Min(best, r.ttl * 1_000_000_000);
      assert go(next, n - 1, less) == DnsTtl.Shortest(msg, DnsTtl.Read(msg, next, n - 1), less);
    }
  }

  lemma {:induction false} ShortestOver(msg: Bytes, i: nat, rs: seq<Record>, best: int, b: int, skip: bool,
                                        enc: Record -> Bytes, lead: Record -> nat, go: (nat, nat, int) -> int)
    requires Encodes(enc, lead) && Shortens(go, msg) && HoldsAll(msg, i, rs, enc)
    requires skip <==> rs != [] && |enc(rs[|rs| - 1])| == 11 && i + |Flat(rs, enc)| == |msg|
    ensures b <= go(i, |rs|, best) <==> b <= best && Within(rs, b, skip)
    decreases |rs|
  {
    if rs == [] {
      assert go(i, 0, best) == DnsTtl.Shortest(msg, DnsTtl.Read(msg, i, 0), best) == best;
    } else {
      WithinMore(rs, b, skip);
      ShortensHere(msg, i, rs[0], |rs|, best, enc, lead, go);
      SkipsLast(msg, i, rs, enc, lead);
      if i + 12 <= |msg| {
        ShortestOver(msg, i + |enc(rs[0])|, rs[1..], DnsTtl.Min(best, rs[0].ttl * 1_000_000_000), b,
                     skip && |rs| > 1, enc, lead, go);
      }
    }
  }

  /** The walk stops before its end exactly at a record of eleven bytes that ends the message. */
  lemma SkipsLast(msg: Bytes, i: nat, rs: seq<Record>, enc: Record -> Bytes, lead: Record -> nat)
    requires Encodes(enc, lead) && rs != [] && HoldsAll(msg, i, rs, enc)
    ensures Flat(rs, enc) == enc(rs[0]) + Flat(rs[1..], enc)
    ensures |rs| > 1 ==> rs[1..] != [] && rs[1..][|rs| - 2] == rs[|rs| - 1]
    ensures |rs| == 1 ==> Flat(rs[1..], enc) == []
    ensures i + 12 > |msg| <==> |rs| == 1 && |enc(rs[0])| == 11 && i + |enc(rs[0])| == |msg|
  {
    assert enc(rs[0]) == RecordBytes(rs[0]);
    SmallRecord(rs[0]);
    if i + 12 > |msg| { LastIsSmall(msg, i, rs, enc, lead); }
  }

  lemma Clamped(best: int, lo: int, hi: int, b: int)
    ensures b <= DnsTtl.Min(DnsTtl.Max(best, lo), hi) <==> b <= hi && (b <= lo || b <= best)
  {
  }

  /** An answer that failed is not kept; one without records is kept for the longer of the
    minimum and the time for such answers. */
  lemma TtlWithoutRecords(m: Message, lo: int, hi: int, empty: int)
    requires Counted(m)
    ensures m.flags % 16 != 0 && m.flags % 16 != 3 ==> DnsTtl.AnswerTtl(Encode(m), lo, hi, empty) == 0
    ensures (m.flags % 16 == 0 || m.flags % 16 == 3) && m.answers == [] ==>
      DnsTtl.AnswerTtl(Encode(m), lo, hi, empty) == if lo > empty then lo else empty
  {
    EncodeCounts(m);
    CodeIs(m);
    assert m.answers == [] <==> U16(Encode(m), 6) == 0;
  }

  lemma CodeIs(m: Message)
    requires Counted(m)
    ensures Encode(m)[3] % 16 == m.flags % 16
  {
    EncodeCounts(m);
    assert U16(Encode(m), 2) == Encode(m)[2] as int * 256 + Encode(m)[3] as int == m.flags;
  }

  lemma TtlIs(msg: Bytes, lo: int, hi: int, empty: int, i: nat, n: nat)
    requires |msg| >= 12 && (msg[3] % 16 == 0 || msg[3] % 16 == 3) && AfterQuestions(msg) == i && U16(msg, 6) == n > 0
    ensures DnsTtl.AnswerTtl(msg, lo, hi, empty)
         == DnsTtl.Min(DnsTtl.Max(DnsTtl.Shortest(msg, DnsTtl.Read(msg, i, n), hi), lo), hi)
  {
  }

  /** The time an answer with records is kept, to the nanosecond: it reaches `b` exactly
    when the maximum does and either the minimum or every record read does. */
  lemma TtlEncoded(m: Message, lo: int, hi: int, empty: int, b: int)
    requires Counted(m) && (m.flags % 16 == 0 || m.flags % 16 == 3) && m.answers != []
    ensures b <= DnsTtl.AnswerTtl(Encode(m), lo, hi, empty) <==>
      b <= hi && (b <= lo || forall k :: 0 <= k < |m.answers| && !Unread(m, k) ==>
                               b <= m.answers[k].ttl * 1_000_000_000)
  {
    VisitsEncoded(m);
    EncodeCounts(m);
    CodeIs(m);
    TtlIs(Encode(m), lo, hi, empty, FirstRecord(m), |m.answers|);
    ShortestEncoded(m, hi, b);
    Clamped(DnsTtl.Shortest(Encode(m), DnsTtl.Read(Encode(m), FirstRecord(m), |m.answers|), hi), lo, hi, b);
    WithinUnread(m, b);
  }

  lemma ShortestEncoded(m: Message, best: int, b: int)
    requires Counted(m) && m.answers != []
    ensures b <= DnsTtl.Shortest(Encode(m), DnsTtl.Read(Encode(m), FirstRecord(m), |m.answers|), best)
       <==> b <= best && Within(m.answers, b, Unread(m, |m.answers| - 1))
  {
    AnswersHold(m);
    SkipIs(m);
    var go := (i: nat, n: nat, best: int) => DnsTtl.Shortest(Encode(m), DnsTtl.Read(Encode(m), i, n), best);
    ShortestOver(Encode(m), FirstRecord(m), m.answers, best, b, Unread(m, |m.answers| - 1), RecordBytes, Lead(), go);
  }

  lemma WithinUnread(m: Message, b: int)
    requires m.answers != []
    ensures Within(m.answers, b, Unread(m, |m.answers| - 1)) <==>
      forall k :: 0 <= k < |m.answers| && !Unread(m, k) ==> b <= m.answers[k].ttl * 1_000_000_000
  {
  }

  lemma FlatJoin<T>(xs: seq<T>, ys: seq<T>, enc: T -> Bytes)
    ensures |Flat(xs + ys, enc)| == |Flat(xs, enc)| + |Flat(ys, enc)|
    decreases |xs|
  {
    if xs != [] {
      assert (xs + ys)[1..] == xs[1..] + ys;
      FlatJoin(xs[1..], ys, enc);
    } else {
      assert xs + ys == ys;
    }
  }

  lemma SkipIs(m: Message)
    requires Counted(m) && m.answers != []
    ensures Unread(m, |m.answers| - 1) <==>
      |RecordBytes(m.answers[|m.answers| - 1])| == 11 && FirstRecord(m) + |Flat(m.answers, RecordBytes)| == |Encode(m)|
  {
    var rest := m.authority + m.additional;
    EncodeHolds(m);
    assert m.Records() == m.answers + rest;
    FlatJoin(m.answers, rest, RecordBytes);
    assert rest != [] ==> Flat(rest, RecordBytes) == RecordBytes(rest[0]) + Flat(rest[1..], RecordBytes);
    SmallRecord(m.answers[|m.answers| - 1]);
  }
}
