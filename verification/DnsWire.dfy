/** Messages as section 4.1 of RFC 1035 lays them out, and what `age` of
  internal/dnsproxy/dnsproxy.go makes of them.  The encoding is not in the repository: it is
  the standard its functions are held against. */
module DnsWire {
  import opened Options
  import opened Bytes
  import opened DnsAge

  type Word = x: nat | x < 0x1_0000

  type Long = x: nat | x < 0x1_0000_0000

  type Offset = x: nat | x < 0x4000

  type LabelText = b: Bytes | 1 <= |b| <= 63 witness [45]

  type Data = b: Bytes | |b| < 0x1_0000 witness []

  /** Labels that end in the root or in a pointer to an earlier name. */
  datatype Name = Root | Pointer(to: Offset) | Label(text: LabelText, rest: Name)

  datatype Question = Question(name: Name, kind: Word, family: Word)

  datatype Record = Record(name: Name, kind: Word, family: Word, ttl: Long, data: Data)

  datatype Message = Message(id: Word, flags: Word, questions: seq<Question>, answers: seq<Record>,
                             authority: seq<Record>, additional: seq<Record>)
  {
    function Records(): seq<Record> { answers + authority + additional }
  }

  /** Each section can be counted in its field of the header. */
  predicate Counted(m: Message) {
    |m.questions| < 0x1_0000 && |m.answers| < 0x1_0000 && |m.authority| < 0x1_0000 && |m.additional| < 0x1_0000
  }

  // ------------------------------------------------------------- encoding

  function NameBytes(n: Name): (b: Bytes)
    ensures |b| > 0
  {
    match n
    case Root => [0]
    case Pointer(to) => [0xC0 + to / 256, to % 256]
    case Label(text, rest) => [|text|] + text + NameBytes(rest)
  }

  function QuestionBytes(q: Question): Bytes
  {
    NameBytes(q.name) + (Be16(q.kind) + Be16(q.family))
  }

  /** Type, class, time to live and length of a record. */
  function Fixed(r: Record): (b: Bytes)
    ensures |b| == 10 && U16(b, 0) == r.kind && U16(b, 8) == |r.data| && b[4..8] == Be32(r.ttl)
    ensures b[0..4] == Be16(r.kind) + Be16(r.family)
  {
    Be16(r.kind) + Be16(r.family) + Be32(r.ttl) + Be16(|r.data|)
  }

  function RecordBytes(r: Record): (b: Bytes)
    ensures |b| > 10
  {
    NameBytes(r.name) + (Fixed(r) + r.data)
  }

  /** What `enc` makes of each, one after the other. */
  function Flat<T, U>(xs: seq<T>, enc: T -> seq<U>): seq<U> {
    if xs == [] then [] else enc(xs[0]) + Flat(xs[1..], enc)
  }

  function Header(m: Message): (b: Bytes)
    requires Counted(m)
    ensures |b| == 12 && U16(b, 0) == m.id && U16(b, 2) == m.flags && U16(b, 4) == |m.questions|
    ensures U16(b, 6) == |m.answers| && U16(b, 8) == |m.authority| && U16(b, 10) == |m.additional|
  {
    Be16(m.id) + Be16(m.flags) + Be16(|m.questions|) + Be16(|m.answers|) + Be16(|m.authority|) + Be16(|m.additional|)
  }

  function Encode(m: Message): (b: Bytes)
    requires Counted(m)
    ensures |b| >= 12 && b[..12] == Header(m)
  {
    Header(m) + (Flat(m.questions, QuestionBytes) + Flat(m.Records(), RecordBytes))
  }

  // ------------------------------------------------ finding what was encoded

  /** `x` stands in `msg` from `i` on. */
  ghost predicate Holds(msg: Bytes, i: nat, x: Bytes) {
    i + |x| <= |msg| && msg[i..i + |x|] == x
  }

  lemma HoldsBoth(msg: Bytes, i: nat, x: Bytes, y: Bytes)
    requires Holds(msg, i, x + y)
    ensures Holds(msg, i, x) && Holds(msg, i + |x|, y)
  {
    assert (x + y)[..|x|] == x && (x + y)[|x|..] == y;
  }

  lemma HoldsAt(msg: Bytes, i: nat, x: Bytes, k: nat)
    requires Holds(msg, i, x) && k < |x|
    ensures i + k < |msg| && msg[i + k] == x[k]
  {
    assert msg[i..i + |x|][k] == x[k];
  }

  lemma HoldsU16(msg: Bytes, i: nat, x: Bytes, k: nat)
    requires Holds(msg, i, x) && k + 2 <= |x|
    ensures i + k + 2 <= |msg| && U16(msg, i + k) == U16(x, k)
  {
    HoldsAt(msg, i, x, k);
    HoldsAt(msg, i, x, k + 1);
  }

  /** A name is skipped to its end, whether the root or a pointer ends it. */
  lemma {:induction false} SkipsName(msg: Bytes, i: nat, n: Name)
    requires Holds(msg, i, NameBytes(n))
    ensures SkipName(msg, i) == i + |NameBytes(n)|
    decreases n
  {
    HoldsAt(msg, i, NameBytes(n), 0);
    if n.Label? {
      HoldsBoth(msg, i, [|n.text|] + n.text, NameBytes(n.rest));
      SkipsName(msg, i + 1 + |n.text|, n.rest);
    }
  }

  /** The encodings stand in `msg` one after the other from `i` on. */
  ghost predicate HoldsAll<T>(msg: Bytes, i: nat, xs: seq<T>, enc: T -> Bytes)
    decreases |xs|
  {
    xs == [] || (Holds(msg, i, enc(xs[0])) && HoldsAll(msg, i + |enc(xs[0])|, xs[1..], enc))
  }

  lemma {:induction false} HoldsEach<T>(msg: Bytes, i: nat, xs: seq<T>, enc: T -> Bytes)
    requires Holds(msg, i, Flat(xs, enc))
    ensures HoldsAll(msg, i, xs, enc)
    decreases |xs|
  {
    if xs != [] {
      HoldsBoth(msg, i, enc(xs[0]), Flat(xs[1..], enc));
      HoldsEach(msg, i + |enc(xs[0])|, xs[1..], enc);
    }
  }

  /** The encoding of questions, by whatever name it goes. */
  ghost predicate Asks(enc: Question -> Bytes) {
    forall q: Question {:trigger QuestionBytes(q)} :: enc(q) == QuestionBytes(q)
  }

  lemma SkipsQuestion(msg: Bytes, i: nat, q: Question, n: nat, enc: Question -> Bytes)
    requires Asks(enc) && n > 0 && Holds(msg, i, enc(q))
    ensures Questions(msg, i, n) == Questions(msg, i + |enc(q)|, n - 1)
  {
    assert enc(q) == QuestionBytes(q);
    HoldsBoth(msg, i, NameBytes(q.name), Be16(q.kind) + Be16(q.family));
    SkipsName(msg, i, q.name);
  }

  lemma {:induction false} SkipsQuestions(msg: Bytes, i: nat, qs: seq<Question>, enc: Question -> Bytes)
    requires Asks(enc) && HoldsAll(msg, i, qs, enc)
    ensures Questions(msg, i, |qs|) == i + |Flat(qs, enc)|
    decreases |qs|
  {
    if qs != [] {
      SkipsQuestion(msg, i, qs[0], |qs|, enc);
      SkipsQuestions(msg, i + |enc(qs[0])|, qs[1..], enc);
    }
  }

  /** Where the fixed part of each record lies when the first name starts at `i`; `lead` is
    the length of a record's name. */
  function Parts(rs: seq<Record>, i: nat, enc: Record -> Bytes, lead: Record -> nat): (ps: seq<nat>)
    ensures |ps| == |rs|
  {
    if rs == [] then [] else [i + lead(rs[0])] + Parts(rs[1..], i + |enc(rs[0])|, enc, lead)
  }

  function Lead(): Record -> nat { (r: Record) => |NameBytes(r.name)| }

  /** A record and its neighbours: the name, the fixed part and what follows. */
  lemma RecordHolds(msg: Bytes, i: nat, r: Record)
    requires Holds(msg, i, RecordBytes(r))
    ensures var j := i + |NameBytes(r.name)|;
      && SkipName(msg, i) == j && j + 10 + |r.data| == i + |RecordBytes(r)| <= |msg|
      && U16(msg, j) == r.kind && U16(msg, j + 8) == |r.data| && msg[j + 10..j + 10 + |r.data|] == r.data
      && msg[j + 4..j + 8] == Be32(r.ttl)
  {
    HoldsBoth(msg, i, NameBytes(r.name), Fixed(r) + r.data);
    SkipsName(msg, i, r.name);
    FixedHolds(msg, i + |NameBytes(r.name)|, Fixed(r), r.data);
  }

  lemma FixedHolds(msg: Bytes, j: nat, fixed: Bytes, data: Bytes)
    requires |fixed| == 10 && Holds(msg, j, fixed + data)
    ensures j + 10 + |data| <= |msg| && msg[j + 10..j + 10 + |data|] == data
    ensures U16(msg, j) == U16(fixed, 0) && U16(msg, j + 8) == U16(fixed, 8) && msg[j + 4..j + 8] == fixed[4..8]
  {
    HoldsBoth(msg, j, fixed, data);
    HoldsU16(msg, j, fixed, 0);
    HoldsU16(msg, j, fixed, 8);
    assert msg[j..j + 10][4..8] == msg[j + 4..j + 8];
  }

  lemma WalksFirst(msg: Bytes, i: nat, r: Record, n: nat)
    requires n > 0 && Holds(msg, i, RecordBytes(r))
    ensures Walk(msg, i, n) == [i + |NameBytes(r.name)|] + Walk(msg, i + |RecordBytes(r)|, n - 1)
  {
    RecordHolds(msg, i, r);
    WalkOne(msg, i, n, i + |NameBytes(r.name)|, |r.data|);
  }

  lemma WalkOne(msg: Bytes, i: nat, n: nat, j: nat, length: nat)
    requires n > 0 && i <= j && SkipName(msg, i) == j && j + 10 <= |msg| && U16(msg, j + 8) == length
    ensures Walk(msg, i, n) == [j] + Walk(msg, j + 10 + length, n - 1)
  {
    WalkHead(msg, i, n);
  }

  /** The encoding of records and the length of a name, by whatever names they go. */
  ghost predicate Encodes(enc: Record -> Bytes, lead: Record -> nat) {
    && (forall r: Record {:trigger RecordBytes(r)} :: enc(r) == RecordBytes(r))
    && (forall r: Record {:trigger NameBytes(r.name)} :: lead(r) == |NameBytes(r.name)|)
  }

  ghost predicate Walks(walk: (nat, nat) -> seq<nat>, msg: Bytes) {
    forall i: nat, n: nat {:trigger Walk(msg, i, n)} :: walk(i, n) == Walk(msg, i, n)
  }

  lemma WalksOne(walk: (nat, nat) -> seq<nat>, msg: Bytes, i: nat, n: nat, r: Record, enc: Record -> Bytes,
                 lead: Record -> nat)
    requires Walks(walk, msg) && Encodes(enc, lead) && n > 0 && Holds(msg, i, enc(r))
    ensures walk(i, n) == [i + lead(r)] + walk(i + |enc(r)|, n - 1)
  {
    assert enc(r) == RecordBytes(r) && lead(r) == |NameBytes(r.name)|;
    WalksFirst(msg, i, r, n);
  }

  lemma {:induction false} WalksAll(walk: (nat, nat) -> seq<nat>, msg: Bytes, i: nat, rs: seq<Record>,
                                    enc: Record -> Bytes, lead: Record -> nat)
    requires Walks(walk, msg) && Encodes(enc, lead) && HoldsAll(msg, i, rs, enc)
    ensures walk(i, |rs|) == Parts(rs, i, enc, lead)
    decreases |rs|
  {
    if rs != [] {
      WalksOne(walk, msg, i, |rs|, rs[0], enc, lead);
      WalksAll(walk, msg, i + |enc(rs[0])|, rs[1..], enc, lead);
    } else {
      assert Walk(msg, i, 0) == [];
    }
  }

  /** Where the first record starts. */
  function FirstRecord(m: Message): nat
    requires Counted(m)
  {
    12 + |Flat(m.questions, QuestionBytes)|
  }

  lemma EncodeHolds(m: Message)
    requires Counted(m)
    ensures HoldsAll(Encode(m), 12, m.questions, QuestionBytes)
    ensures HoldsAll(Encode(m), FirstRecord(m), m.Records(), RecordBytes)
    ensures |Encode(m)| == FirstRecord(m) + |Flat(m.Records(), RecordBytes)|
  {
    ThreeParts(Header(m), Flat(m.questions, QuestionBytes), Flat(m.Records(), RecordBytes));
    HoldsEach(Encode(m), 12, m.questions, QuestionBytes);
    HoldsEach(Encode(m), FirstRecord(m), m.Records(), RecordBytes);
  }

  lemma ThreeParts(x: Bytes, y: Bytes, z: Bytes)
    ensures Holds(x + (y + z), |x|, y) && Holds(x + (y + z), |x| + |y|, z)
  {
  }

  lemma EncodeCounts(m: Message)
    requires Counted(m)
    ensures var msg := Encode(m);
      && U16(msg, 0) == m.id && U16(msg, 2) == m.flags && U16(msg, 4) == |m.questions|
      && U16(msg, 6) == |m.answers| && U16(msg, 8) == |m.authority| && U16(msg, 10) == |m.additional|
  {
    forall k: nat | k <= 10 ensures U16(Encode(m), k) == U16(Header(m), k) {
      assert Encode(m)[k] == Encode(m)[..12][k] && Encode(m)[k + 1] == Encode(m)[..12][k + 1];
    }
  }

  /** In an encoded message the walk visits exactly the records, where each of them lies. */
  lemma VisitsEncoded(m: Message)
    requires Counted(m)
    ensures AfterQuestions(Encode(m)) == FirstRecord(m)
    ensures Visited(Encode(m)) == Parts(m.Records(), FirstRecord(m), RecordBytes, Lead())
  {
    EncodeHolds(m);
    EncodeCounts(m);
    SkipsQuestions(Encode(m), 12, m.questions, QuestionBytes);
    WalksAll((i: nat, n: nat) => Walk(Encode(m), i, n), Encode(m), FirstRecord(m), m.Records(), RecordBytes, Lead());
    VisitedIsWalk(Encode(m), FirstRecord(m), |m.Records()|);
  }

  lemma VisitedIsWalk(msg: Bytes, i: nat, n: nat)
    requires |msg| >= 12 && AfterQuestions(msg) == i && Records(msg) == n
    ensures Visited(msg) == Walk(msg, i, n)
  {
  }

  // --------------------------------------------------------------- ageing

  /** A record after `secs` seconds: never below one second, none left when the seconds
    cannot be told, and an OPT record, whose field is no time, as it was. */
  function Older(r: Record, secs: nat): Record {
    if r.kind == 41 then r
    else if secs == 0xFFFF_FFFF || r.ttl <= secs then r.(ttl := 1)
    else r.(ttl := r.ttl - secs)
  }

  function AllOlder(rs: seq<Record>, secs: nat): (os: seq<Record>)
    ensures |os| == |rs| && forall k :: 0 <= k < |rs| ==> os[k] == Older(rs[k], secs)
  {
    seq(|rs|, k requires 0 <= k < |rs| => Older(rs[k], secs))
  }

  function OlderMessage(m: Message, secs: nat): (o: Message) {
    m.(answers := AllOlder(m.answers, secs), authority := AllOlder(m.authority, secs),
       additional := AllOlder(m.additional, secs))
  }

  /** Rewriting a four-byte field in the middle of a message. */
  lemma RewritesField(head: Bytes, a: Bytes, ttl: Field, b: Bytes, tail: Bytes, f: Field -> Field)
    requires |a| == 4 && |b| == 2
    ensures |head + (a + ttl + b) + tail| >= |head| + 10
    ensures RewriteOne(head + (a + ttl + b) + tail, |head|, f)
         == head + (a + (if U16(a, 0) == OPT then ttl else f(ttl)) + b) + tail
  {
    var j, was := |head|, head + (a + ttl + b) + tail;
    assert was[j] == a[0] && was[j + 1] == a[1];
    assert TtlAt(was, j) == ttl;
    assert U16(was, j) == U16(a, 0);
  }

  lemma FixedIs(r: Record)
    ensures Fixed(r) == (Be16(r.kind) + Be16(r.family)) + Be32(r.ttl) + Be16(|r.data|)
    ensures U16(Be16(r.kind) + Be16(r.family), 0) == r.kind
  {
  }

  lemma OlderField(r: Record, secs: nat)
    ensures Be32(Older(r, secs).ttl) == if r.kind == 41 then Be32(r.ttl) else Ager(secs)(Be32(r.ttl))
  {
  }

  lemma OlderFixed(head: Bytes, r: Record, tail: Bytes, secs: nat)
    ensures |head + Fixed(r) + tail| >= |head| + 10
    ensures RewriteOne(head + Fixed(r) + tail, |head|, Ager(secs)) == head + Fixed(Older(r, secs)) + tail
  {
    FixedIs(r);
    FixedIs(Older(r, secs));
    OlderField(r, secs);
    RewritesField(head, Be16(r.kind) + Be16(r.family), Be32(r.ttl), Be16(|r.data|), tail, Ager(secs));
  }

  lemma Regroup(pre: Bytes, name: Bytes, fixed: Bytes, data: Bytes, post: Bytes)
    ensures pre + (name + (fixed + data)) + post == (pre + name) + fixed + (data + post)
  {
  }

  lemma RecordAges(pre: Bytes, r: Record, post: Bytes, secs: nat)
    ensures var j := |pre| + |NameBytes(r.name)|;
      && j + 10 <= |pre + RecordBytes(r) + post|
      && RewriteOne(pre + RecordBytes(r) + post, j, Ager(secs)) == pre + RecordBytes(Older(r, secs)) + post
  {
    var name, o := NameBytes(r.name), Older(r, secs);
    Regroup(pre, name, Fixed(r), r.data, post);
    Regroup(pre, name, Fixed(o), o.data, post);
    OlderFixed(pre + name, r, r.data + post, secs);
    assert |pre + name| == |pre| + |name|;
  }

  /** `enc'` is `enc` with the record's time to live put through `f`, wherever it stands. */
  ghost predicate Ages(enc: Record -> Bytes, enc': Record -> Bytes, lead: Record -> nat, f: Field -> Field) {
    forall pre: Bytes, r: Record, post: Bytes :: AgesHere(pre, r, post, enc, enc', lead, f)
  }

  ghost predicate AgesHere(pre: Bytes, r: Record, post: Bytes, enc: Record -> Bytes, enc': Record -> Bytes,
                           lead: Record -> nat, f: Field -> Field)
  {
    && |enc'(r)| == |enc(r)| >= lead(r) + 10
    && RewriteOne(pre + enc(r) + post, |pre| + lead(r), f) == pre + enc'(r) + post
  }

  /** Rewriting the records at `ps`, if they are spaced from `low` on. */
  function Rewritten(msg: Bytes, ps: seq<nat>, low: nat, f: Field -> Field): Option<Bytes> {
    if Spaced(ps, low, |msg|) then Some(RewriteAll(msg, ps, low, f)) else None
  }

  ghost predicate Rewrites(go: (Bytes, seq<nat>, nat) -> Option<Bytes>, f: Field -> Field) {
    forall msg: Bytes, ps: seq<nat>, low: nat {:trigger Rewritten(msg, ps, low, f)} ::
      go(msg, ps, low) == Rewritten(msg, ps, low, f)
  }

  lemma {:induction false} AgesAll(pre: Bytes, rs: seq<Record>, low: nat, enc: Record -> Bytes, enc': Record -> Bytes,
                                   lead: Record -> nat, go: (Bytes, seq<nat>, nat) -> Option<Bytes>, f: Field -> Field)
    requires Ages(enc, enc', lead, f) && Rewrites(go, f)
    requires go(pre + Flat(rs, enc), Parts(rs, |pre|, enc, lead), low).Some?
    ensures go(pre + Flat(rs, enc), Parts(rs, |pre|, enc, lead), low) == Some(pre + Flat(rs, enc'))
    decreases |rs|
  {
    if rs != [] {
      var r, rest := rs[0], rs[1..];
      FlatSplit(pre, rs, enc);
      FlatSplit(pre, rs, enc');
      AgesFirst(pre, r, Flat(rest, enc), Parts(rest, |pre| + |enc(r)|, enc, lead), low, enc, enc', lead, go, f);
      AgesAll(pre + enc'(r), rest, |pre| + lead(r) + 10, enc, enc', lead, go, f);
    } else {
      assert pre + Flat(rs, enc) == pre + Flat(rs, enc') == pre;
      assert go(pre, [], low) == Rewritten(pre, [], low, f);
    }
  }

  lemma FlatSplit<T, U>(pre: seq<U>, xs: seq<T>, enc: T -> seq<U>)
    requires xs != []
    ensures pre + Flat(xs, enc) == pre + enc(xs[0]) + Flat(xs[1..], enc)
  {
  }

  lemma AgesFirst(pre: Bytes, r: Record, post: Bytes, ps: seq<nat>, low: nat, enc: Record -> Bytes,
                  enc': Record -> Bytes, lead: Record -> nat, go: (Bytes, seq<nat>, nat) -> Option<Bytes>,
                  f: Field -> Field)
    requires Ages(enc, enc', lead, f) && Rewrites(go, f)
    requires go(pre + enc(r) + post, [|pre| + lead(r)] + ps, low).Some?
    ensures |pre + enc'(r)| == |pre| + |enc(r)|
    ensures go(pre + enc'(r) + post, ps, |pre| + lead(r) + 10) == go(pre + enc(r) + post, [|pre| + lead(r)] + ps, low)
  {
    var was, now, j := pre + enc(r) + post, pre + enc'(r) + post, |pre| + lead(r);
    assert AgesHere(pre, r, post, enc, enc', lead, f);
    assert go(was, [j] + ps, low) == Rewritten(was, [j] + ps, low, f);
    assert go(now, ps, j + 10) == Rewritten(now, ps, j + 10, f);
    RewriteHead(was, j, ps, low, f);
  }

  function OlderBytes(secs: nat): Record -> Bytes { (r: Record) => RecordBytes(Older(r, secs)) }

  lemma {:induction false} OlderFlat(rs: seq<Record>, secs: nat)
    ensures Flat(rs, OlderBytes(secs)) == Flat(AllOlder(rs, secs), RecordBytes)
    decreases |rs|
  {
    if rs != [] {
      assert AllOlder(rs, secs)[1..] == AllOlder(rs[1..], secs);
      OlderFlat(rs[1..], secs);
    }
  }

  lemma AgesRecord(pre: Bytes, r: Record, post: Bytes, secs: nat, enc: Record -> Bytes, enc': Record -> Bytes,
                   lead: Record -> nat, f: Field -> Field)
    requires Encodes(enc, lead) && EncodesOlder(enc', secs) && f == Ager(secs)
    ensures AgesHere(pre, r, post, enc, enc', lead, f)
  {
    assert enc(r) == RecordBytes(r) && lead(r) == |NameBytes(r.name)| && enc'(r) == RecordBytes(Older(r, secs));
    RecordAges(pre, r, post, secs);
  }

  ghost predicate EncodesOlder(enc': Record -> Bytes, secs: nat) {
    forall r: Record {:trigger Older(r, secs)} :: enc'(r) == RecordBytes(Older(r, secs))
  }

  lemma AgesRecords(secs: nat, enc: Record -> Bytes, enc': Record -> Bytes, lead: Record -> nat, f: Field -> Field)
    requires Encodes(enc, lead) && EncodesOlder(enc', secs) && f == Ager(secs)
    ensures Ages(enc, enc', lead, f)
  {
    forall pre: Bytes, r: Record, post: Bytes
      ensures AgesHere(pre, r, post, enc, enc', lead, f)
    {
      AgesRecord(pre, r, post, secs, enc, enc', lead, f);
    }
  }

  /** Ageing an encoded message is encoding the message with every record older. */
  lemma AgesEncoded(m: Message, secs: nat)
    requires Counted(m)
    ensures Counted(OlderMessage(m, secs))
    ensures Aged(Encode(m), secs) == Encode(OlderMessage(m, secs))
  {
    var pre := Header(m) + Flat(m.questions, QuestionBytes);
    VisitsEncoded(m);
    EncodeSplit(m);
    OlderSplit(m, secs);
    AgesFrom(pre, m.Records(), Encode(m), secs);
  }

  lemma OlderSplit(m: Message, secs: nat)
    requires Counted(m)
    ensures Counted(OlderMessage(m, secs))
    ensures Encode(OlderMessage(m, secs))
         == (Header(m) + Flat(m.questions, QuestionBytes)) + Flat(AllOlder(m.Records(), secs), RecordBytes)
  {
    var o := OlderMessage(m, secs);
    EncodeSplit(o);
    assert Header(o) == Header(m);
    assert o.Records() == AllOlder(m.Records(), secs);
  }

  lemma EncodeSplit(m: Message)
    requires Counted(m)
    ensures Encode(m) == (Header(m) + Flat(m.questions, QuestionBytes)) + Flat(m.Records(), RecordBytes)
  {
  }

  lemma AgesFrom(pre: Bytes, rs: seq<Record>, msg: Bytes, secs: nat)
    requires msg == pre + Flat(rs, RecordBytes) && Visited(msg) == Parts(rs, |pre|, RecordBytes, Lead())
    ensures Aged(msg, secs) == pre + Flat(AllOlder(rs, secs), RecordBytes)
  {
    AgesRecords(secs, RecordBytes, OlderBytes(secs), Lead(), Ager(secs));
    var go := (m: Bytes, ps: seq<nat>, low: nat) => Rewritten(m, ps, low, Ager(secs));
    AgesAll(pre, rs, 12, RecordBytes, OlderBytes(secs), Lead(), go, Ager(secs));
    OlderFlat(rs, secs);
  }
}
