/** IPv4 fragmentation in internal/ippkt/ippkt.go (`Fragments4`), against the fragment
  offset, length and more-fragments rules of sections 3.1 and 3.2 of RFC 791. */
module Fragments {
  import opened Bytes
  import opened Checksums
  import opened Net

  const MORE := 0x2000

  /** The multiple of 8 payload bytes one piece carries. */
  function StepOf(size: int): int { (size - 20) - (size - 20) % 8 }

  predicate Fragmentable(pkt: Bytes, size: int) {
    && |pkt| >= 20 && pkt[0] == 0x45 && !Bit(pkt[6], 0x40)
    && size < U16(pkt, 2) <= |pkt|
    && StepOf(size) > 0
  }

  function Body(pkt: Bytes): Bytes
    requires |pkt| >= 20 && 20 <= U16(pkt, 2) <= |pkt|
  {
    pkt[20..U16(pkt, 2)]
  }

  // The 16-bit field at byte 6: three flag bits over the offset in 8-byte units.
  function Units(p: Bytes): nat
    requires |p| >= 20
  {
    U16(p, 6) % 0x2000
  }

  predicate MoreOf(p: Bytes)
    requires |p| >= 20
  {
    Bit(U16(p, 6), MORE)
  }

  /** `at |= 0x2000` on a 16-bit value. */
  function OrMore(at: nat, more: bool): (r: nat)
    requires at < 0x1_0000
    ensures r < 0x1_0000
  {
    if more && !Bit(at, MORE) then at + MORE else at
  }

  /** The header of a piece with `n` payload bytes, checksum included. */
  function Header(pkt: Bytes, n: nat, at: nat): (h: Bytes)
    requires |pkt| >= 20 && n + 20 < 0x1_0000 && at < 0x1_0000
    ensures |h| == 20
  {
    var h := Put(Put(Put(pkt[..20], 2, Be16(20 + n)), 6, Be16(at)), 10, [0, 0]);
    Put(h, 10, Be16(Sum16(h)))
  }

  /** The bytes of a header that fragmenting must not touch. */
  predicate Copied(pkt: Bytes, p: Bytes) {
    |pkt| >= 20 && |p| >= 20 &&
    forall i :: 0 <= i < 20 && i !in {2, 3, 6, 7, 10, 11} ==> p[i] == pkt[i]
  }

  lemma HeaderIsRight(pkt: Bytes, n: nat, at: nat)
    requires |pkt| >= 20 && n + 20 < 0x1_0000 && at < 0x1_0000
    ensures var h := Header(pkt, n, at);
      U16(h, 2) == 20 + n && U16(h, 6) == at && Copied(pkt, h) && Sum16(h) == 0
  {
    var lengthened := Put(pkt[..20], 2, Be16(20 + n));
    var offset := Put(lengthened, 6, Be16(at));
    var h := Put(offset, 10, [0, 0]);
    Closes(h, 10);
  }

  /** The offset field can count every byte up to `start` of the body. */
  predicate OffsetsFit(pkt: Bytes, start: nat)
    requires |pkt| >= 20
  {
    Units(pkt) + start / 8 < 0x2000
  }

  /** What a receiver reads off a piece: where its payload belongs in the datagram. */
  function Place(p: Bytes): nat
    requires |p| >= 20
  {
    8 * Units(p)
  }

  /** What a receiver reads off a piece is true: where its payload starts, counted from
    the datagram's own place, and whether more follows.  For the start this holds exactly
    when the offset field can count that far. */
  ghost predicate Tells(pkt: Bytes, p: Bytes, off: nat, more: bool)
    requires |pkt| >= 20 && |p| >= 20
  {
    && (OffsetsFit(pkt, off) <==> Place(p) == Place(pkt) + off)
    && (OffsetsFit(pkt, off) ==> (MoreOf(p) <==> more || MoreOf(pkt)))
    && (Place(pkt) + off <= 0xFFFF ==> OffsetsFit(pkt, off))
  }

  /** Piece `p`, starting `off` bytes into a body of `len` bytes. */
  ghost predicate PieceOk(pkt: Bytes, size: int, p: Bytes, off: nat, len: nat)
    requires |pkt| >= 20
  {
    && 20 < |p| <= size && |p| - 20 <= StepOf(size)
    && off + |p| - 20 <= len
    && (off + |p| - 20 < len ==> |p| - 20 == StepOf(size))
    && U16(p, 2) == |p| && U16(p, 6) < 0x4000
    && Copied(pkt, p) && Sum16(p[..20]) == 0
    && Tells(pkt, p, off, off + |p| - 20 < len)
  }

  /** The pieces of `out`, in order, carry exactly `body[..end]`, each where it belongs. */
  ghost predicate Laid(pkt: Bytes, size: int, out: seq<Bytes>, body: Bytes, end: nat)
    requires |pkt| >= 20
  {
    if out == [] then end == 0
    else
      var p := out[|out| - 1];
      && 20 < |p| <= end + 20 && end <= |body|
      && PieceOk(pkt, size, p, end + 20 - |p|, |body|)
      && p[20..] == body[end + 20 - |p|..end]
      && Laid(pkt, size, out[..|out| - 1], body, end + 20 - |p|)
  }

  ghost predicate Cut(pkt: Bytes, size: int, out: seq<Bytes>)
    requires Fragmentable(pkt, size)
  {
    Laid(pkt, size, out, Body(pkt), |Body(pkt)|)
  }

  lemma FieldReads(units: nat, more: bool)
    requires units < 0x4000
    ensures OrMore(units, more) % 0x2000 == if units < 0x2000 then units else units - 0x2000
    ensures units < 0x2000 ==> Bit(OrMore(units, more), MORE) == more
  {
  }

  lemma PlaceReads(base: nat, at: nat, more: bool)
    requires base < 0x2000 && at % 8 == 0 && at <= 0xFFFF
    ensures base + at / 8 < 0x2000 <==> 8 * (OrMore(base + at / 8, more) % 0x2000) == 8 * base + at
    ensures base + at / 8 < 0x2000 ==> Bit(OrMore(base + at / 8, more), MORE) == more
    ensures OrMore(base + at / 8, more) < 0x4000
    ensures 8 * base + at <= 0xFFFF ==> base + at / 8 < 0x2000
  {
    var u := at / 8;
    assert at == 8 * u;
    FieldReads(base + u, more);
  }

  /** The sizes of a piece: at most `size`, and whole 8-byte units unless it is the last. */
  lemma PieceSizes(pkt: Bytes, size: int, off: nat, end: nat)
    requires Fragmentable(pkt, size) && off < |Body(pkt)| && off % 8 == 0
    requires end == if off + StepOf(size) < |Body(pkt)| then off + StepOf(size) else |Body(pkt)|
    ensures 0 < end - off <= StepOf(size) <= size - 20
    ensures end < |Body(pkt)| ==> end - off == StepOf(size)
    ensures Units(pkt) + off / 8 < 0x4000
  {
  }

  lemma PieceIsOk(pkt: Bytes, size: int, body: Bytes, off: nat, end: nat)
    requires Fragmentable(pkt, size) && body == Body(pkt)
    requires off < |body| && off % 8 == 0
    requires end == if off + StepOf(size) < |body| then off + StepOf(size) else |body|
    ensures Units(pkt) + off / 8 < 0x1_0000
    ensures var p := Header(pkt, end - off, OrMore(Units(pkt) + off / 8, end < |body| || MoreOf(pkt))) + body[off..end];
      PieceOk(pkt, size, p, off, |body|) && p[20..] == body[off..end]
  {
    PieceSizes(pkt, size, off, end);
    HeadMakesPiece(pkt, size, off, body[off..end], |body|);
  }

  lemma HeadMakesPiece(pkt: Bytes, size: int, off: nat, payload: Bytes, len: nat)
    requires |pkt| >= 20 && Units(pkt) + off / 8 < 0x4000 && off % 8 == 0
    requires 0 < |payload| <= StepOf(size) <= size - 20 && off + |payload| <= len < 0x1_0000 - 20
    requires off + |payload| < len ==> |payload| == StepOf(size)
    ensures var p := Header(pkt, |payload|, OrMore(Units(pkt) + off / 8, off + |payload| < len || MoreOf(pkt))) + payload;
      PieceOk(pkt, size, p, off, len) && p[20..] == payload
  {
    var at := OrMore(Units(pkt) + off / 8, off + |payload| < len || MoreOf(pkt));
    var h := Header(pkt, |payload|, at);
    HeaderIsRight(pkt, |payload|, at);
    PlaceReads(Units(pkt), off, off + |payload| < len || MoreOf(pkt));
    assert (h + payload)[..20] == h;
  }

  lemma LaidMore(pkt: Bytes, size: int, out: seq<Bytes>, p: Bytes, body: Bytes, off: nat, end: nat)
    requires |pkt| >= 20 && Laid(pkt, size, out, body, off)
    requires off <= end <= |body| && |p| == 20 + end - off
    requires PieceOk(pkt, size, p, off, |body|) && p[20..] == body[off..end]
    ensures Laid(pkt, size, out + [p], body, end)
  {
    assert (out + [p])[..|out|] == out;
  }

  lemma NextStart(size: int, off: nat)
    requires off % 8 == 0 && StepOf(size) > 0
    ensures (off + StepOf(size)) % 8 == 0
  {
  }

  /** What is cut: an IPv4 packet without options or the flag against it (bit 0x40 of byte 6),
    all there, longer than the size, and a size with room for eight bytes after a header. */
  predicate MayCut(pkt: Bytes, size: int) {
    && |pkt| >= 20 && pkt[0] == 0x45 && (pkt[6] < 0x40 || 0x80 <= pkt[6] < 0xC0)
    && 28 <= size < U16(pkt, 2) <= |pkt|
  }

  lemma WhenCut(pkt: Bytes, size: int)
    ensures MayCut(pkt, size) <==> Fragmentable(pkt, size)
  {
  }

  method Fragments4(pkt: Bytes, size: int) returns (out: seq<Bytes>)
    ensures !Fragmentable(pkt, size) ==> out == []
    ensures out != [] <==> MayCut(pkt, size)
    ensures Fragmentable(pkt, size) ==> Cut(pkt, size, out)
  {
    out := [];
    WhenCut(pkt, size);
    if !Fragmentable(pkt, size) { return; }
    var body, step := Body(pkt), StepOf(size);
    var off, end := 0, 0;
    while off < |body|
      invariant off % 8 == 0 && end == if off < |body| then off else |body|
      invariant Laid(pkt, size, out, body, end)
    {
      end := if off + step < |body| then off + step else |body|;
      var frag := Piece(pkt, size, body, off, end);
      LaidMore(pkt, size, out, frag, body, off, end);
      NextStart(size, off);
      out := out + [frag];
      off := off + step;
    }
  }

  /** The body of the loop: one header and the payload under it. */
  method Piece(pkt: Bytes, size: int, body: Bytes, off: nat, end: nat) returns (frag: Bytes)
    requires Fragmentable(pkt, size) && body == Body(pkt)
    requires off < |body| && off % 8 == 0
    requires end == if off + StepOf(size) < |body| then off + StepOf(size) else |body|
    ensures off < end && |frag| == 20 + end - off
    ensures PieceOk(pkt, size, frag, off, |body|) && frag[20..] == body[off..end]
  {
    PieceIsOk(pkt, size, body, off, end);
    var at := OrMore(Units(pkt) + off / 8, end < |body| || MoreOf(pkt));
    frag := Header(pkt, end - off, at) + body[off..end];
  }

  // ---------------------------------------------------------- reassembly

  /** Payload bytes carried by the first `k` pieces. */
  function Before(out: seq<Bytes>, k: nat): nat
    requires k <= |out|
  {
    if k == 0 then 0 else Before(out, k - 1) + if |out[k - 1]| > 20 then |out[k - 1]| - 20 else 0
  }

  lemma {:induction false} BeforePrefix(out: seq<Bytes>, n: nat, k: nat)
    requires k <= n <= |out|
    ensures Before(out[..n], k) == Before(out, k)
  {
    if k > 0 { BeforePrefix(out, n, k - 1); }
  }

  /** Every piece, not only the last: where it starts, and what it carries. */
  lemma {:induction false} PieceAt(pkt: Bytes, size: int, out: seq<Bytes>, body: Bytes, end: nat, k: nat)
    requires |pkt| >= 20 && Laid(pkt, size, out, body, end) && k < |out|
    ensures Before(out, |out|) == end <= |body|
    ensures 20 < |out[k]| && Before(out, k) + |out[k]| - 20 == Before(out, k + 1) <= end
    ensures PieceOk(pkt, size, out[k], Before(out, k), |body|)
    ensures out[k][20..] == body[Before(out, k)..Before(out, k + 1)]
    ensures k + 1 < |out| ==> Before(out, k + 1) < end
  {
    var n := |out| - 1;
    LaidEnds(pkt, size, out, body, end);
    if k < n {
      PieceAt(pkt, size, out[..n], body, end + 20 - |out[n]|, k);
      BeforePrefix(out, n, k);
      BeforePrefix(out, n, k + 1);
    }
  }

  lemma {:induction false} LaidEnds(pkt: Bytes, size: int, out: seq<Bytes>, body: Bytes, end: nat)
    requires |pkt| >= 20 && Laid(pkt, size, out, body, end)
    ensures Before(out, |out|) == end <= |body|
    ensures out != [] ==> Before(out, |out| - 1) == end + 20 - |out[|out| - 1]|
  {
    if out != [] {
      var n := |out| - 1;
      LaidEnds(pkt, size, out[..n], body, end + 20 - |out[n]|);
      BeforePrefix(out, n, n);
    }
  }

  /** Every piece fits the size, states its own length, keeps the rest of the header, and
    its header checksum verifies. */
  lemma PieceIsValid(pkt: Bytes, size: int, out: seq<Bytes>, k: nat)
    requires Fragmentable(pkt, size) && Cut(pkt, size, out) && k < |out|
    ensures 20 < |out[k]| <= size && U16(out[k], 2) == |out[k]|
    ensures Copied(pkt, out[k]) && Sum16(out[k][..20]) == 0
  {
    PieceAt(pkt, size, out, Body(pkt), |Body(pkt)|, k);
  }

  /** Every piece tells a receiver its place and whether it is the last, so the order of
    arrival is free. */
  lemma PieceTellsItsPlace(pkt: Bytes, size: int, out: seq<Bytes>, k: nat)
    requires Fragmentable(pkt, size) && Cut(pkt, size, out) && k < |out|
    ensures 20 < |out[k]| && Tells(pkt, out[k], Before(out, k), Before(out, k + 1) < |Body(pkt)|)
    ensures k + 1 < |out| <==> Before(out, k + 1) < |Body(pkt)|
  {
    PieceAt(pkt, size, out, Body(pkt), |Body(pkt)|, k);
  }

  /** The payloads are the packet's own bytes, in order; every piece but the last is as long
    as whole units of eight allow. */
  lemma PiecesCarry(pkt: Bytes, size: int, out: seq<Bytes>, k: nat)
    requires MayCut(pkt, size) && Fragmentable(pkt, size) && Cut(pkt, size, out) && k < |out|
    ensures Before(out, 0) == 0 && Before(out, |out|) == U16(pkt, 2) - 20
    ensures |out[k]| > 20 && Before(out, k + 1) == Before(out, k) + |out[k]| - 20 <= U16(pkt, 2) - 20
    ensures out[k][20..] == pkt[20 + Before(out, k)..20 + Before(out, k + 1)]
    ensures k + 1 < |out| ==> (|out[k]| - 20) % 8 == 0 && |out[k]| + 8 > size
  {
    var body := Body(pkt);
    LaidEnds(pkt, size, out, body, |body|);
    PieceAt(pkt, size, out, body, |body|, k);
    SubRange(pkt, U16(pkt, 2), Before(out, k), Before(out, k + 1));
    if k + 1 < |out| { LongStep(size, |out[k]|); }
  }

  lemma SubRange(pkt: Bytes, total: nat, i: nat, j: nat)
    requires 20 <= total <= |pkt| && i <= j <= total - 20
    ensures pkt[20..total][i..j] == pkt[20 + i..20 + j]
  {
    var x, y := pkt[20..total][i..j], pkt[20 + i..20 + j];
    assert |x| == |y| && forall k :: 0 <= k < |x| ==> x[k] == y[k];
  }

  lemma LongStep(size: int, n: nat)
    requires n - 20 == StepOf(size)
    ensures (n - 20) % 8 == 0 && n + 8 > size
  {
  }

  /** What a piece says, read off its bytes: while its 13-bit field can count that far, the
    field is where the payload lies and bit 0x2000 is whether more follows. */
  lemma PiecesSay(pkt: Bytes, size: int, out: seq<Bytes>, k: nat)
    requires MayCut(pkt, size) && Fragmentable(pkt, size) && Cut(pkt, size, out) && k < |out|
    requires U16(pkt, 6) % 0x2000 + Before(out, k) / 8 < 0x2000
    ensures |out[k]| > 20 && U16(out[k], 6) < 0x4000
    ensures U16(out[k], 6) % 0x2000 * 8 == U16(pkt, 6) % 0x2000 * 8 + Before(out, k)
    ensures U16(out[k], 6) / 0x2000 == 1 <==> k + 1 < |out| || U16(pkt, 6) / 0x2000 % 2 == 1
  {
    var body := Body(pkt);
    PieceAt(pkt, size, out, body, |body|, k);
    PieceTellsItsPlace(pkt, size, out, k);
    SaysRaw(pkt, out[k], Before(out, k), Before(out, k + 1) < |body|);
  }

  lemma SaysRaw(pkt: Bytes, p: Bytes, off: nat, more: bool)
    requires |pkt| >= 20 && |p| >= 20 && Tells(pkt, p, off, more) && U16(p, 6) < 0x4000
    requires U16(pkt, 6) % 0x2000 + off / 8 < 0x2000
    ensures U16(p, 6) % 0x2000 * 8 == U16(pkt, 6) % 0x2000 * 8 + off
    ensures U16(p, 6) / 0x2000 == 1 <==> more || U16(pkt, 6) / 0x2000 % 2 == 1
  {
  }

  lemma StepUp(k: nat, step: nat)
    ensures (k + 1) * step == k * step + step
  {
  }

  /** Every piece but the last carries a whole step, so pieces start at multiples of it. */
  lemma {:induction false} StartsAtSteps(pkt: Bytes, size: int, out: seq<Bytes>, k: nat)
    requires Fragmentable(pkt, size) && Cut(pkt, size, out) && k < |out|
    ensures Before(out, k) == k * StepOf(size)
  {
    if k > 0 {
      StartsAtSteps(pkt, size, out, k - 1);
      PieceAt(pkt, size, out, Body(pkt), |Body(pkt)|, k - 1);
      StepUp(k - 1, StepOf(size));
    }
  }

  /** Where the last piece will start, told from the packet and the size. */
  function LastStart(pkt: Bytes, size: int): (r: nat)
    requires Fragmentable(pkt, size)
    ensures r < |Body(pkt)|
  {
    Floor(|Body(pkt)| - 1, StepOf(size))
  }

  lemma LastPieceLies(pkt: Bytes, size: int, out: seq<Bytes>)
    requires Fragmentable(pkt, size) && Cut(pkt, size, out)
    ensures out != [] && Before(out, |out| - 1) < |Body(pkt)| <= Before(out, |out| - 1) + StepOf(size)
  {
    LaidEnds(pkt, size, out, Body(pkt), |Body(pkt)|);
    PieceAt(pkt, size, out, Body(pkt), |Body(pkt)|, |out| - 1);
  }

  lemma LastPieceStarts(pkt: Bytes, size: int, out: seq<Bytes>)
    requires Fragmentable(pkt, size) && Cut(pkt, size, out)
    ensures out != [] && Before(out, |out| - 1) == LastStart(pkt, size)
  {
    LastPieceLies(pkt, size, out);
    var n: nat := |out| - 1;
    StartsAtSteps(pkt, size, out, n);
    Quotient(|Body(pkt)| - 1, n, StepOf(size));
    FloorIs(|Body(pkt)| - 1, StepOf(size));
  }

  ghost predicate AllPlaced(pkt: Bytes, out: seq<Bytes>)
    requires |pkt| >= 20
  {
    forall k :: 0 <= k < |out| ==> |out[k]| > 20 && Place(out[k]) == Place(pkt) + Before(out, k)
  }

  /** All pieces state their places rightly exactly when the offset field can count up to
    where the last one starts. */
  lemma AllPlacedIff(pkt: Bytes, size: int, out: seq<Bytes>)
    requires Fragmentable(pkt, size) && Cut(pkt, size, out)
    ensures AllPlaced(pkt, out) <==> OffsetsFit(pkt, LastStart(pkt, size))
  {
    LastPieceStarts(pkt, size, out);
    PieceTellsItsPlace(pkt, size, out, |out| - 1);
    if OffsetsFit(pkt, LastStart(pkt, size)) {
      forall k | 0 <= k < |out| ensures |out[k]| > 20 && Place(out[k]) == Place(pkt) + Before(out, k) {
        PieceTellsItsPlace(pkt, size, out, k);
        BeforeGrows(out, k, |out| - 1);
      }
    }
  }

  /** A packet for which it cannot: its own offset field is at the top already, so its second
    piece cannot say where it lies. */
  lemma MisplacedPiece(out: seq<Bytes>) returns (pkt: Bytes)
    ensures Fragmentable(pkt, 60) && Place(pkt) == 65528 && !MoreOf(pkt) && !OffsetsFit(pkt, LastStart(pkt, 60))
    ensures Cut(pkt, 60, out) ==> !AllPlaced(pkt, out)
  {
    var head: Bytes := [0x45, 0, 0, 100, 0, 0, 0x1F, 0xFF];
    pkt := head + Zeros(92);
    assert U16(pkt, 2) == 100 && U16(pkt, 6) == 0x1FFF;
    assert |Body(pkt)| == 80 && StepOf(60) == 40;
    if Cut(pkt, 60, out) { AllPlacedIff(pkt, 60, out); }
  }

  /** Every datagram that ends within 65535 bytes of payload is one. */
  lemma DatagramsFit(pkt: Bytes, size: int)
    requires Fragmentable(pkt, size) && Place(pkt) + |Body(pkt)| <= 0xFFFF
    ensures OffsetsFit(pkt, LastStart(pkt, size))
  {
  }

  /** Where a piece lies, in terms of the datagram alone. */
  lemma PieceSpans(pkt: Bytes, size: int, out: seq<Bytes>, k: nat)
    requires Fragmentable(pkt, size) && Cut(pkt, size, out) && k < |out|
    requires OffsetsFit(pkt, LastStart(pkt, size))
    ensures 20 < |out[k]| && Place(out[k]) == Place(pkt) + Before(out, k)
    ensures Before(out, k) + |out[k]| - 20 == Before(out, k + 1) <= |Body(pkt)|
    ensures out[k][20..] == Body(pkt)[Before(out, k)..Before(out, k + 1)]
  {
    PieceAt(pkt, size, out, Body(pkt), |Body(pkt)|, k);
    AllPlacedIff(pkt, size, out);
  }

  /** The piece that carries byte `q` of the body. */
  lemma FindPiece(pkt: Bytes, size: int, out: seq<Bytes>, q: nat) returns (k: nat)
    requires Fragmentable(pkt, size) && Cut(pkt, size, out) && q < |Body(pkt)|
    ensures k < |out| && Before(out, k) <= q < Before(out, k + 1)
  {
    k := 0;
    while k + 1 < |out| && Before(out, k + 1) <= q
      invariant k < |out| && Before(out, k) <= q
    {
      k := k + 1;
    }
    PieceAt(pkt, size, out, Body(pkt), |Body(pkt)|, k);
  }

  /** Reassembly: each byte of the datagram is in exactly one piece, at the place that
    piece states, and it is the right byte. */
  lemma Reassembles(pkt: Bytes, size: int, out: seq<Bytes>, q: nat) returns (k: nat)
    requires Fragmentable(pkt, size) && Cut(pkt, size, out)
    requires OffsetsFit(pkt, LastStart(pkt, size)) && q < |Body(pkt)|
    ensures k < |out| && |out[k]| > 20
    ensures Place(out[k]) <= Place(pkt) + q < Place(out[k]) + |out[k]| - 20
    ensures out[k][20 + Place(pkt) + q - Place(out[k])] == Body(pkt)[q]
    ensures forall i :: 0 <= i < |out| && i != k ==>
      |out[i]| > 20 && !(Place(out[i]) <= Place(pkt) + q < Place(out[i]) + |out[i]| - 20)
  {
    k := FindPiece(pkt, size, out, q);
    PieceSpans(pkt, size, out, k);
    assert out[k][20..][q - Before(out, k)] == Body(pkt)[q];
    forall i | 0 <= i < |out| && i != k
      ensures |out[i]| > 20 && !(Place(out[i]) <= Place(pkt) + q < Place(out[i]) + |out[i]| - 20)
    {
      PieceSpans(pkt, size, out, i);
      if i < k { BeforeGrows(out, i + 1, k); } else { BeforeGrows(out, k + 1, i); }
    }
  }

  lemma {:induction false} BeforeGrows(out: seq<Bytes>, i: nat, j: nat)
    requires i <= j <= |out|
    ensures Before(out, i) <= Before(out, j)
    decreases j - i
  {
    if i < j { BeforeGrows(out, i, j - 1); }
  }
}
