/** The packets internal/ippkt/ippkt.go makes up to turn a flow away: TCP resets and ICMP
  errors over IPv4 and IPv6.  An empty result stands for nil.  Each carries checksums that
  verify (RFC 791, section 3.1 of RFC 9293, section 8.1 of RFC 8200, RFC 4443). */
module Refusals {
  import opened Bytes
  import opened Checksums

  const TCP: byte := 6
  const ICMP: byte := 1
  const ICMP6: byte := 58

  // ------------------------------------------------------------ TCP reset

  /** A whole TCP header that is not itself a reset. */
  predicate Answerable(seg: Bytes) {
    |seg| >= 20 && 20 <= seg[12] / 16 * 4 <= |seg| && !Bit(seg[13], 0x04)
  }

  /** The sequence numbers a segment takes up; a SYN or a FIN counts for one. */
  function Taken(seg: Bytes): nat
    requires Answerable(seg)
  {
    |seg| - seg[12] / 16 * 4 + if seg[13] % 4 != 0 then 1 else 0
  }

  /** `t` is the reset the code makes in answer to `seg`: it always carries ACK, where section
    3.5.2 of RFC 9293 would leave ACK out in answer to a segment that has it. */
  ghost predicate ResetOf(t: Bytes, seg: Bytes)
    requires Answerable(seg)
  {
    && |t| == 20
    && t[0..2] == seg[2..4] && t[2..4] == seg[0..2]
    && U32(t, 4) == (if Bit(seg[13], 0x10) then U32(seg, 8) else 0)
    && U32(t, 8) == (U32(seg, 4) + Taken(seg)) % 0x1_0000_0000
    && t[12] == 0x50 && t[13] == 0x14 && U16(t, 14) == 0 && U16(t, 18) == 0
  }

  lemma U32OfSlice(b: Bytes, i: nat, j: nat)
    requires i <= j && j + 4 <= |b|
    ensures U32(b[i..], j - i) == U32(b, j)
    ensures U32(b[j..j + 4], 0) == U32(b, j)
  {
  }

  /** The reset without its checksum. */
  method Reset(seg: Bytes) returns (t: Bytes)
    requires Answerable(seg)
    ensures ResetOf(t, seg) && t[16] == 0 && t[17] == 0
  {
    var ack := (U32(seg, 4) + Taken(seg)) % 0x1_0000_0000;
    t := Zeros(20);
    t := Put(t, 0, seg[2..4]);
    t := Put(t, 2, seg[0..2]);
    if Bit(seg[13], 0x10) {
      t := Put(t, 4, seg[8..12]);
    }
    t := Put(t, 8, Be32(ack));
    t := Put(t, 12, [0x50, 0x14]);
    U32OfSlice(t, 0, 8);
    assert t[8..12] == Be32(ack);
  }

  // ---------------------------------------------------------------- IPv4

  /** A 20-byte IPv4 header that verifies, from `src` to `dst`, over `n` more bytes. */
  ghost predicate Header4(h: Bytes, proto: byte, src: Bytes, dst: Bytes, n: nat) {
    && |h| == 20 && h[0] == 0x45 && h[8] == 64 && h[9] == proto
    && U16(h, 2) == 20 + n && U16(h, 6) == 0
    && h[12..16] == src && h[16..20] == dst
    && Sum16(h) == 0
  }

  lemma HeaderFilled(h: Bytes, sum: Bytes)
    requires |h| == 20 && |sum| == 2
    ensures var r := Put(h, 10, sum);
      r[..10] == h[..10] && r[12..16] == h[12..16] && r[16..20] == h[16..20] && U16(r, 2) == U16(h[2..4], 0)
  {
  }

  method MakeHeader4(proto: byte, src: Bytes, dst: Bytes, n: nat) returns (h: Bytes)
    requires |src| == |dst| == 4 && n + 20 < 0x1_0000
    ensures Header4(h, proto, src, dst, n)
  {
    h := [0x45, 0] + Be16(20 + n) + [0, 0, 0, 0, 64, proto, 0, 0] + src + dst;
    assert h[2..4] == Be16(20 + n) && h[12..16] == src && h[16..20] == dst;
    var sum := Checksum(h);
    Closes(h, 10);
    HeaderFilled(h, Be16(sum));
    h := Put(h, 10, Be16(sum));
  }

  /** What a TCP checksum over IPv4 covers. */
  function Pseudo4(src: Bytes, dst: Bytes, seg: Bytes): Bytes
    requires |seg| < 0x1_0000
  {
    src + dst + [0, TCP] + Be16(|seg|) + seg
  }

  predicate Resettable4(pkt: Bytes) {
    && |pkt| >= 20 && pkt[0] / 16 == 4 && pkt[9] == TCP
    && 20 <= HeadLength(pkt) && |pkt| >= HeadLength(pkt) + 20
    && Answerable(pkt[HeadLength(pkt)..])
  }

  function HeadLength(pkt: Bytes): nat
    requires |pkt| >= 1
  {
    pkt[0] % 16 * 4
  }

  /** A TCP reset over IPv4, both checksums verified, back to where `pkt` came from. */
  ghost predicate IsReset4(out: Bytes, pkt: Bytes)
    requires Resettable4(pkt)
  {
    && |out| == 40
    && Header4(out[..20], TCP, pkt[16..20], pkt[12..16], 20)
    && ResetOf(out[20..], pkt[HeadLength(pkt)..])
    && Sum16(Pseudo4(pkt[16..20], pkt[12..16], out[20..])) == 0
  }

  /** Filling a zeroed checksum field makes `front + t` verify. */
  lemma FillCloses(front: Bytes, t: Bytes, at: nat)
    requires |front| % 2 == 0 && at % 2 == 0 && at + 2 <= |t| && t[at] == 0 && t[at + 1] == 0
    requires |front| + |t| <= 0x2_0000
    ensures Sum16(front + Put(t, at, Be16(Sum16(front + t)))) == 0
  {
    Closes(front + t, |front| + at);
    assert front + Put(t, at, Be16(Sum16(front + t))) == Put(front + t, |front| + at, Be16(Sum16(front + t)));
  }

  lemma FilledIsReset(t: Bytes, seg: Bytes, sum: Bytes)
    requires Answerable(seg) && ResetOf(t, seg) && |sum| == 2
    ensures ResetOf(Put(t, 16, sum), seg)
  {
    var r := Put(t, 16, sum);
    assert r[..16] == t[..16];
    assert r[0..2] == t[0..2] && r[2..4] == t[2..4];
  }

  method Reset4(pkt: Bytes) returns (out: Bytes)
    ensures out == [] <==> !Resettable4(pkt)
    ensures out != [] ==> IsReset4(out, pkt)
  {
    if !Resettable4(pkt) { return []; }
    var seg := pkt[HeadLength(pkt)..];
    var head := MakeHeader4(TCP, pkt[16..20], pkt[12..16], 20);
    var tcp := Reset(seg);
    var front := pkt[16..20] + pkt[12..16] + [0, TCP, 0, 20];
    var sum := Checksum(front + tcp);
    FillCloses(front, tcp, 16);
    FilledIsReset(tcp, seg, Be16(sum));
    tcp := Put(tcp, 16, Be16(sum));
    assert Pseudo4(pkt[16..20], pkt[12..16], tcp) == front + tcp;
    out := head + tcp;
    assert out[..20] == head && out[20..] == tcp;
  }

  // ------------------------------------------------------- ICMP over IPv4

  /** An ICMP error of the given type and code, quoting a packet, that verifies. */
  ghost predicate Quotes(msg: Bytes, kind: byte, code: byte, quoted: Bytes) {
    && |msg| == 8 + |quoted| && msg[0] == kind && msg[1] == code && U32(msg, 4) == 0
    && msg[8..] == quoted
  }

  function Least(a: nat, b: nat): nat { if a < b then a else b }

  predicate Unreachable4(pkt: Bytes) {
    && |pkt| >= 28 && pkt[0] / 16 == 4 && pkt[9] != TCP && pkt[9] != ICMP
    && 20 <= HeadLength(pkt) && |pkt| >= HeadLength(pkt) + 8
  }

  /** Port unreachable over IPv4, quoting what fits in 576 bytes, both checksums verified. */
  ghost predicate IsUnreachable4(out: Bytes, pkt: Bytes)
    requires Unreachable4(pkt)
  {
    && 20 < |out| <= 576
    && Header4(out[..20], ICMP, pkt[16..20], pkt[12..16], |out| - 20)
    && Quotes(out[20..], 3, 3, pkt[..Least(|pkt|, 548)]) && Sum16(out[20..]) == 0
  }

  /** `Refuse` for a packet that is neither TCP nor ICMP: destination port unreachable. */
  method PortUnreachable4(pkt: Bytes) returns (out: Bytes)
    requires Unreachable4(pkt)
    ensures IsUnreachable4(out, pkt)
  {
    var quoted := pkt[..Least(|pkt|, 548)];
    var msg: Bytes := [3, 3, 0, 0, 0, 0, 0, 0] + quoted;
    var sum := Checksum(msg);
    Closes(msg, 2);
    msg := Put(msg, 2, Be16(sum));
    assert msg[8..] == quoted;
    var head := MakeHeader4(ICMP, pkt[16..20], pkt[12..16], |msg|);
    out := head + msg;
    assert out[..20] == head && out[20..] == msg;
  }

  // ---------------------------------------------------------------- IPv6

  /** A 40-byte IPv6 header from `src` to `dst` over `n` more bytes. */
  ghost predicate Header6(h: Bytes, proto: byte, hop: byte, src: Bytes, dst: Bytes, n: nat) {
    && |h| == 40 && h[0] == 0x60 && U16(h, 1) == 0 && h[3] == 0
    && U16(h, 4) == n && h[6] == proto && h[7] == hop
    && h[8..24] == src && h[24..40] == dst
  }

  /** What an upper-layer checksum over IPv6 covers: `Checksum6` sums exactly this. */
  function Pseudo6(src: Bytes, dst: Bytes, proto: byte, msg: Bytes): Bytes
    requires |msg| < 0x1_0000_0000
  {
    src + dst + Be32(|msg|) + [0, 0, 0, proto] + msg
  }

  method MakeHeader6(proto: byte, hop: byte, src: Bytes, dst: Bytes, n: nat) returns (h: Bytes)
    requires |src| == |dst| == 16
    ensures Header6(h, proto, hop, src, dst, n % 0x1_0000)
  {
    h := Zeros(40);
    h := Put(h, 0, [0x60]);
    h := Put(h, 6, [proto, hop]);
    h := Put(h, 4, Be16(n % 0x1_0000));
    h := Put(h, 8, src);
    h := Put(h, 24, dst);
    assert h[8..24] == src;
  }

  method Checksum6(pkt: Bytes) returns (r: nat)
    requires 40 <= |pkt| < 0x1_0000_0000
    ensures r == Sum16(Pseudo6(pkt[8..24], pkt[24..40], pkt[6], pkt[40..]))
  {
    var msg := pkt[40..];
    var sum := Zeros(40);
    sum := Put(sum, 0, pkt[8..40]);
    sum := Put(sum, 32, Be32(|msg|));
    sum := Put(sum, 39, [pkt[6]]);
    assert sum == pkt[8..24] + pkt[24..40] + Be32(|msg|) + [0, 0, 0, pkt[6]];
    assert sum + msg == Pseudo6(pkt[8..24], pkt[24..40], pkt[6], msg);
    r := Checksum(sum + msg);
  }

  /** `ICMPv6`: the message under an IPv6 header, its checksum filled in.  The length field
    is 16 bits, so it is the message's own length only below 65536. */
  method Icmp6(src: Bytes, dst: Bytes, hop: byte, msg: Bytes) returns (out: Bytes)
    requires |src| == |dst| == 16 && 4 <= |msg| <= 0x2_0000 - 40
    ensures |out| == 40 + |msg|
    ensures Header6(out[..40], ICMP6, if hop == 0 then 64 else hop, src, dst, |msg| % 0x1_0000)
    ensures out[40..42] == msg[..2] && out[44..] == msg[4..]
    ensures Sum16(Pseudo6(src, dst, ICMP6, out[40..])) == 0
  {
    var head := MakeHeader6(ICMP6, if hop == 0 then 64 else hop, src, dst, |msg|);
    var zeroed := Put(msg, 2, [0, 0]);
    out := head + zeroed;
    assert out[..40] == head && out[40..] == zeroed;
    assert out[8..24] == src && out[24..40] == dst;
    var sum := Checksum6(out);
    var front := src + dst + Be32(|msg|) + [0, 0, 0, ICMP6];
    assert Pseudo6(src, dst, ICMP6, zeroed) == front + zeroed;
    FillCloses(front, zeroed, 2);
    var filled := Put(zeroed, 2, Be16(sum));
    assert Pseudo6(src, dst, ICMP6, filled) == front + filled;
    out := Put(out, 42, Be16(sum));
    assert out[..40] == head && out[40..] == filled;
    assert filled[..2] == msg[..2] && filled[4..] == msg[4..];
    assert out[40..42] == filled[..2] && out[44..] == filled[4..];
  }

  predicate Resettable6(pkt: Bytes) {
    |pkt| >= 40 && pkt[0] / 16 == 6 && pkt[6] == TCP && Answerable(pkt[40..])
  }

  predicate Unreachable6(pkt: Bytes) {
    |pkt| >= 40 && pkt[0] / 16 == 6 && pkt[6] != TCP && pkt[6] != ICMP6
  }

  /** A TCP reset over IPv6, checksums verified, back to where `pkt` came from. */
  ghost predicate IsReset6(out: Bytes, pkt: Bytes)
    requires Resettable6(pkt)
  {
    && |out| == 60
    && Header6(out[..40], TCP, 64, pkt[24..40], pkt[8..24], 20)
    && ResetOf(out[40..], pkt[40..])
    && Sum16(Pseudo6(pkt[24..40], pkt[8..24], TCP, out[40..])) == 0
  }

  /** Address unreachable over IPv6, quoting what fits in 1280 bytes. */
  ghost predicate IsUnreachable6(out: Bytes, pkt: Bytes)
    requires Unreachable6(pkt)
  {
    && 48 <= |out| <= 1280
    && Header6(out[..40], ICMP6, 64, pkt[24..40], pkt[8..24], |out| - 40)
    && Quotes(out[40..], 1, 4, pkt[..Least(|pkt|, 1232)])
    && Sum16(Pseudo6(pkt[24..40], pkt[8..24], ICMP6, out[40..])) == 0
  }

  method Unreached6(pkt: Bytes, src: Bytes, dst: Bytes) returns (out: Bytes)
    requires Unreachable6(pkt) && src == pkt[24..40] && dst == pkt[8..24]
    ensures IsUnreachable6(out, pkt)
  {
    var quoted := pkt[..Least(|pkt|, 1280 - 48)];
    var msg: Bytes := [1, 4, 0, 0, 0, 0, 0, 0] + quoted;
    out := Icmp6(src, dst, 64, msg);
    assert out[48..] == out[44..][4..] && msg[8..] == msg[4..][4..];
    assert out[44..][..4] == msg[4..][..4];
    assert out[40..][8..] == quoted;
    assert out[40..42][0] == 1 && out[40..42][1] == 4;
  }

  method Refuse6(pkt: Bytes) returns (out: Bytes)
    ensures out == [] <==> !Resettable6(pkt) && !Unreachable6(pkt)
    ensures Resettable6(pkt) ==> IsReset6(out, pkt)
    ensures Unreachable6(pkt) ==> IsUnreachable6(out, pkt)
  {
    if |pkt| < 40 || pkt[0] / 16 != 6 || pkt[6] == ICMP6 { return []; }
    var src, dst := pkt[24..40], pkt[8..24];
    if pkt[6] != TCP {
      out := Unreached6(pkt, src, dst);
      return;
    }
    if !Answerable(pkt[40..]) { return []; }
    var head := MakeHeader6(TCP, 64, src, dst, 20);
    var tcp := Reset(pkt[40..]);
    out := head + tcp;
    assert out[8..24] == src && out[24..40] == dst && out[40..] == tcp;
    var sum := Checksum6(out);
    var front := src + dst + Be32(20) + [0, 0, 0, TCP];
    assert Pseudo6(src, dst, TCP, tcp) == front + tcp;
    FillCloses(front, tcp, 16);
    FilledIsReset(tcp, pkt[40..], Be16(sum));
    var filled := Put(tcp, 16, Be16(sum));
    assert Pseudo6(src, dst, TCP, filled) == front + filled;
    out := head + filled;
    assert out[..40] == head && out[40..] == filled;
  }

  /** Every packet either gets the refusal its kind calls for or none at all. */
  method Refuse(pkt: Bytes) returns (out: Bytes)
    ensures Resettable4(pkt) ==> IsReset4(out, pkt)
    ensures Unreachable4(pkt) ==> IsUnreachable4(out, pkt)
    ensures Resettable6(pkt) ==> IsReset6(out, pkt)
    ensures Unreachable6(pkt) ==> IsUnreachable6(out, pkt)
    ensures out == [] <==>
      !Resettable4(pkt) && !Unreachable4(pkt) && !Resettable6(pkt) && !Unreachable6(pkt)
  {
    if |pkt| < 28 || pkt[0] / 16 != 4 {
      out := Refuse6(pkt);
    } else if pkt[9] == TCP {
      out := Reset4(pkt);
    } else if HeadLength(pkt) < 20 || |pkt| < HeadLength(pkt) + 8 || pkt[9] == ICMP {
      out := [];
    } else {
      out := PortUnreachable4(pkt);
    }
  }

  // ------------------------------------------------- told from the raw bytes

  /** A TCP segment from `h` on, with its whole header there and no RST. */
  predicate TcpAt(pkt: Bytes, h: nat) {
    h + 20 <= |pkt| && 5 <= pkt[h + 12] / 16 && h + pkt[h + 12] / 16 * 4 <= |pkt| && pkt[h + 13] / 4 % 2 == 0
  }

  /** Which packets are turned away, byte by byte. */
  lemma RefusedExactly(pkt: Bytes)
    ensures Resettable4(pkt) <==>
      |pkt| >= 40 && 0x45 <= pkt[0] <= 0x4F && pkt[9] == 6 && TcpAt(pkt, (pkt[0] - 0x40) * 4)
    ensures Unreachable4(pkt) <==>
      |pkt| >= 28 && 0x45 <= pkt[0] <= 0x4F && pkt[9] != 6 && pkt[9] != 1 && |pkt| >= (pkt[0] - 0x40) * 4 + 8
    ensures Resettable6(pkt) <==> |pkt| >= 60 && 0x60 <= pkt[0] <= 0x6F && pkt[6] == 6 && TcpAt(pkt, 40)
    ensures Unreachable6(pkt) <==> |pkt| >= 40 && 0x60 <= pkt[0] <= 0x6F && pkt[6] != 6 && pkt[6] != 58
  {
  }

  /** What a reset says: ports exchanged, everything received acknowledged, SYN or FIN
    counting for one, and its own number where the segment expected it. */
  lemma ResetSays(t: Bytes, seg: Bytes)
    requires Answerable(seg) && ResetOf(t, seg)
    ensures |seg| >= 20 && |t| == 20 && U16(t, 0) == U16(seg, 2) && U16(t, 2) == U16(seg, 0)
    ensures seg[13] / 16 % 2 == 1 ==> U32(t, 4) == U32(seg, 8)
    ensures seg[13] / 16 % 2 == 0 ==> U32(t, 4) == 0
    ensures (U32(t, 8) - U32(seg, 4) - (|seg| - 4 * (seg[12] / 16)) - if seg[13] % 4 == 0 then 0 else 1) % 0x1_0000_0000 == 0
    ensures t[12] == 0x50 && t[13] == 0x14
  {
    assert U16(t[0..2], 0) == U16(t, 0) && U16(t[2..4], 0) == U16(t, 2);
    assert U16(seg[0..2], 0) == U16(seg, 0) && U16(seg[2..4], 0) == U16(seg, 2);
    Wraps(U32(seg, 4) + Taken(seg));
  }

  lemma Wraps(x: nat)
    ensures (x % 0x1_0000_0000 - x) % 0x1_0000_0000 == 0
  {
  }

  /** The bytes of a refusal over IPv4: lifetime 64, addresses exchanged, and either a reset or
    port unreachable with as much of the packet as fits. */
  lemma RefusalBytes4(out: Bytes, pkt: Bytes)
    requires (Resettable4(pkt) && IsReset4(out, pkt)) || (Unreachable4(pkt) && IsUnreachable4(out, pkt))
    ensures |pkt| >= 28 && |out| >= 28
    ensures out[0] == 0x45 && out[8] == 64 && U16(out, 2) == |out| && U16(out, 6) == 0
    ensures out[12..16] == pkt[16..20] && out[16..20] == pkt[12..16]
    ensures pkt[9] == 6 ==> out[9] == 6 && |out| == 40
    ensures pkt[9] != 6 ==> out[9] == 1 && out[20] == 3 && out[21] == 3 && |out| == 28 + (if |pkt| < 548 then |pkt| else 548)
    ensures pkt[9] != 6 ==> out[28..] == pkt[..|out| - 28]
  {
    var h, rest := out[..20], out[20..];
    assert out[0] == h[0] && out[8] == h[8] && out[9] == h[9] && U16(out, 2) == U16(h, 2) && U16(out, 6) == U16(h, 6);
    assert out[12..16] == h[12..16] && out[16..20] == h[16..20];
    if pkt[9] != 6 {
      assert out[20] == rest[0] && out[21] == rest[1] && out[28..] == rest[8..];
    }
  }

  /** The same over IPv6: hop limit 64, and address unreachable. */
  lemma RefusalBytes6(out: Bytes, pkt: Bytes)
    requires (Resettable6(pkt) && IsReset6(out, pkt)) || (Unreachable6(pkt) && IsUnreachable6(out, pkt))
    ensures |pkt| >= 40 && |out| >= 48
    ensures out[0] == 0x60 && out[7] == 64 && U16(out, 4) == |out| - 40
    ensures out[8..24] == pkt[24..40] && out[24..40] == pkt[8..24]
    ensures pkt[6] == 6 ==> out[6] == 6 && |out| == 60
    ensures pkt[6] != 6 ==> out[6] == 58 && out[40] == 1 && out[41] == 4 && |out| == 48 + (if |pkt| < 1232 then |pkt| else 1232)
    ensures pkt[6] != 6 ==> out[48..] == pkt[..|out| - 48]
  {
    var h, rest := out[..40], out[40..];
    assert out[0] == h[0] && out[6] == h[6] && out[7] == h[7] && U16(out, 4) == U16(h, 4);
    assert out[8..24] == h[8..24] && out[24..40] == h[24..40];
    if pkt[6] != 6 {
      assert out[40] == rest[0] && out[41] == rest[1] && out[48..] == rest[8..];
    }
  }

  /** No refusal is itself refused, so two nodes cannot go on refusing each other. */
  lemma NeverAnswersItself(out: Bytes, pkt: Bytes)
    requires (Resettable4(pkt) && IsReset4(out, pkt)) || (Unreachable4(pkt) && IsUnreachable4(out, pkt))
          || (Resettable6(pkt) && IsReset6(out, pkt)) || (Unreachable6(pkt) && IsUnreachable6(out, pkt))
    ensures !Resettable4(out) && !Unreachable4(out) && !Resettable6(out) && !Unreachable6(out)
  {
    if |pkt| >= 1 && pkt[0] / 16 == 4 {
      assert out[0] == out[..20][0] && out[9] == out[..20][9];
      if Resettable4(pkt) { assert out[20..][13] == 0x14; }
    } else {
      assert out[0] == out[..40][0] && out[6] == out[..40][6];
      if Resettable6(pkt) { assert out[40..][13] == 0x14; }
    }
  }

  /** What the checksums of TCP and ICMPv6 cover besides the message: both addresses, the
    protocol and the length (section 9.1 of RFC 9293, section 8.1 of RFC 8200). */
  lemma PseudoSums(src: Bytes, dst: Bytes, proto: byte, msg: Bytes)
    requires |msg| < 0x1_0000
    ensures |src| == |dst| == 4 ==>
      SumWords(Pseudo4(src, dst, msg)) == SumWords(src) + SumWords(dst) + 6 + |msg| + SumWords(msg)
    ensures |src| == |dst| == 16 ==>
      SumWords(Pseudo6(src, dst, proto, msg)) == SumWords(src) + SumWords(dst) + |msg| + proto + SumWords(msg)
  {
    if |src| == |dst| == 4 { Pseudo4Sums(src, dst, msg); }
    if |src| == |dst| == 16 { Pseudo6Sums(src, dst, proto, msg); }
  }

  lemma FourSum(a: Bytes, b: Bytes, c: Bytes, d: Bytes, e: Bytes)
    requires |a| % 2 == |b| % 2 == |c| % 2 == |d| % 2 == 0
    ensures SumWords(a + b + c + d + e) == SumWords(a) + SumWords(b) + SumWords(c) + SumWords(d) + SumWords(e)
  {
    var ab := a + b;
    var abc := ab + c;
    SumParts(a, b);
    SumParts(ab, c);
    SumParts(abc, d);
    SumParts(abc + d, e);
  }

  lemma Pseudo4Sums(src: Bytes, dst: Bytes, msg: Bytes)
    requires |msg| < 0x1_0000 && |src| == |dst| == 4
    ensures SumWords(Pseudo4(src, dst, msg)) == SumWords(src) + SumWords(dst) + 6 + |msg| + SumWords(msg)
  {
    var length := Be16(|msg|);
    SumOfWord(0, 6);
    SumOfWord(length[0], length[1]);
    assert [length[0], length[1]] == length;
    FourSum(src, dst, [0, 6], length, msg);
  }

  lemma Pseudo6Sums(src: Bytes, dst: Bytes, proto: byte, msg: Bytes)
    requires |msg| < 0x1_0000 && |src| == |dst| == 16
    ensures SumWords(Pseudo6(src, dst, proto, msg)) == SumWords(src) + SumWords(dst) + |msg| + proto + SumWords(msg)
  {
    LengthSums(|msg|);
    ProtoSums(proto);
    FourSum(src, dst, Be32(|msg|), [0, 0, 0, proto], msg);
  }

  lemma LengthSums(n: nat)
    requires n < 0x1_0000
    ensures SumWords(Be32(n)) == n
  {
    var b := Be32(n);
    assert b == [b[0], b[1]] + [b[2], b[3]];
    SumParts([b[0], b[1]], [b[2], b[3]]);
    SumOfWord(b[0], b[1]);
    SumOfWord(b[2], b[3]);
  }

  lemma ProtoSums(proto: byte)
    ensures SumWords([0, 0, 0, proto]) == proto
  {
    assert [0, 0, 0, proto] == [0, 0] + [0, proto];
    SumParts([0, 0], [0, proto]);
    SumOfWord(0, 0);
    SumOfWord(0, proto);
  }
}
