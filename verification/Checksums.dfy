/** The Internet checksum of internal/ippkt/ippkt.go and what makes it verify:
  RFC 1071 sums the 16-bit words in one's complement and stores the complement. */
module Checksums {
  import opened Bytes

  const U32_SPAN := 0x1_0000_0000

  /** The plain sum of the big-endian words, an odd last byte taken as the high half. */
  function SumWords(b: Bytes): nat {
    if |b| == 0 then 0
    else if |b| == 1 then b[0] as int * 256
    else U16(b, 0) + SumWords(b[2..])
  }

  function Fold(sum: nat): (r: nat)
    ensures r <= 0xFFFF
    decreases sum
  {
    if sum <= 0xFFFF then sum else Fold(sum % 0x1_0000 + sum / 0x1_0000)
  }

  /** The checksum of a buffer, with the 32-bit accumulator of the code. */
  function Sum16(b: Bytes): (r: nat)
    ensures r <= 0xFFFF
  {
    0xFFFF - Fold(SumWords(b) % U32_SPAN)
  }

  lemma ModAdd(x: nat, w: nat)
    ensures (x % U32_SPAN + w) % U32_SPAN == (x + w) % U32_SPAN
  {
    var q := x / U32_SPAN;
    assert x == U32_SPAN * q + x % U32_SPAN;
  }

  lemma SumStep(b: Bytes, i: nat)
    requires i + 1 < |b|
    ensures SumWords(b[i..]) == U16(b, i) + SumWords(b[i + 2..])
  {
    assert b[i..][2..] == b[i + 2..];
  }

  /** The accumulator after some words: the exact sum so far, cut to 32 bits. */
  ghost predicate Summed(b: Bytes, i: nat, sum: nat)
    requires i <= |b|
  {
    SumWords(b[i..]) <= SumWords(b) && sum == (SumWords(b) - SumWords(b[i..])) % U32_SPAN
  }

  lemma SumOne(b: Bytes, i: nat, sum: nat)
    requires i + 1 < |b| && Summed(b, i, sum)
    ensures Summed(b, i + 2, (sum + U16(b, i)) % U32_SPAN)
  {
    SumStep(b, i);
    ModAdd(SumWords(b) - SumWords(b[i..]), U16(b, i));
  }

  lemma SumLast(b: Bytes, i: nat, sum: nat)
    requires i + 1 == |b| && Summed(b, i, sum)
    ensures (sum + b[i] as int * 256) % U32_SPAN == SumWords(b) % U32_SPAN
  {
    ModAdd(SumWords(b) - SumWords(b[i..]), b[i] as int * 256);
  }

  lemma SumEnds(b: Bytes, sum: nat)
    ensures Summed(b, 0, 0)
    ensures Summed(b, |b|, sum) ==> sum == SumWords(b) % U32_SPAN
  {
    assert b[0..] == b && b[|b|..] == [];
  }

  method Checksum(b: Bytes) returns (r: nat)
    ensures r == Sum16(b)
  {
    var sum: nat := 0;
    var i: nat := 0;
    SumEnds(b, 0);
    while i + 1 < |b|
      invariant i <= |b| && i % 2 == 0 && Summed(b, i, sum)
    {
      SumOne(b, i, sum);
      sum := (sum + U16(b, i)) % U32_SPAN;
      i := i + 2;
    }
    if |b| % 2 == 1 {
      SumLast(b, i, sum);
      sum := (sum + b[|b| - 1] as int * 256) % U32_SPAN;
    }
    SumEnds(b, sum);
    assert sum == SumWords(b) % U32_SPAN;
    sum := FoldLoop(sum);
    return 0xFFFF - sum;
  }

  method FoldLoop(sum: nat) returns (r: nat)
    ensures r == Fold(sum)
  {
    r := sum;
    while r > 0xFFFF
      invariant Fold(r) == Fold(sum)
    {
      r := r % 0x1_0000 + r / 0x1_0000;
    }
  }

  lemma {:induction false} SumBound(b: Bytes)
    ensures SumWords(b) <= 0xFFFF * ((|b| + 1) / 2)
  {
    if |b| > 1 { SumBound(b[2..]); }
  }

  /** Folding takes whole multiples of 65535 off a sum, and never reaches zero from above it. */
  lemma {:induction false} FoldTakesOff(x: nat) returns (q: nat)
    ensures x == 0xFFFF * q + Fold(x)
    ensures Fold(x) == 0 <==> x == 0
    decreases x
  {
    if x <= 0xFFFF {
      q := 0;
    } else {
      var h, l := x / 0x1_0000, x % 0x1_0000;
      q := FoldTakesOff(l + h);
      q := q + h;
    }
  }

  lemma AccumulatorIsExact(b: Bytes)
    requires |b| <= 0x2_0000
    ensures SumWords(b) < U32_SPAN && Sum16(b) == 0xFFFF - Fold(SumWords(b))
  {
    SumBound(b);
    Halves(|b|);
    Small(SumWords(b));
  }

  lemma Halves(n: nat)
    requires n <= 0x2_0000
    ensures 0xFFFF * ((n + 1) / 2) < U32_SPAN
  {
  }

  lemma Small(x: nat)
    requires x < U32_SPAN
    ensures x % U32_SPAN == x
  {
  }

  /** A nonzero sum folds to all ones exactly when it is a multiple of 65535. */
  lemma AllOnes(x: nat)
    ensures Fold(x) == 0xFFFF <==> x > 0 && x % 0xFFFF == 0
  {
    var q := FoldTakesOff(x);
    Remainder(q, Fold(x));
  }

  lemma Remainder(q: nat, f: nat)
    requires f <= 0xFFFF
    ensures (0xFFFF * q + f) % 0xFFFF == f % 0xFFFF
  {
    var x := 0xFFFF * q + f;
    var k, r := x / 0xFFFF, x % 0xFFFF;
    assert x == 0xFFFF * k + r;
    if f < 0xFFFF { assert k == q; } else { assert k == q + 1; }
  }

  /** What a sum must be for the buffer to verify. */
  lemma VerifiesIff(b: Bytes)
    requires |b| <= 0x2_0000
    ensures Sum16(b) == 0 <==> SumWords(b) > 0 && SumWords(b) % 0xFFFF == 0
  {
    AccumulatorIsExact(b);
    AllOnes(SumWords(b));
  }

  /** A word written over a zero field at an even offset adds itself to the sum. */
  lemma {:induction false} SumPut(b: Bytes, p: nat, c: nat)
    requires p % 2 == 0 && p + 2 <= |b| && b[p] == 0 && b[p + 1] == 0 && c <= 0xFFFF
    ensures SumWords(Put(b, p, Be16(c))) == SumWords(b) + c
    decreases p
  {
    var r := Put(b, p, Be16(c));
    if p == 0 {
      assert r[2..] == b[2..];
    } else {
      SumPut(b[2..], p - 2, c);
      assert r[2..] == Put(b[2..], p - 2, Be16(c));
    }
  }

  lemma OnlyAllOnes(q: nat, p: nat, f: nat)
    requires 0xFFFF * q + 0xFFFF == 0xFFFF * p + f && 0 < f <= 0xFFFF
    ensures f == 0xFFFF
  {
  }

  lemma ComplementCloses(x: nat)
    ensures Fold(x + (0xFFFF - Fold(x))) == 0xFFFF
  {
    var q := FoldTakesOff(x);
    var y := x + (0xFFFF - Fold(x));
    var p := FoldTakesOff(y);
    OnlyAllOnes(q, p, Fold(y));
  }

  /** Storing the checksum in a zeroed even-aligned field makes the buffer verify: its own
    checksum is then zero.  131072 bytes is where the 32-bit accumulator stops being exact. */
  lemma Closes(b: Bytes, p: nat)
    requires p % 2 == 0 && p + 2 <= |b| <= 0x2_0000 && b[p] == 0 && b[p + 1] == 0
    ensures Sum16(Put(b, p, Be16(Sum16(b)))) == 0
  {
    SumPut(b, p, Sum16(b));
    AccumulatorIsExact(b);
    AccumulatorIsExact(Put(b, p, Be16(Sum16(b))));
    ComplementCloses(SumWords(b));
  }

  /** When one aligned word of a verified buffer changes, the check fails to notice exactly
    when the change is between the two forms of zero and something else is not zero. */
  lemma OneWordErrorShows(b: Bytes, p: nat, x: nat, y: nat)
    requires p % 2 == 0 && p + 2 <= |b| <= 0x2_0000 && b[p] == 0 && b[p + 1] == 0
    requires x <= 0xFFFF && y <= 0xFFFF && x != y
    requires Sum16(Put(b, p, Be16(x))) == 0
    ensures Sum16(Put(b, p, Be16(y))) == 0 <==> TwoZeros(x, y) && SumWords(b) + y > 0
  {
    PutVerifies(b, p, x);
    PutVerifies(b, p, y);
    SameResidue(SumWords(b), x, y);
  }

  lemma PutVerifies(b: Bytes, p: nat, c: nat)
    requires p % 2 == 0 && p + 2 <= |b| <= 0x2_0000 && b[p] == 0 && b[p + 1] == 0 && c <= 0xFFFF
    ensures Sum16(Put(b, p, Be16(c))) == 0 <==> SumWords(b) + c > 0 && (SumWords(b) + c) % 0xFFFF == 0
  {
    VerifiesIff(Put(b, p, Be16(c)));
    SumPut(b, p, c);
  }

  /** The two words that stand for zero. */
  predicate TwoZeros(x: nat, y: nat) { (x == 0 && y == 0xFFFF) || (x == 0xFFFF && y == 0) }

  lemma SameResidue(s: nat, x: nat, y: nat)
    requires x <= 0xFFFF && y <= 0xFFFF && x != y && (s + x) % 0xFFFF == 0
    ensures (s + y) % 0xFFFF == 0 <==> TwoZeros(x, y)
  {
    var q, q' := (s + x) / 0xFFFF, (s + y) / 0xFFFF;
    assert s + x == 0xFFFF * q;
    assert s + y == 0xFFFF * q' + (s + y) % 0xFFFF;
  }

  // ---------------------------------------------------------- what is summed

  /** The sum by its parts: words in network order, an odd last byte as if a zero followed. */
  lemma {:induction false} SumParts(a: Bytes, b: Bytes)
    requires |a| % 2 == 0
    ensures SumWords(a + b) == SumWords(a) + SumWords(b)
    decreases |a|
  {
    if a == [] {
      assert a + b == b;
    } else {
      SumParts(a[2..], b);
      assert (a + b)[2..] == a[2..] + b;
      assert U16(a + b, 0) == U16(a, 0);
    }
  }

  lemma SumOfWord(hi: byte, lo: byte)
    ensures SumWords([]) == 0 && SumWords([hi]) == 256 * hi && SumWords([hi, lo]) == 256 * hi + lo
  {
    assert [hi, lo][2..] == [];
  }

  lemma {:induction false} OddIsPadded(b: Bytes)
    requires |b| % 2 == 1
    ensures SumWords(b + [0]) == SumWords(b) && Sum16(b + [0]) == Sum16(b)
  {
    var front, x := b[..|b| - 1], b[|b| - 1];
    SumParts(front, [x]);
    SumParts(front, [x, 0]);
    SumOfWord(x, 0);
    assert b == front + [x] && b + [0] == front + [x, 0];
  }

  /** The example of section 3 of RFC 1071: the words 0001, f203, f4f5 and f6f7. */
  lemma Rfc1071Example()
    ensures Sum16([0x00, 0x01, 0xF2, 0x03, 0xF4, 0xF5, 0xF6, 0xF7]) == 0x220D
  {
    SumOfWord(0x00, 0x01);
    SumOfWord(0xF2, 0x03);
    SumOfWord(0xF4, 0xF5);
    SumOfWord(0xF6, 0xF7);
    SumParts([0x00, 0x01], [0xF2, 0x03]);
    SumParts([0xF4, 0xF5], [0xF6, 0xF7]);
    SumParts([0x00, 0x01, 0xF2, 0x03], [0xF4, 0xF5, 0xF6, 0xF7]);
    assert [0x00, 0x01] + [0xF2, 0x03] == [0x00, 0x01, 0xF2, 0x03];
    assert [0xF4, 0xF5] + [0xF6, 0xF7] == [0xF4, 0xF5, 0xF6, 0xF7];
    assert [0x00, 0x01, 0xF2, 0x03] + [0xF4, 0xF5, 0xF6, 0xF7] == [0x00, 0x01, 0xF2, 0x03, 0xF4, 0xF5, 0xF6, 0xF7];
    assert SumWords([0x00, 0x01, 0xF2, 0x03, 0xF4, 0xF5, 0xF6, 0xF7]) == 0x2_DDF0;
    assert Fold(0x2_DDF0) == 0xDDF2;
  }
}
