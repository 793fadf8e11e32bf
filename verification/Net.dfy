/** IP addresses and prefixes as net/netip gives them: a family and a value of 32 or
  128 bits.  A prefix keeps the address it was written with, which need not be masked. */
module Net {

  datatype Family = V4 | V6

  function Width(f: Family): nat { if f == V4 then 32 else 128 }

  function Pow2(n: nat): (r: nat)
    ensures r > 0
  {
    if n == 0 then 1 else 2 * Pow2(n - 1)
  }

  lemma {:induction false} Pow2Add(a: nat, b: nat)
    ensures Pow2(a + b) == Pow2(a) * Pow2(b)
  {
    if a > 0 {
      Pow2Add(a - 1, b);
      assert Pow2(a + b) == 2 * Pow2(a - 1 + b);
    }
  }

  /** The largest multiple of `s` not above `x`. */
  function Floor(x: nat, s: nat): (r: nat)
    requires s > 0
    ensures r <= x < r + s
  {
    if x < s then 0 else s + Floor(x - s, s)
  }

  lemma {:induction false} FloorSame(x: nat, y: nat, s: nat)
    requires s > 0 && Floor(y, s) <= x < Floor(y, s) + s
    ensures Floor(x, s) == Floor(y, s)
  {
    if y >= s { FloorSame(x - s, y - s, s); }
  }

  lemma {:induction false} FloorIs(x: nat, s: nat)
    requires s > 0
    ensures Floor(x, s) == x / s * s
  {
    if x < s {
      Quotient(x, 0, s);
    } else {
      FloorIs(x - s, s);
      var q := (x - s) / s;
      Times(q, q, s);
      Quotient(x, q + 1, s);
    }
  }

  lemma Multiple(x: nat, s: nat) returns (q: nat)
    requires s > 0
    ensures Floor(x, s) == q * s
  {
    FloorIs(x, s);
    q := x / s;
  }

  lemma Divided(x: nat, s: nat)
    requires s > 0
    ensures 0 <= x / s * s <= x < x / s * s + s
  {
    var q := x / s;
    assert x == q * s + x % s;
    Times(0, q, s);
  }

  lemma Quotient(v: nat, q: nat, s: nat)
    requires s > 0 && q * s <= v < q * s + s
    ensures v / s == q
  {
    Divided(v, s);
    var r := v / s;
    if r < q {
      Times(r + 1, q, s);
      Times(r, r, s);
    } else if r > q {
      Times(q + 1, r, s);
      Times(q, q, s);
    }
  }

  lemma Times(a: nat, b: nat, s: nat)
    requires a <= b
    ensures a * s <= b * s
    ensures (a + 1) * s == a * s + s
  {
    assert b * s == a * s + (b - a) * s;
  }

  datatype Addr = Addr(fam: Family, val: nat)

  datatype Prefix = Prefix(fam: Family, val: nat, bits: nat) {
    predicate Valid() {
      bits <= Width(fam) && val < Pow2(Width(fam))
    }

    function Size(): (r: nat)
      requires Valid()
      ensures r > 0
    {
      Pow2(Width(fam) - bits)
    }

    /** The top `bits` bits agree. */
    predicate Contains(a: Addr)
      requires Valid()
    {
      a.fam == fam && Floor(a.val, Size()) == First()
    }

    function First(): (r: nat)
      requires Valid()
    {
      Floor(val, Size())
    }

    function Last(): (r: nat)
      requires Valid()
    {
      First() + Size() - 1
    }
  }

  /** Containment is the interval from the masked address to the top address. */
  lemma ContainsIsRange(p: Prefix, a: Addr)
    requires p.Valid()
    ensures p.Contains(a) <==> a.fam == p.fam && p.First() <= a.val <= p.Last()
    ensures p.First() <= p.val <= p.Last()
  {
    if a.fam == p.fam && p.First() <= a.val <= p.Last() { FloorSame(a.val, p.val, p.Size()); }
  }
}
