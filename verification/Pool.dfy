/** The address pool of internal/qsrv/pool.go: reference-counted leases handed out by a
  probing cursor, with the last /24 of a wide IPv4 pool kept for stream sessions. */
module Pool {
  import opened Options
  import opened Net

  type Seat = nat

  const PROBES := 0x10_0000

  datatype Lease = Lease(seat: Seat, held: nat)

  /** `next` is the cursor; a value past the family's top stands for Go's invalid Addr. */
  datatype Book = Book(next: nat, taken: map<Addr, Lease>, mine: map<Seat, Addr>)

  function StreamTail(base: Prefix): (r: Option<Prefix>)
    requires base.Valid()
  {
    if base.fam != V4 || base.bits > 24 then None
    else Some(Prefix(V4, base.Last() / 256 * 256, 24))
  }

  /** `stream`: the address a stream session shows, from the tail or a fixed 10.7.255.254. */
  function StreamAddr(base: Prefix, seat: Seat): Addr
    requires base.Valid()
  {
    match StreamTail(base)
    case None => Addr(V4, 0x0A07_FFFE)
    case Some(tail) => Addr(V4, tail.val + seat % 254 + 1)
  }

  predicate InTail(base: Prefix, a: Addr)
    requires base.Valid()
  {
    var tail := StreamTail(base);
    tail.Some? && a.fam == V4 && a.val / 256 == tail.value.val / 256
  }

  /** What `take` may ever hand out: above the written address, inside the prefix, off the tail. */
  predicate Leasable(base: Prefix, a: Addr)
    requires base.Valid()
  {
    a.fam == base.fam && base.val < a.val <= base.Last() && !InTail(base, a)
  }

  ghost predicate BookInv(base: Prefix, b: Book)
    requires base.Valid()
  {
    && base.val < b.next <= base.Last() + 1
    && (forall a :: a in b.taken ==> Leasable(base, a) && b.taken[a].held >= 1)
    && (forall s :: s in b.mine ==> Leasable(base, b.mine[s]))
  }

  function Hold(b: Book, a: Addr, seat: Seat): Book {
    b.(taken := b.taken[a := Lease(seat, if a in b.taken then b.taken[a].held + 1 else 1)])
  }

  /** The seat has a former address and nobody else sits on it. */
  predicate OwnFree(base: Prefix, b: Book, seat: Seat)
    requires base.Valid()
  {
    seat in b.mine && !InTail(base, b.mine[seat]) &&
    (b.mine[seat] in b.taken ==> b.taken[b.mine[seat]].seat == seat)
  }

  predicate Free(base: Prefix, b: Book, v: nat)
    requires base.Valid()
  {
    var a := Addr(base.fam, v);
    base.Contains(a) && !InTail(base, a) && a !in b.taken
  }

  /** The cursor before probe `i` of a `take`. */
  function Cursor(base: Prefix, next: nat, i: nat): nat
    requires base.Valid()
  {
    if i == 0 then next
    else
      var at := Cursor(base, next, i - 1);
      if base.Contains(Addr(base.fam, at)) then at + 1 else base.val + 1
  }

  /** Granting `a`, the address under the cursor, to `seat` by a lease that did not exist. */
  function Fresh(b: Book, a: Addr, seat: Seat): Book {
    Book(a.val + 1, b.taken[a := Lease(seat, 1)], if seat != 0 then b.mine[seat := a] else b.mine)
  }

  function Given(b: Book, a: Addr): Book {
    if a !in b.taken then b
    else if b.taken[a].held <= 1 then b.(taken := b.taken - {a})
    else b.(taken := b.taken[a := b.taken[a].(held := b.taken[a].held - 1)])
  }

  /** Probe `i` of a `take` is the first that finds a free address, and finds `a`. */
  ghost predicate Meets(base: Prefix, b: Book, i: nat, a: Addr)
    requires base.Valid()
  {
    && i < PROBES && a == Addr(base.fam, Cursor(base, b.next, i)) && Free(base, b, a.val)
    && forall j: nat :: j < i ==> !Free(base, b, Cursor(base, b.next, j))
  }

  /** A successful `take`: the former address if it can be had, else the first free one. */
  ghost predicate Took(base: Prefix, b: Book, seat: Seat, a: Addr)
    requires base.Valid()
  {
    if OwnFree(base, b, seat) then a == b.mine[seat] else exists i: nat :: Meets(base, b, i, a)
  }

  function AfterTake(base: Prefix, b: Book, seat: Seat, a: Addr): Book
    requires base.Valid()
  {
    if OwnFree(base, b, seat) then Hold(b, a, seat) else Fresh(b, a, seat)
  }

  /** No probe of a `take` finds a free address. */
  ghost predicate NoneFree(base: Prefix, b: Book)
    requires base.Valid()
  {
    forall j: nat :: j < PROBES ==> !Free(base, b, Cursor(base, b.next, j))
  }

  function AfterRefusal(base: Prefix, b: Book): Book
    requires base.Valid()
  {
    b.(next := Cursor(base, b.next, PROBES))
  }

  lemma {:induction false} CursorInRange(base: Prefix, next: nat, i: nat)
    requires base.Valid() && base.val < next <= base.Last() + 1
    ensures base.val < Cursor(base, next, i) <= base.Last() + 1
  {
    ContainsIsRange(base, Addr(base.fam, base.val));
    if i > 0 {
      CursorInRange(base, next, i - 1);
      ContainsIsRange(base, Addr(base.fam, Cursor(base, next, i - 1)));
    }
  }

  /** A granted address may be leased, and is the seat's own or nobody's. */
  lemma TookLeases(base: Prefix, b: Book, seat: Seat, a: Addr)
    requires base.Valid() && BookInv(base, b) && Took(base, b, seat, a)
    ensures Leasable(base, a) && (a in b.taken ==> b.taken[a].seat == seat)
    ensures !OwnFree(base, b, seat) ==> a !in b.taken
    ensures BookInv(base, AfterTake(base, b, seat, a))
  {
    if !OwnFree(base, b, seat) {
      var i: nat :| Meets(base, b, i, a);
      CursorInRange(base, b.next, i);
      ContainsIsRange(base, a);
    }
  }

  lemma RefusalKeepsBook(base: Prefix, b: Book)
    requires base.Valid() && BookInv(base, b)
    ensures BookInv(base, AfterRefusal(base, b))
  {
    CursorInRange(base, b.next, PROBES);
  }

  class AddressPool {
    const base: Prefix
    var next: nat
    var taken: map<Addr, Lease>
    var mine: map<Seat, Addr>

    ghost function View(): Book
      reads this
    {
      Book(next, taken, mine)
    }

    ghost predicate Valid()
      reads this
    {
      base.Valid() && BookInv(base, View())
    }

    constructor (prefix: Prefix)
      requires prefix.Valid()
      ensures Valid() && base == prefix
      ensures View() == Book(prefix.val + 1, map[], map[])
    {
      ContainsIsRange(prefix, Addr(prefix.fam, prefix.val));
      base, next, taken, mine := prefix, prefix.val + 1, map[], map[];
    }

    method Own(seat: Seat) returns (got: Option<Addr>)
      requires Valid()
      modifies this
      ensures Valid()
      ensures got.Some? <==> OwnFree(base, old(View()), seat)
      ensures got == None ==> View() == old(View())
      ensures got.Some? ==> got.value == old(mine)[seat] && View() == Hold(old(View()), got.value, seat)
    {
      if seat !in mine { return None; }
      var was := mine[seat];
      if InTail(base, was) { return None; }
      if was !in taken {
        taken := taken[was := Lease(seat, 1)];
      } else if taken[was].seat == seat {
        taken := taken[was := taken[was].(held := taken[was].held + 1)];
      } else {
        return None;
      }
      return Some(was);
    }

    /** `take`: the former address if it can be had, else the first free one the cursor meets. */
    method Take(seat: Seat) returns (got: Option<Addr>)
      requires Valid()
      modifies this
      ensures Valid()
      ensures got.Some? ==> Took(base, old(View()), seat, got.value)
      ensures got.Some? ==> View() == AfterTake(base, old(View()), seat, got.value)
      ensures got == None ==> !OwnFree(base, old(View()), seat) && NoneFree(base, old(View()))
      ensures got == None ==> View() == AfterRefusal(base, old(View()))
    {
      got := Own(seat);
      if got.Some? { return; }
      ghost var b := View();
      for i := 0 to PROBES
        invariant taken == b.taken && mine == b.mine && BookInv(base, b)
        invariant next == Cursor(base, b.next, i) && base.val < next <= base.Last() + 1
        invariant forall j: nat :: j < i ==> !Free(base, b, Cursor(base, b.next, j))
      {
        var addr := Addr(base.fam, next);
        ContainsIsRange(base, addr);
        ContainsIsRange(base, Addr(base.fam, base.val));
        next := next + 1;
        if !base.Contains(addr) {
          next := base.val + 1;
          continue;
        }
        if InTail(base, addr) { continue; }
        if addr in taken { continue; }
        taken := taken[addr := Lease(seat, 1)];
        if seat != 0 { mine := mine[seat := addr]; }
        assert Meets(base, b, i, addr);
        return Some(addr);
      }
      return None;
    }

    method Give(a: Option<Addr>)
      requires Valid()
      modifies this
      ensures Valid()
      ensures View() == if a.Some? then Given(old(View()), a.value) else old(View())
    {
      if a.Some? && a.value in taken {
        var held := taken[a.value].held - 1;
        if held <= 0 {
          taken := taken - {a.value};
        } else {
          taken := taken[a.value := taken[a.value].(held := held)];
        }
      }
    }
  }

  // ---------------------------------------------------------- the cursor

  lemma {:induction false} CursorClimbs(base: Prefix, next: nat, i: nat)
    requires base.Valid() && base.val < next <= base.Last() + 1
    requires next + i <= base.Last() + 1
    ensures Cursor(base, next, i) == next + i
  {
    if i > 0 {
      CursorClimbs(base, next, i - 1);
      ContainsIsRange(base, Addr(base.fam, next + i - 1));
    }
  }

  lemma {:induction false} CursorWraps(base: Prefix, next: nat, j: nat)
    requires base.Valid() && base.val < next <= base.Last() + 1
    requires base.val + 1 + j <= base.Last() + 1
    ensures Cursor(base, next, base.Last() + 2 - next + j) == base.val + 1 + j
  {
    var turn := base.Last() + 1 - next;
    if j == 0 {
      CursorClimbs(base, next, turn);
      ContainsIsRange(base, Addr(base.fam, base.Last() + 1));
    } else {
      CursorWraps(base, next, j - 1);
      ContainsIsRange(base, Addr(base.fam, base.val + j));
      assert base.Last() + 2 - next + j - 1 + 1 == base.Last() + 2 - next + j;
    }
  }

  /** One turn of the cursor meets every leasable address, wherever it starts. */
  lemma CursorMeets(base: Prefix, next: nat, v: nat) returns (i: nat)
    requires base.Valid() && base.val < next <= base.Last() + 1
    requires base.val < v <= base.Last()
    ensures i <= base.Last() - base.val && Cursor(base, next, i) == v
  {
    if v >= next {
      i := v - next;
      CursorClimbs(base, next, i);
    } else {
      i := base.Last() + 2 - next + (v - base.val - 1);
      CursorWraps(base, next, v - base.val - 1);
    }
  }

  /** A failing `take` on a pool of at most 2^20 addresses found every leasable one busy. */
  lemma FullMeansBusy(base: Prefix, b: Book, a: Addr)
    requires base.Valid() && BookInv(base, b)
    requires base.Last() - base.val < PROBES
    requires NoneFree(base, b) && Leasable(base, a)
    ensures a in b.taken
  {
    var i := CursorMeets(base, b.next, a.val);
    ContainsIsRange(base, a);
    ContainsIsRange(base, Addr(base.fam, base.val));
    assert !Free(base, b, Cursor(base, b.next, i));
  }

  // ---------------------------------------------------------------- runs

  datatype Deal = Grant(seat: Seat, a: Addr) | Refuse(seat: Seat) | Return(a: Addr)

  ghost predicate Dealt(base: Prefix, b: Book, d: Deal, after: Book)
    requires base.Valid()
  {
    match d
    case Grant(seat, a) => Took(base, b, seat, a) && after == AfterTake(base, b, seat, a)
    case Refuse(seat) => !OwnFree(base, b, seat) && NoneFree(base, b) && after == AfterRefusal(base, b)
    case Return(a) => after == Given(b, a)
  }

  /** A run of takes and gives on a new pool. */
  ghost predicate Run(base: Prefix, books: seq<Book>, deals: seq<Deal>)
    requires base.Valid()
  {
    && |books| == |deals| + 1 && books[0] == Book(base.val + 1, map[], map[])
    && forall i :: 0 <= i < |deals| ==> Dealt(base, books[i], deals[i], books[i + 1])
  }

  lemma RunStep(base: Prefix, books: seq<Book>, deals: seq<Deal>, i: nat)
    requires base.Valid() && Run(base, books, deals) && i < |deals|
    ensures Dealt(base, books[i], deals[i], books[i + 1])
  {
  }

  lemma DealKeepsBook(base: Prefix, b: Book, d: Deal, after: Book)
    requires base.Valid() && BookInv(base, b) && Dealt(base, b, d, after)
    ensures BookInv(base, after)
  {
    match d
    case Grant(seat, a) => TookLeases(base, b, seat, a);
    case Refuse(seat) => RefusalKeepsBook(base, b);
    case Return(a) =>
  }

  lemma {:induction false} RunKeepsBook(base: Prefix, books: seq<Book>, deals: seq<Deal>, i: nat)
    requires base.Valid() && Run(base, books, deals) && i < |books|
    ensures BookInv(base, books[i])
  {
    if i == 0 {
      ContainsIsRange(base, Addr(base.fam, base.val));
    } else {
      RunKeepsBook(base, books, deals, i - 1);
      RunStep(base, books, deals, i - 1);
      DealKeepsBook(base, books[i - 1], deals[i - 1], books[i]);
    }
  }

  lemma RunMore(base: Prefix, books: seq<Book>, deals: seq<Deal>, d: Deal, after: Book)
    requires base.Valid() && Run(base, books, deals) && Dealt(base, books[|deals|], d, after)
    ensures Run(base, books + [after], deals + [d])
  {
    var more, all := books + [after], deals + [d];
    forall i | 0 <= i < |all| ensures Dealt(base, more[i], all[i], more[i + 1]) {
      if i < |deals| { RunStep(base, books, deals, i); }
    }
  }

  /** The first `n` addresses of a new pool granted in turn: each to the seat of its own
    number, or all to seat 0, which has no address of its own. */
  function Filled(base: Prefix, n: nat, named: bool): Book {
    Book(base.val + 1 + n,
         map v | base.val < v <= base.val + n :: Addr(base.fam, v) := Lease(SeatOf(v, named), 1),
         if named then map v | base.val < v <= base.val + n :: v := Addr(base.fam, v) else map[])
  }

  function SeatOf(v: nat, named: bool): Seat { if named then v else 0 }

  lemma FillStep(base: Prefix, n: nat, named: bool)
    requires base.Valid() && Leasable(base, Addr(base.fam, base.val + 1 + n))
    ensures var v, b := base.val + 1 + n, Filled(base, n, named);
      && Took(base, b, SeatOf(v, named), Addr(base.fam, v))
      && AfterTake(base, b, SeatOf(v, named), Addr(base.fam, v)) == Filled(base, n + 1, named)
  {
    var v, b := base.val + 1 + n, Filled(base, n, named);
    ContainsIsRange(base, Addr(base.fam, v));
    assert Meets(base, b, 0, Addr(base.fam, v));
    FilledMore(base, n, named);
  }

  lemma FilledMore(base: Prefix, n: nat, named: bool)
    ensures Filled(base, n + 1, named) == Fresh(Filled(base, n, named), Addr(base.fam, base.val + 1 + n), SeatOf(base.val + 1 + n, named))
  {
  }

  lemma {:induction false} FillRun(base: Prefix, n: nat) returns (books: seq<Book>, deals: seq<Deal>)
    requires base.Valid() && forall v :: base.val < v <= base.val + n ==> Leasable(base, Addr(base.fam, v))
    ensures Run(base, books, deals) && books[|deals|] == Filled(base, n, false)
  {
    if n == 0 {
      books, deals := [Filled(base, 0, false)], [];
    } else {
      var front, before := FillRun(base, n - 1);
      var d, after := Grant(0, Addr(base.fam, base.val + n)), Filled(base, n, false);
      FillStep(base, n - 1, false);
      RunMore(base, front, before, d, after);
      books, deals := front + [after], before + [d];
    }
  }

  /** The top address a large pool leases, under its stream tail. */
  lemma TopLeasable(base: Prefix) returns (top: nat)
    requires base.Valid() && base.Last() - base.val >= PROBES
    ensures base.val + 1 < top <= base.Last() <= top + 256
    ensures forall v: nat :: base.val < v <= base.Last() ==> (Leasable(base, Addr(base.fam, v)) <==> v <= top)
  {
    top := if StreamTail(base).Some? then base.Last() / 256 * 256 - 1 else base.Last();
    forall v: nat | base.val < v <= base.Last() ensures Leasable(base, Addr(base.fam, v)) <==> v <= top {
      if StreamTail(base).Some? { TailIsTop(base.Last(), v); }
    }
  }

  lemma TailIsTop(last: nat, v: nat)
    requires v <= last
    ensures last / 256 * 256 / 256 == last / 256
    ensures v / 256 == last / 256 <==> v >= last / 256 * 256
  {
  }

  /** From any place after the last leasable address the cursor goes straight to the first. */
  lemma CursorComesRound(base: Prefix, b: Book, top: nat)
    requires base.Valid() && base.val + 1 <= top <= base.Last() <= top + 256 && b.next == top + 1
    requires forall v: nat :: base.val < v <= base.Last() ==> (Leasable(base, Addr(base.fam, v)) <==> v <= top)
    requires Addr(base.fam, base.val + 1) !in b.taken
    ensures Meets(base, b, base.Last() - top + 1, Addr(base.fam, base.val + 1))
  {
    CursorWraps(base, b.next, 0);
    ContainsIsRange(base, Addr(base.fam, base.val + 1));
    forall j: nat | j < base.Last() - top + 1 ensures !Free(base, b, Cursor(base, b.next, j)) {
      CursorClimbs(base, b.next, j);
      var a := Addr(base.fam, top + 1 + j);
      ContainsIsRange(base, a);
      if a.val <= base.Last() { assert !Leasable(base, a) && InTail(base, a); }
    }
  }

  /** All leasable addresses but the first are taken, and the cursor is just past it. */
  function AllButFirst(base: Prefix, top: nat): Book
    requires base.val < top
  {
    Book(base.val + 2, Filled(base, top - base.val, false).taken - {Addr(base.fam, base.val + 1)}, map[])
  }

  lemma FirstIsMissed(base: Prefix, top: nat)
    requires base.Valid() && base.Last() - base.val >= PROBES && base.val < top <= base.Last()
    requires forall v: nat :: base.val < v <= base.Last() ==> (Leasable(base, Addr(base.fam, v)) <==> v <= top)
    ensures NoneFree(base, AllButFirst(base, top))
  {
    var b := AllButFirst(base, top);
    forall j: nat | j < PROBES ensures !Free(base, b, Cursor(base, b.next, j)) {
      CursorClimbs(base, b.next, j);
      var a := Addr(base.fam, base.val + 2 + j);
      ContainsIsRange(base, a);
      if a.val <= top {
        assert a in b.taken;
      } else if a.val <= base.Last() {
        assert !Leasable(base, a) && InTail(base, a);
      }
    }
  }

  /** The bound is needed: on any larger pool a run of takes and gives ends in a book that
    refuses although the first address is free. */
  lemma WideMayRefuse(base: Prefix) returns (books: seq<Book>, deals: seq<Deal>)
    requires base.Valid() && base.Last() - base.val >= PROBES
    ensures Run(base, books, deals) && NoneFree(base, books[|deals|])
    ensures Leasable(base, Addr(base.fam, base.val + 1)) && Addr(base.fam, base.val + 1) !in books[|deals|].taken
  {
    var top := TopLeasable(base);
    var first, n := Addr(base.fam, base.val + 1), top - base.val;
    books, deals := FillRun(base, n);
    var full, end := Filled(base, n, false), AllButFirst(base, top);
    var less := Book(top + 1, end.taken, map[]);
    var again := Book(base.val + 2, full.taken, map[]);
    FirstComesBack(base, top, less, again);
    RunMore(base, books, deals, Return(first), less);
    books, deals := books + [less], deals + [Return(first)];
    RunMore(base, books, deals, Grant(0, first), again);
    books, deals := books + [again], deals + [Grant(0, first)];
    RunMore(base, books, deals, Return(first), end);
    books, deals := books + [end], deals + [Return(first)];
    FirstIsMissed(base, top);
  }

  lemma FirstComesBack(base: Prefix, top: nat, less: Book, again: Book)
    requires base.Valid() && base.val + 1 <= top <= base.Last() <= top + 256
    requires forall v: nat :: base.val < v <= base.Last() ==> (Leasable(base, Addr(base.fam, v)) <==> v <= top)
    requires less == Book(top + 1, AllButFirst(base, top).taken, map[])
    requires again == Book(base.val + 2, Filled(base, top - base.val, false).taken, map[])
    ensures var first := Addr(base.fam, base.val + 1);
      && Dealt(base, Filled(base, top - base.val, false), Return(first), less)
      && Dealt(base, less, Grant(0, first), again)
      && Dealt(base, again, Return(first), AllButFirst(base, top))
  {
    CursorComesRound(base, less, top);
  }

  /** A refusal means a full pool on every run, exactly when the pool is no wider than the probes. */
  lemma FullMeansBusyIff(base: Prefix)
    requires base.Valid()
    ensures base.Last() - base.val < PROBES <==>
      forall books: seq<Book>, deals, i, a ::
        Run(base, books, deals) && 0 <= i < |books| && NoneFree(base, books[i]) && Leasable(base, a) ==> a in books[i].taken
  {
    if base.Last() - base.val < PROBES {
      forall books: seq<Book>, deals, i, a |
        Run(base, books, deals) && 0 <= i < |books| && NoneFree(base, books[i]) && Leasable(base, a)
        ensures a in books[i].taken
      {
        RunKeepsBook(base, books, deals, i);
        FullMeansBusy(base, books[i], a);
      }
    } else {
      var books, deals := WideMayRefuse(base);
      assert Run(base, books, deals) && 0 <= |deals| < |books|;
    }
  }

  // ------------------------------------------------------------- the tail

  lemma TailAddress(base: Prefix, seat: Seat)
    requires base.Valid() && StreamTail(base).Some?
    ensures InTail(base, StreamAddr(base, seat))
  {
  }

  lemma BlockEnd(first: nat, size: nat, k: nat, q: nat)
    requires k > 0 && size == 256 * k && first == q * size
    ensures (first + size - 1) % 256 == 255 && first + size >= 256
  {
    var m := q * k + k;
    assert q * (256 * k) == 256 * (q * k);
    assert first + size == 256 * m;
  }

  lemma SizeInBlocks(bits: nat) returns (k: nat)
    requires bits <= 24
    ensures k > 0 && Pow2(32 - bits) == 256 * k
  {
    k := Pow2(24 - bits);
    Pow2Add(8, 24 - bits);
    assert Pow2(8) == 256;
  }

  /** A wide pool ends on the last address of a /24. */
  lemma EndsOnBlock(base: Prefix)
    requires base.Valid() && base.fam == V4 && base.bits <= 24
    ensures base.Last() % 256 == 255 && base.Last() >= 255
  {
    var k := SizeInBlocks(base.bits);
    var q := Multiple(base.val, base.Size());
    BlockEnd(base.First(), base.Size(), k, q);
  }

  /** The tail is the last 256 addresses of an IPv4 pool of /24 or wider; stream sessions show
    the 254 of them that are neither first nor last, in turn by seat, and any other pool shows
    10.7.255.254 to all. */
  lemma TailIsLastBlock(base: Prefix, a: Addr, seat: Seat)
    requires base.Valid()
    ensures InTail(base, a) <==>
      base.fam == V4 && base.bits <= 24 && a.fam == V4 && base.Last() - 255 <= a.val <= base.Last()
    ensures base.fam == V4 && base.bits <= 24 ==>
      StreamAddr(base, seat).fam == V4 && StreamAddr(base, seat).val + 254 == base.Last() + seat % 254
    ensures !(base.fam == V4 && base.bits <= 24) ==>
      StreamAddr(base, seat) == Addr(V4, 10 * 0x100_0000 + 7 * 0x1_0000 + 255 * 0x100 + 254)
  {
    if base.fam == V4 && base.bits <= 24 { EndsOnBlock(base); }
  }

  /** A pool cannot lease the address its stream sessions show: it keeps a tail for them,
    or the fixed address is outside what it leases. */
  predicate TailApart(base: Prefix)
    requires base.Valid()
  {
    StreamTail(base).Some? || !Leasable(base, Addr(V4, 0x0A07_FFFE))
  }

  lemma StreamAddrNeverLeased(base: Prefix)
    requires base.Valid()
    ensures TailApart(base) <==> forall seat: Seat :: !Leasable(base, StreamAddr(base, seat))
  {
    if StreamTail(base).Some? {
      forall seat: Seat ensures !Leasable(base, StreamAddr(base, seat)) {
        TailAddress(base, seat);
      }
    } else {
      assert StreamAddr(base, 0) == Addr(V4, 0x0A07_FFFE);
    }
  }

  /** Such a pool exists: 10.7.255.128/25 keeps no tail and leases the fixed address. */
  lemma NarrowPool()
    ensures var base := Prefix(V4, 0x0A07_FF80, 25);
      base.Valid() && !TailApart(base) && StreamAddr(base, 2) == Addr(V4, 0x0A07_FFFE)
  {
    var base := Prefix(V4, 0x0A07_FF80, 25);
    assert Pow2(7) == 128;
    Pow2Add(16, 16);
    assert Pow2(16) == 0x1_0000 by { Pow2Add(8, 8); assert Pow2(8) == 256; }
    FloorIs(base.val, 128);
    assert base.First() == 0x0A07_FF80 && base.Last() == 0x0A07_FFFF;
  }
}
