/** The session table of internal/qsrv: `seat` and its closer (serve.go), `Forget`
  (node.go), stream and transit sessions and their sweeps (session.go), over the
  leases of `Pool`.  Every critical section is one action, and so are the store of
  `over` before the closer takes the lock and the `give` after it lets go. */
module Sessions {
  import opened Options
  import opened Net
  import opened Pool

  type Id = nat

  /** Carry: runs `carry` or `carryStream`, so it holds a lease and has an `end`.
    Stream and Transit: bare entries made by `streamSession` and `peerSession`. */
  datatype Kind = Carry | Stream | Transit

  /** Taken: leased, not seated.  Seated.  Marked: `over` stored.  Unseated: past the
    closer's lock.  Closed: the lease given back. */
  datatype Stage = Taken | Seated | Marked | Unseated | Closed

  datatype Live = Live(
    kind: Kind,
    seat: Seat,
    session: nat,
    via: nat,
    stream: bool,
    address: Option<Addr>,
    stage: Stage,
    turn: nat,               // when it entered `held`
    under: Option<Id>,
    was: Option<Id>)         // what the closer remembers to have found
  {
    predicate Over() { stage.Marked? || stage.Unseated? || stage.Closed? }
  }

  datatype State = State(
    lives: seq<Live>,
    held: map<Seat, Id>,
    book: Book,
    clock: nat,
    owing: set<Id>)          // endless sessions a Forget detached and has yet to `give`

  function Init(base: Prefix): State {
    State([], map[], Book(base.val + 1, map[], map[]), 0, {})
  }

  datatype Action =
    | Take(grant: Live, a: Addr)
    | Refused(seat: Seat)               // a take that finds nothing moves the cursor
    | Sit(id: Id)
    | Mark(id: Id)
    | Unseat(id: Id)
    | Give(id: Id)
    | Bare(kind: Kind, grant: Live)     // peerSession, streamSession
    | Detach(name: nat)                 // seatsOf(name, true) inside Forget
    | ForgetGive(id: Id)
    | Sweep(quiet: set<Id>)             // the sessions whose lastSeen is before the cut
    | DropTransit(seat: Seat)

  function Matches(s: Live, name: nat): bool { s.seat == name || s.session == name || s.via == name }

  ghost predicate Enabled(base: Prefix, s: State, act: Action)
    requires base.Valid()
  {
    match act
    case Take(grant, a) => Took(base, s.book, grant.seat, a)
    case Refused(seat) => !OwnFree(base, s.book, seat) && NoneFree(base, s.book)
    case Sit(id) => id < |s.lives| && s.lives[id].kind.Carry? && s.lives[id].stage.Taken?
    case Mark(id) => id < |s.lives| && s.lives[id].kind.Carry? && s.lives[id].stage.Seated?
    case Unseat(id) => id < |s.lives| && s.lives[id].kind.Carry? && s.lives[id].stage.Marked?
    case Give(id) => id < |s.lives| && s.lives[id].kind.Carry? && s.lives[id].stage.Unseated?
    case Bare(kind, grant) => !kind.Carry? && grant.seat !in s.held && grant.seat != 0
    case Detach(name) => true
    case ForgetGive(id) => id in s.owing
    case Sweep(quiet) => true
    case DropTransit(seat) => true
  }

  function HeldAt(s: State, seat: Seat): Option<Id> {
    if seat in s.held then Some(s.held[seat]) else None
  }

  ghost predicate Shaped(s: State) {
    && (forall seat :: seat in s.held ==> s.held[seat] < |s.lives| && s.lives[s.held[seat]].seat == seat)
    && (forall id :: 0 <= id < |s.lives| && s.lives[id].was.Some? ==> s.lives[id].was.value < |s.lives|)
    && (forall id :: id in s.owing ==> id < |s.lives|)
  }

  /** The closer's critical section: `current`, `back`, and the three ways to leave `held`. */
  function Back(s: State, id: Id): bool
    requires id < |s.lives| && (s.lives[id].was.Some? ==> s.lives[id].was.value < |s.lives|)
  {
    var l := s.lives[id];
    HeldAt(s, l.seat) == Some(id) && l.was.Some? && s.lives[l.was.value].kind.Carry? && !s.lives[l.was.value].Over()
  }

  function AfterUnseat(s: State, id: Id): State
    requires id < |s.lives| && (s.lives[id].was.Some? ==> s.lives[id].was.value < |s.lives|)
  {
    var l := s.lives[id];
    s.(lives := s.lives[id := l.(stage := Unseated, under := None)],
       held := if Back(s, id) then s.held[l.seat := l.was.value]
               else if HeldAt(s, l.seat) == Some(id) then s.held - {l.seat} else s.held)
  }

  function AfterSit(s: State, id: Id): State
    requires id < |s.lives|
  {
    var l := s.lives[id];
    var was := HeldAt(s, l.seat);
    s.(lives := s.lives[id := l.(stage := Seated, turn := s.clock, under := was, was := was)],
       held := s.held[l.seat := id], clock := s.clock + 1)
  }

  function Remaining(s: State, gone: set<Id>): map<Seat, Id> {
    map seat | seat in s.held && s.held[seat] !in gone :: s.held[seat]
  }

  ghost function Named(s: State, name: nat): set<Id>
    requires Shaped(s)
  {
    set seat | seat in s.held && Matches(s.lives[s.held[seat]], name) :: s.held[seat]
  }

  ghost function Silent(s: State, quiet: set<Id>): set<Id>
    requires Shaped(s)
  {
    set seat | seat in s.held && s.held[seat] in quiet && s.lives[s.held[seat]].stream :: s.held[seat]
  }

  ghost function Step(base: Prefix, s: State, act: Action): State
    requires base.Valid() && Shaped(s) && Enabled(base, s, act)
  {
    match act
    case Take(g, a) =>
      s.(lives := s.lives + [Live(Carry, g.seat, g.session, g.via, g.stream, Some(a), Taken, 0, None, None)],
         book := AfterTake(base, s.book, g.seat, a))
    case Refused(seat) => s.(book := AfterRefusal(base, s.book))
    case Sit(id) => AfterSit(s, id)
    case Mark(id) => s.(lives := s.lives[id := s.lives[id].(stage := Marked)])
    case Unseat(id) => AfterUnseat(s, id)
    case Give(id) => AfterGive(s, id)
    case Bare(kind, g) =>
      var address := if kind.Stream? then Some(StreamAddr(base, g.seat)) else None;
      s.(lives := s.lives + [Live(kind, g.seat, g.session, g.via, kind.Stream?, address, Seated, s.clock, None, None)],
         held := s.held[g.seat := |s.lives|], clock := s.clock + 1)
    case Detach(name) =>
      var gone := Named(s, name);
      s.(held := Remaining(s, gone), owing := s.owing + set id | id in gone && !s.lives[id].kind.Carry?)
    case ForgetGive(id) =>
      s.(owing := s.owing - {id},
         book := if s.lives[id].address.Some? then Given(s.book, s.lives[id].address.value) else s.book)
    case Sweep(quiet) =>
      s.(held := Remaining(s, Silent(s, quiet)))
    case DropTransit(seat) =>
      if seat in s.held && s.lives[s.held[seat]].kind.Transit? then s.(held := s.held - {seat}) else s
  }

  function AfterGive(s: State, id: Id): State
    requires id < |s.lives|
  {
    var l := s.lives[id];
    s.(lives := s.lives[id := l.(stage := Closed)],
       book := if l.address.Some? then Given(s.book, l.address.value) else s.book)
  }

  // ------------------------------------------------------------ invariants

  /** The carries that took `a` and have not given it back. */
  ghost function Holders(lives: seq<Live>, a: Addr): set<Id> {
    set id: Id | id < |lives| && lives[id].kind.Carry? && !lives[id].stage.Closed? && lives[id].address == Some(a)
  }

  /** The pool counts exactly the open carries on `a`, and they are all of one seat. */
  ghost predicate ConservedAt(lives: seq<Live>, taken: map<Addr, Lease>, a: Addr) {
    if a in taken then
      && taken[a].held == |Holders(lives, a)| >= 1
      && forall id :: id in Holders(lives, a) ==> lives[id].seat == taken[a].seat
    else Holders(lives, a) == {}
  }

  ghost predicate Conserved(s: State) {
    forall a :: ConservedAt(s.lives, s.book.taken, a)
  }

  /** Nobody in `held` has passed its closer's lock. */
  ghost predicate HeldInv(s: State)
    requires Shaped(s)
  {
    forall seat :: seat in s.held ==>
      var l := s.lives[s.held[seat]];
      l.turn < s.clock && (l.stage.Seated? || l.stage.Marked?)
  }

  /** Sessions stack: `under` and `was` name earlier sessions of the same seat. */
  ghost predicate Stacked(s: State)
    requires Shaped(s)
  {
    forall id :: 0 <= id < |s.lives| ==> StackedOn(s, id, s.lives[id].under) && StackedOn(s, id, s.lives[id].was)
  }

  ghost predicate StackedOn(s: State, id: Id, u: Option<Id>)
    requires id < |s.lives|
  {
    u.Some? ==>
      && u.value < |s.lives|
      && s.lives[u.value].seat == s.lives[id].seat
      && s.lives[u.value].turn < s.lives[id].turn
      && !s.lives[u.value].stage.Taken?
  }

  ghost predicate KindInv(base: Prefix, s: State)
    requires base.Valid() && Shaped(s)
  {
    && (forall id :: 0 <= id < |s.lives| && s.lives[id].kind.Carry? ==>
          s.lives[id].address.Some? && Leasable(base, s.lives[id].address.value))
    && (forall id :: 0 <= id < |s.lives| && s.lives[id].kind.Stream? ==>
          s.lives[id].address == Some(StreamAddr(base, s.lives[id].seat)))
    && (forall id :: 0 <= id < |s.lives| && s.lives[id].kind.Transit? ==> s.lives[id].address == None)
    && (forall id :: id in s.owing ==> !s.lives[id].kind.Carry?)
    && (forall id :: 0 <= id < |s.lives| && s.lives[id].stage.Taken? ==> s.lives[id].under == None == s.lives[id].was)
  }

  ghost predicate Inv(base: Prefix, s: State)
    requires base.Valid()
  {
    Shaped(s) && HeldInv(s) && Stacked(s) && BookInv(base, s.book) && KindInv(base, s) && Conserved(s)
  }

  // ------------------------------------------------------- the table half

  ghost predicate TableInv(base: Prefix, s: State)
    requires base.Valid()
  {
    Shaped(s) && HeldInv(s) && Stacked(s) && KindInv(base, s)
  }

  /** What every action keeps on any pool: the table and the book, each by itself. */
  ghost predicate NodeInv(base: Prefix, s: State)
    requires base.Valid()
  {
    TableInv(base, s) && BookInv(base, s.book)
  }

  lemma SitKeepsTable(base: Prefix, s: State, id: Id)
    requires base.Valid() && TableInv(base, s) && Enabled(base, s, Sit(id))
    ensures TableInv(base, AfterSit(s, id))
  {
    SitKeepsHeld(base, s, id);
    SitKeepsStack(base, s, id);
    SitKeepsKinds(base, s, id);
  }

  lemma SitKeepsHeld(base: Prefix, s: State, id: Id)
    requires base.Valid() && TableInv(base, s) && Enabled(base, s, Sit(id))
    ensures Shaped(AfterSit(s, id)) && HeldInv(AfterSit(s, id))
  {
  }

  lemma SitKeepsKinds(base: Prefix, s: State, id: Id)
    requires base.Valid() && TableInv(base, s) && Enabled(base, s, Sit(id)) && Shaped(AfterSit(s, id))
    ensures KindInv(base, AfterSit(s, id))
  {
  }

  lemma SitKeepsStack(base: Prefix, s: State, id: Id)
    requires base.Valid() && TableInv(base, s) && Enabled(base, s, Sit(id)) && Shaped(AfterSit(s, id))
    ensures Stacked(AfterSit(s, id))
  {
    var t := AfterSit(s, id);
    forall k | 0 <= k < |t.lives| ensures StackedOn(t, k, t.lives[k].under) && StackedOn(t, k, t.lives[k].was) {
      assert StackedOn(s, k, s.lives[k].under) && StackedOn(s, k, s.lives[k].was);
    }
  }

  lemma UnseatKeepsStack(base: Prefix, s: State, id: Id)
    requires base.Valid() && TableInv(base, s) && Enabled(base, s, Unseat(id))
    ensures var t := AfterUnseat(s, id); Shaped(t) && Stacked(t)
  {
    var t := AfterUnseat(s, id);
    assert StackedOn(s, id, s.lives[id].was);
    forall k | 0 <= k < |t.lives| ensures StackedOn(t, k, t.lives[k].under) && StackedOn(t, k, t.lives[k].was) {
      assert StackedOn(s, k, s.lives[k].under) && StackedOn(s, k, s.lives[k].was);
    }
  }

  lemma UnseatKeepsKinds(base: Prefix, s: State, id: Id)
    requires base.Valid() && TableInv(base, s) && Enabled(base, s, Unseat(id))
    ensures var t := AfterUnseat(s, id); Shaped(t) && KindInv(base, t)
  {
  }

  lemma UnseatKeepsTable(base: Prefix, s: State, id: Id)
    requires base.Valid() && TableInv(base, s) && Enabled(base, s, Unseat(id))
    ensures TableInv(base, AfterUnseat(s, id))
  {
    UnseatKeepsStack(base, s, id);
    UnseatKeepsKinds(base, s, id);
    assert StackedOn(s, id, s.lives[id].was);
  }

  /** Storing `over` and giving a lease back change nothing the table looks at but a stage. */
  lemma StageKeepsTable(base: Prefix, s: State, t: State, id: Id, stage: Stage)
    requires base.Valid() && TableInv(base, s) && id < |s.lives|
    requires stage.Marked? || (stage.Closed? && s.lives[id].stage.Unseated?)
    requires s.lives[id].kind.Carry? && !s.lives[id].stage.Taken?
    requires stage.Marked? ==> s.lives[id].stage.Seated?
    requires t == s.(lives := s.lives[id := s.lives[id].(stage := stage)], book := t.book)
    ensures TableInv(base, t)
  {
    forall k | 0 <= k < |t.lives| ensures StackedOn(t, k, t.lives[k].under) && StackedOn(t, k, t.lives[k].was) {
      assert StackedOn(s, k, s.lives[k].under) && StackedOn(s, k, s.lives[k].was);
    }
  }

  /** A new session at the end of `lives`, in `held` or not. */
  lemma GrowKeepsTable(base: Prefix, s: State, t: State, l: Live)
    requires base.Valid() && TableInv(base, s)
    requires t.lives == s.lives + [l] && l.under == None == l.was && t.owing == s.owing
    requires t.held == s.held || (t.held == s.held[l.seat := |s.lives|] && l.turn < t.clock && l.stage.Seated?)
    requires t.clock >= s.clock
    requires KindInv(base, t.(held := map[])) || !Shaped(t.(held := map[]))
    ensures TableInv(base, t)
  {
    forall k | 0 <= k < |t.lives| ensures StackedOn(t, k, t.lives[k].under) && StackedOn(t, k, t.lives[k].was) {
      if k < |s.lives| {
        assert StackedOn(s, k, s.lives[k].under) && StackedOn(s, k, s.lives[k].was);
      }
    }
  }

  lemma ShrinkKeepsTable(base: Prefix, s: State, t: State)
    requires base.Valid() && TableInv(base, s)
    requires t.lives == s.lives && t.clock == s.clock
    requires forall seat :: seat in t.held ==> seat in s.held && t.held[seat] == s.held[seat]
    requires forall id :: id in t.owing ==> id < |s.lives| && !s.lives[id].kind.Carry?
    ensures TableInv(base, t)
  {
    forall k | 0 <= k < |t.lives| ensures StackedOn(t, k, t.lives[k].under) && StackedOn(t, k, t.lives[k].was) {
      assert StackedOn(s, k, s.lives[k].under) && StackedOn(s, k, s.lives[k].was);
    }
  }

  lemma TakeKeepsTable(base: Prefix, s: State, g: Live, a: Addr)
    requires base.Valid() && NodeInv(base, s) && Enabled(base, s, Take(g, a))
    ensures TableInv(base, Step(base, s, Take(g, a)))
  {
    var t := Step(base, s, Take(g, a));
    TookLeases(base, s.book, g.seat, a);
    GrowKeepsTable(base, s, t, t.lives[|s.lives|]);
  }

  lemma BareKeepsTable(base: Prefix, s: State, kind: Kind, g: Live)
    requires base.Valid() && NodeInv(base, s) && Enabled(base, s, Bare(kind, g))
    ensures TableInv(base, Step(base, s, Bare(kind, g)))
  {
    var t := Step(base, s, Bare(kind, g));
    GrowKeepsTable(base, s, t, t.lives[|s.lives|]);
  }

  lemma StepKeepsTable(base: Prefix, s: State, act: Action)
    requires base.Valid() && NodeInv(base, s) && Enabled(base, s, act)
    ensures TableInv(base, Step(base, s, act))
  {
    var t := Step(base, s, act);
    match act
    case Take(g, a) => TakeKeepsTable(base, s, g, a);
    case Bare(kind, g) => BareKeepsTable(base, s, kind, g);
    case Sit(id) => SitKeepsTable(base, s, id);
    case Mark(id) => StageKeepsTable(base, s, t, id, Marked);
    case Unseat(id) => UnseatKeepsTable(base, s, id);
    case Give(id) => StageKeepsTable(base, s, t, id, Closed);
    case _ => ShrinkKeepsTable(base, s, t);
  }

  // ------------------------------------------------------- the lease half

  lemma SameHolders(s: State, t: State)
    requires |t.lives| == |s.lives| && t.book.taken == s.book.taken
    requires forall id :: 0 <= id < |s.lives| ==>
      && t.lives[id].kind == s.lives[id].kind && t.lives[id].address == s.lives[id].address
      && t.lives[id].seat == s.lives[id].seat && (t.lives[id].stage.Closed? <==> s.lives[id].stage.Closed?)
    requires Conserved(s)
    ensures Conserved(t)
  {
    forall a ensures ConservedAt(t.lives, t.book.taken, a) {
      assert ConservedAt(s.lives, s.book.taken, a);
      assert Holders(t.lives, a) == Holders(s.lives, a);
    }
  }

  /** One more session: a carry adds itself to its address, anything else adds nobody. */
  lemma GrowHolders(lives: seq<Live>, l: Live, a: Addr)
    ensures Holders(lives + [l], a) ==
      Holders(lives, a) + if l.kind.Carry? && !l.stage.Closed? && l.address == Some(a) then {|lives|} else {}
    ensures |lives| !in Holders(lives, a)
  {
    forall id: Id | id < |lives| ensures (lives + [l])[id] == lives[id] {}
  }

  lemma BareConserves(s: State, t: State, l: Live)
    requires Conserved(s) && !l.kind.Carry?
    requires t.lives == s.lives + [l] && t.book == s.book
    ensures Conserved(t)
  {
    forall a ensures ConservedAt(t.lives, t.book.taken, a) {
      GrowHolders(s.lives, l, a);
      assert ConservedAt(s.lives, s.book.taken, a);
    }
  }

  lemma HoldConserves(lives: seq<Live>, b: Book, l: Live, a: Addr, other: Addr)
    requires ConservedAt(lives, b.taken, other)
    requires l.kind.Carry? && l.stage.Taken? && l.address == Some(a)
    requires a in b.taken ==> b.taken[a].seat == l.seat
    ensures ConservedAt(lives + [l], Hold(b, a, l.seat).taken, other)
  {
    GrowHolders(lives, l, other);
  }

  lemma TakeConserves(base: Prefix, s: State, act: Action)
    requires base.Valid() && Inv(base, s) && act.Take? && Enabled(base, s, act)
    ensures Conserved(Step(base, s, act))
  {
    var t := Step(base, s, act);
    var l := t.lives[|s.lives|];
    TookLeases(base, s.book, l.seat, act.a);
    assert t.book.taken == Hold(s.book, act.a, l.seat).taken;
    forall other ensures ConservedAt(t.lives, t.book.taken, other) {
      HoldConserves(s.lives, s.book, l, act.a, other);
    }
  }

  lemma TakeKeepsBook(base: Prefix, s: State, act: Action)
    requires base.Valid() && NodeInv(base, s) && act.Take? && Enabled(base, s, act)
    ensures BookInv(base, Step(base, s, act).book)
  {
    TookLeases(base, s.book, act.grant.seat, act.a);
  }

  lemma GivenKeepsBook(base: Prefix, b: Book, a: Addr)
    requires base.Valid() && BookInv(base, b)
    ensures BookInv(base, Given(b, a))
  {
  }

  lemma GiveConservesAt(lives: seq<Live>, b: Book, id: Id, mine: Addr, a: Addr)
    requires id < |lives| && lives[id].kind.Carry? && lives[id].stage.Unseated? && lives[id].address == Some(mine)
    requires ConservedAt(lives, b.taken, a)
    ensures ConservedAt(lives[id := lives[id].(stage := Closed)], Given(b, mine).taken, a)
  {
    var after := lives[id := lives[id].(stage := Closed)];
    if a == mine {
      assert id in Holders(lives, a);
      assert Holders(after, a) == Holders(lives, a) - {id};
      assert b.taken[a].held <= 1 ==> |Holders(after, a)| == 0;
    } else {
      assert Holders(after, a) == Holders(lives, a);
    }
  }

  lemma GiveConserves(base: Prefix, s: State, id: Id)
    requires base.Valid() && Inv(base, s) && Enabled(base, s, Give(id))
    ensures Conserved(AfterGive(s, id))
  {
    var t := AfterGive(s, id);
    forall a ensures ConservedAt(t.lives, t.book.taken, a) {
      GiveConservesAt(s.lives, s.book, id, s.lives[id].address.value, a);
    }
  }

  /** The `give` inside Forget names an address no carry can hold. */
  lemma ForgetGivesNothing(base: Prefix, s: State, id: Id)
    requires base.Valid() && TailApart(base) && Inv(base, s) && id in s.owing
    ensures s.lives[id].address.Some? ==> s.lives[id].address.value !in s.book.taken
  {
    StreamAddrNeverLeased(base);
    assert !s.lives[id].kind.Carry?;
  }

  lemma StepConserves(base: Prefix, s: State, act: Action)
    requires base.Valid() && TailApart(base) && Inv(base, s) && Enabled(base, s, act)
    ensures Conserved(Step(base, s, act))
  {
    var t := Step(base, s, act);
    match act
    case Take(g, a) => TakeConserves(base, s, act);
    case Give(id) => GiveConserves(base, s, id);
    case Bare(kind, g) => BareConserves(s, t, t.lives[|s.lives|]);
    case ForgetGive(id) =>
      ForgetGivesNothing(base, s, id);
      SameHolders(s, t);
    case _ => SameHolders(s, t);
  }

  lemma StepKeepsBook(base: Prefix, s: State, act: Action)
    requires base.Valid() && NodeInv(base, s) && Enabled(base, s, act)
    ensures BookInv(base, Step(base, s, act).book)
  {
    match act
    case Refused(seat) => RefusalKeepsBook(base, s.book);
    case Take(g, a) => TakeKeepsBook(base, s, act);
    case Give(id) => GivenKeepsBook(base, s.book, s.lives[id].address.value);
    case ForgetGive(id) => if s.lives[id].address.Some? { GivenKeepsBook(base, s.book, s.lives[id].address.value); }
    case _ =>
  }

  lemma StepKeepsNode(base: Prefix, s: State, act: Action)
    requires base.Valid() && NodeInv(base, s) && Enabled(base, s, act)
    ensures NodeInv(base, Step(base, s, act))
  {
    StepKeepsTable(base, s, act);
    StepKeepsBook(base, s, act);
  }

  lemma StepKeepsInv(base: Prefix, s: State, act: Action)
    requires base.Valid() && TailApart(base) && Inv(base, s) && Enabled(base, s, act)
    ensures Inv(base, Step(base, s, act))
  {
    StepKeepsNode(base, s, act);
    StepConserves(base, s, act);
  }

  // -------------------------------------------------------------- theorems

  lemma InitInv(base: Prefix)
    requires base.Valid()
    ensures Inv(base, Init(base))
  {
    ContainsIsRange(base, Addr(base.fam, base.val));
    forall a ensures ConservedAt([], map[], a) {}
  }

  ghost predicate Next(base: Prefix, s: State, act: Action, t: State)
    requires base.Valid()
  {
    Shaped(s) && Enabled(base, s, act) && t == Step(base, s, act)
  }

  /** A run of the node from its start.  `Shaped` stops no run: every state has it. */
  ghost predicate Run(base: Prefix, trace: seq<State>, acts: seq<Action>)
    requires base.Valid()
  {
    && |trace| == |acts| + 1 && trace[0] == Init(base)
    && forall i {:trigger acts[i]} :: 0 <= i < |acts| ==> Next(base, trace[i], acts[i], trace[i + 1])
  }

  lemma InitNode(base: Prefix)
    requires base.Valid()
    ensures NodeInv(base, Init(base))
  {
    InitInv(base);
  }

  lemma {:induction false} RunKeepsNode(base: Prefix, trace: seq<State>, acts: seq<Action>, i: nat)
    requires base.Valid() && Run(base, trace, acts) && i < |trace|
    ensures NodeInv(base, trace[i])
  {
    if i == 0 {
      InitNode(base);
    } else {
      var s, t := trace[i - 1], trace[i];
      RunStep(base, trace, acts, i - 1);
      RunKeepsNode(base, trace, acts, i - 1);
      NextKeepsNode(base, s, acts[i - 1], t);
    }
  }

  lemma NextKeepsNode(base: Prefix, s: State, act: Action, t: State)
    requires base.Valid() && NodeInv(base, s) && Next(base, s, act, t)
    ensures NodeInv(base, t)
  {
    StepKeepsNode(base, s, act);
  }

  lemma {:induction false} RunKeepsInv(base: Prefix, trace: seq<State>, acts: seq<Action>, i: nat)
    requires base.Valid() && TailApart(base) && Run(base, trace, acts) && i < |trace|
    ensures Inv(base, trace[i])
  {
    if i == 0 {
      InitInv(base);
    } else {
      RunKeepsInv(base, trace, acts, i - 1);
      RunStep(base, trace, acts, i - 1);
      StepKeepsInv(base, trace[i - 1], acts[i - 1]);
    }
  }

  lemma RunStep(base: Prefix, trace: seq<State>, acts: seq<Action>, i: nat)
    requires base.Valid() && Run(base, trace, acts) && i < |acts|
    ensures Next(base, trace[i], acts[i], trace[i + 1])
  {
  }

  /** A carry whose address has not been given back. */
  predicate OpenCarry(s: State, id: Id) {
    id < |s.lives| && s.lives[id].kind.Carry? && !s.lives[id].stage.Closed?
  }

  ghost predicate CarriedOn(s: State, id: Id, a: Addr) {
    OpenCarry(s, id) && s.lives[id].address == Some(a)
  }

  /** The lease of `a`, told from the sessions alone: there is one exactly while a carry
    has the address, it counts those carries, and they all belong to the leasing seat. */
  ghost predicate LeaseIsExact(s: State, a: Addr) {
    && (a in s.book.taken <==> exists id: Id :: CarriedOn(s, id, a))
    && (a in s.book.taken ==>
          && s.book.taken[a].held == |set id: Id | id < |s.lives| && CarriedOn(s, id, a)|
          && forall id: Id :: CarriedOn(s, id, a) ==> s.lives[id].seat == s.book.taken[a].seat)
  }

  lemma ConservedIsExact(s: State, a: Addr)
    requires ConservedAt(s.lives, s.book.taken, a)
    ensures LeaseIsExact(s, a)
  {
    var on := set id: Id | id < |s.lives| && CarriedOn(s, id, a);
    assert on == Holders(s.lives, a);
    forall id | CarriedOn(s, id, a) ensures id in on {}
    if a in s.book.taken {
      assert on != {};
      var id :| id in on;
      assert CarriedOn(s, id, a);
    }
  }

  /** Over every interleaving the pool's leases are the open carries and nothing else,
    and none is on the stream tail. */
  lemma LeasesAreOpenCarries(base: Prefix, trace: seq<State>, acts: seq<Action>, i: nat, a: Addr)
    requires base.Valid() && TailApart(base) && Run(base, trace, acts) && i < |trace|
    ensures LeaseIsExact(trace[i], a)
    ensures a in trace[i].book.taken ==> Leasable(base, a)
  {
    RunKeepsInv(base, trace, acts, i);
    ConservedIsExact(trace[i], a);
  }

  /** When every carry has closed, the pool is empty again. */
  lemma NothingLeaks(base: Prefix, trace: seq<State>, acts: seq<Action>, i: nat)
    requires base.Valid() && TailApart(base) && Run(base, trace, acts) && i < |trace|
    requires forall id :: !OpenCarry(trace[i], id)
    ensures trace[i].book.taken == map[]
  {
    forall a ensures a !in trace[i].book.taken { LeasesAreOpenCarries(base, trace, acts, i, a); }
  }

  /** `held` never names a carry whose closer has passed its critical section. */
  lemma HeldIsLive(base: Prefix, trace: seq<State>, acts: seq<Action>, i: nat, seat: Seat)
    requires base.Valid() && Run(base, trace, acts) && i < |trace| && seat in trace[i].held
    ensures var s := trace[i];
      && s.held[seat] < |s.lives| && s.lives[s.held[seat]].seat == seat
      && (s.lives[s.held[seat]].stage.Seated? || s.lives[s.held[seat]].stage.Marked?)
  {
    RunKeepsNode(base, trace, acts, i);
  }

  // ---------------------------------------------- what each step does to held

  lemma NextKeepsWas(base: Prefix, s: State, act: Action, t: State, b: Id)
    requires base.Valid() && Next(base, s, act, t) && b < |s.lives| && s.lives[b].kind.Carry? && !s.lives[b].stage.Taken?
    ensures b < |t.lives| && t.lives[b].kind.Carry? && !t.lives[b].stage.Taken?
    ensures t.lives[b].was == s.lives[b].was && t.lives[b].seat == s.lives[b].seat
  {
  }

  lemma SitSeats(base: Prefix, s: State, b: Id, t: State)
    requires base.Valid() && Next(base, s, Sit(b), t)
    ensures b < |s.lives| && b < |t.lives| && t.lives[b].kind.Carry? && t.lives[b].stage.Seated?
    ensures t.lives[b].seat == s.lives[b].seat && t.lives[b].was == HeldAt(s, s.lives[b].seat)
    ensures t.held == s.held[s.lives[b].seat := b]
  {
  }

  /** A carry remembers whom it found on its seat when it sat down. */
  lemma {:induction false} RemembersBelow(base: Prefix, trace: seq<State>, acts: seq<Action>, i: nat, j: nat, b: Id)
    requires base.Valid() && Run(base, trace, acts) && i < j < |trace| && acts[i] == Sit(b)
    ensures b < |trace[i].lives| && b < |trace[j].lives|
    ensures trace[j].lives[b].kind.Carry? && !trace[j].lives[b].stage.Taken?
    ensures trace[j].lives[b].seat == trace[i].lives[b].seat
    ensures trace[j].lives[b].was == HeldAt(trace[i], trace[i].lives[b].seat)
    decreases j
  {
    RunStep(base, trace, acts, j - 1);
    if j == i + 1 {
      SitSeats(base, trace[i], b, trace[j]);
    } else {
      RemembersBelow(base, trace, acts, i, j - 1, b);
      NextKeepsWas(base, trace[j - 1], acts[j - 1], trace[j], b);
    }
  }

  /** What a closer does to `held`, told from the run: a carry that is not on top any more
    changes nothing; one that is hands the seat back to the session it found there, if that
    is a carry whose own closer has not begun, and otherwise leaves the seat empty. */
  lemma CloserGivesBack(base: Prefix, trace: seq<State>, acts: seq<Action>, i: nat, j: nat, b: Id, seat: Seat)
    requires base.Valid() && Run(base, trace, acts) && i < j < |acts| && acts[i] == Sit(b) && acts[j] == Unseat(b)
    requires b < |trace[i].lives| && seat == trace[i].lives[b].seat
    ensures var s, t := trace[j], trace[j + 1];
      if !(seat in s.held && s.held[seat] == b) then t.held == s.held
      else if seat in trace[i].held && trace[i].held[seat] < |s.lives|
        && s.lives[trace[i].held[seat]].kind.Carry? && s.lives[trace[i].held[seat]].stage.Seated?
      then t.held == s.held[seat := trace[i].held[seat]]
      else t.held == s.held - {seat}
  {
    RemembersBelow(base, trace, acts, i, j, b);
    RunKeepsNode(base, trace, acts, j);
    RunStep(base, trace, acts, j);
    UnseatHands(base, trace[j], b, trace[j + 1]);
  }

  lemma UnseatHands(base: Prefix, s: State, b: Id, t: State)
    requires base.Valid() && NodeInv(base, s) && Next(base, s, Unseat(b), t)
    ensures b < |s.lives| && var l := s.lives[b];
      && (l.was.Some? ==> l.was.value < |s.lives|)
      && t.held ==
        if !(l.seat in s.held && s.held[l.seat] == b) then s.held
        else if l.was.Some? && s.lives[l.was.value].kind.Carry? && s.lives[l.was.value].stage.Seated?
        then s.held[l.seat := l.was.value] else s.held - {l.seat}
  {
    assert StackedOn(s, b, s.lives[b].was);
  }

  /** Sitting down on a live carry and closing again leaves `held` as it was. */
  lemma SitAndClose(base: Prefix, trace: seq<State>, acts: seq<Action>, i: nat, b: Id, seat: Seat)
    requires base.Valid() && Run(base, trace, acts) && i + 2 < |acts|
    requires acts[i] == Sit(b) && acts[i + 1] == Mark(b) && acts[i + 2] == Unseat(b)
    requires b < |trace[i].lives| && seat == trace[i].lives[b].seat && seat in trace[i].held
    requires var a := trace[i].held[seat]; a < |trace[i].lives| && trace[i].lives[a].kind.Carry? && trace[i].lives[a].stage.Seated?
    ensures trace[i + 3].held == trace[i].held
  {
    RunStep(base, trace, acts, i);
    RunStep(base, trace, acts, i + 1);
    SitSeats(base, trace[i], b, trace[i + 1]);
    CloserGivesBack(base, trace, acts, i, i + 2, b, seat);
  }

  /** What the other steps take out of `held`: Forget every session that has the name as its
    seat, its session or its node; the sweep every quiet stream session; a dropped transit
    its own entry.  Everything else stays. */
  lemma HeldShrinks(base: Prefix, s: State, act: Action, t: State, seat: Seat)
    requires base.Valid() && Next(base, s, act, t) && seat in s.held && (act.Detach? || act.Sweep? || act.DropTransit?)
    ensures s.held[seat] < |s.lives|
    ensures seat in t.held ==> t.held[seat] == s.held[seat]
    ensures var l := s.lives[s.held[seat]];
      seat !in t.held <==>
        match act
        case Detach(name) => l.seat == name || l.session == name || l.via == name
        case Sweep(quiet) => l.stream && s.held[seat] in quiet
        case DropTransit(gone) => seat == gone && l.kind.Transit?
        case _ => false
  {
    if act.Detach? {
      assert Matches(s.lives[s.held[seat]], act.name) ==> s.held[seat] in Named(s, act.name);
    }
    if act.Sweep? {
      assert s.held[seat] in act.quiet && s.lives[s.held[seat]].stream ==> s.held[seat] in Silent(s, act.quiet);
    }
  }

  /** The address of the latest grant to a seat among the first `i` actions. */
  function LastGrant(acts: seq<Action>, i: nat, seat: Seat): Option<Addr>
    requires i <= |acts|
  {
    if i == 0 then None
    else if acts[i - 1].Take? && acts[i - 1].grant.seat == seat then Some(acts[i - 1].a)
    else LastGrant(acts, i - 1, seat)
  }

  function MineAt(b: Book, seat: Seat): Option<Addr> { if seat in b.mine then Some(b.mine[seat]) else None }

  /** What the pool remembers for a seat is the address of its latest grant. */
  lemma {:induction false} MineIsLastGrant(base: Prefix, trace: seq<State>, acts: seq<Action>, i: nat, seat: Seat)
    requires base.Valid() && Run(base, trace, acts) && i < |trace| && seat != 0
    ensures MineAt(trace[i].book, seat) == LastGrant(acts, i, seat)
  {
    if i > 0 {
      MineIsLastGrant(base, trace, acts, i - 1, seat);
      RunStep(base, trace, acts, i - 1);
      NextMine(base, trace[i - 1], acts[i - 1], trace[i], seat);
    }
  }

  lemma NextMine(base: Prefix, s: State, act: Action, t: State, seat: Seat)
    requires base.Valid() && Next(base, s, act, t) && seat != 0
    ensures MineAt(t.book, seat) == if act.Take? && act.grant.seat == seat then Some(act.a) else MineAt(s.book, seat)
  {
  }

  /** On every run a returning seat gets the address of its latest grant, exactly when no
    other seat has it leased. */
  lemma ReturningSeat(base: Prefix, trace: seq<State>, acts: seq<Action>, i: nat, a: Addr)
    requires base.Valid() && Run(base, trace, acts) && i < |acts|
    requires acts[i].Take? && acts[i].grant.seat != 0 && LastGrant(acts, i, acts[i].grant.seat) == Some(a)
    ensures acts[i].a == a <==> (a in trace[i].book.taken ==> trace[i].book.taken[a].seat == acts[i].grant.seat)
  {
    var seat := acts[i].grant.seat;
    MineIsLastGrant(base, trace, acts, i, seat);
    RunKeepsNode(base, trace, acts, i);
    RunStep(base, trace, acts, i);
    TookLeases(base, trace[i].book, seat, acts[i].a);
    assert Leasable(base, a);
  }

  /** The pool must keep its stream addresses apart: exactly when it does, leases and open
    carries agree on every run. */
  lemma ApartIsNeeded(base: Prefix)
    requires base.Valid()
    ensures TailApart(base) <==>
      forall trace, acts, i :: Run(base, trace, acts) && 0 <= i < |trace| ==> Conserved(trace[i])
  {
    if TailApart(base) {
      forall trace, acts, i | Run(base, trace, acts) && 0 <= i < |trace| ensures Conserved(trace[i]) {
        RunKeepsInv(base, trace, acts, i);
      }
    } else {
      var trace, acts := TornRun(base);
      assert Run(base, trace, acts) && 0 <= |acts| < |trace|;
    }
  }

  lemma RunMore(base: Prefix, trace: seq<State>, acts: seq<Action>, act: Action, t: State)
    requires base.Valid() && Run(base, trace, acts) && Next(base, trace[|acts|], act, t)
    ensures Run(base, trace + [t], acts + [act])
  {
    var more, all := trace + [t], acts + [act];
    forall i | 0 <= i < |all| ensures Next(base, more[i], all[i], more[i + 1]) {
      if i < |acts| { RunStep(base, trace, acts, i); }
    }
  }

  /** A carry of the seat of its own number, leasing address `v`. */
  function CarryOn(base: Prefix, v: nat): Live {
    Live(Carry, v, v, v, false, Some(Addr(base.fam, v)), Taken, 0, None, None)
  }

  /** The first `n` addresses of the pool are leased, in turn, by carries yet to sit. */
  function FilledState(base: Prefix, n: nat): State {
    State(Carriers(base, n), map[], Filled(base, n, true), 0, {})
  }

  function Carriers(base: Prefix, n: nat): (r: seq<Live>)
    ensures |r| == n && forall k :: 0 <= k < n ==> r[k] == CarryOn(base, base.val + 1 + k)
  {
    if n == 0 then [] else Carriers(base, n - 1) + [CarryOn(base, base.val + n)]
  }

  lemma FillNext(base: Prefix, n: nat)
    requires base.Valid() && Leasable(base, Addr(base.fam, base.val + 1 + n))
    ensures var v := base.val + 1 + n;
      Next(base, FilledState(base, n), Take(CarryOn(base, v), Addr(base.fam, v)), FilledState(base, n + 1))
  {
    var v := base.val + 1 + n;
    FillStep(base, n, true);
    assert Carriers(base, n + 1) == Carriers(base, n) + [CarryOn(base, v)];
    TakeIs(base, FilledState(base, n), CarryOn(base, v), Addr(base.fam, v), FilledState(base, n + 1));
  }

  lemma TakeIs(base: Prefix, s: State, g: Live, a: Addr, t: State)
    requires base.Valid() && Took(base, s.book, g.seat, a) && s.held == map[] && s.owing == {}
    requires forall id :: 0 <= id < |s.lives| ==> s.lives[id].was == None
    requires g == Live(Carry, g.seat, g.session, g.via, g.stream, Some(a), Taken, 0, None, None)
    requires t == s.(lives := t.lives, book := AfterTake(base, s.book, g.seat, a)) && t.lives == s.lives + [g]
    ensures Next(base, s, Take(g, a), t)
  {
  }

  lemma {:induction false} FillTrace(base: Prefix, n: nat) returns (trace: seq<State>, acts: seq<Action>)
    requires base.Valid() && forall v :: base.val < v <= base.val + n ==> Leasable(base, Addr(base.fam, v))
    ensures Run(base, trace, acts) && trace[|acts|] == FilledState(base, n)
  {
    if n == 0 {
      trace, acts := [Init(base)], [];
    } else {
      var v := base.val + n;
      var front, before := FillTrace(base, n - 1);
      FillNext(base, n - 1);
      RunMore(base, front, before, Take(CarryOn(base, v), Addr(base.fam, v)), FilledState(base, n));
      trace, acts := front + [FilledState(base, n)], before + [Take(CarryOn(base, v), Addr(base.fam, v))];
    }
  }

  /** Carries lease every address up to the fixed stream address, that one included; a
    stream session of seat 1 shows it too, and Forget of seat 1 gives the lease away. */
  lemma TornRun(base: Prefix) returns (trace: seq<State>, acts: seq<Action>)
    requires base.Valid() && !TailApart(base)
    ensures Run(base, trace, acts) && !Conserved(trace[|acts|])
  {
    var a := StreamAddr(base, 1);
    var n := a.val - base.val;
    trace, acts := FillTrace(base, n);
    var s := FilledState(base, n);
    var two := Live(Stream, 1, 1, 1, true, Some(a), Seated, 0, None, None);
    var s1 := s.(lives := s.lives + [two], held := map[1 := n], clock := 1);
    var s2 := s1.(held := map[], owing := {n});
    var s3 := s2.(owing := {}, book := Given(s2.book, a));
    assert forall id :: 0 <= id < n ==> s.lives[id] == CarryOn(base, base.val + 1 + id);
    TornForget(base, s, two, a);
    RunMore(base, trace, acts, Bare(Stream, two), s1);
    trace, acts := trace + [s1], acts + [Bare(Stream, two)];
    RunMore(base, trace, acts, Detach(1), s2);
    trace, acts := trace + [s2], acts + [Detach(1)];
    RunMore(base, trace, acts, ForgetGive(n), s3);
    trace, acts := trace + [s3], acts + [ForgetGive(n)];
    Torn(base, s3, n, a);
  }

  lemma Torn(base: Prefix, t: State, n: nat, a: Addr)
    requires base.Valid() && 0 < n < |t.lives| && a == Addr(base.fam, base.val + n)
    requires t.lives[n - 1] == CarryOn(base, base.val + n) && a !in t.book.taken
    ensures !Conserved(t)
  {
    assert n - 1 in Holders(t.lives, a);
    assert !ConservedAt(t.lives, t.book.taken, a);
  }

  lemma TornForget(base: Prefix, s: State, two: Live, a: Addr)
    requires base.Valid() && a == StreamAddr(base, 1)
    requires two == Live(Stream, 1, 1, 1, true, Some(a), Seated, 0, None, None)
    requires s.held == map[] && s.owing == {} && s.clock == 0
    requires forall id :: 0 <= id < |s.lives| ==> s.lives[id].was == None
    ensures var n := |s.lives|;
      var s1 := s.(lives := s.lives + [two], held := map[1 := n], clock := 1);
      var s2 := s1.(held := map[], owing := {n});
      && Next(base, s, Bare(Stream, two), s1) && Next(base, s1, Detach(1), s2)
      && Next(base, s2, ForgetGive(n), s2.(owing := {}, book := Given(s2.book, a)))
  {
    var n := |s.lives|;
    var s1 := s.(lives := s.lives + [two], held := map[1 := n], clock := 1);
    assert 1 in s1.held && Matches(s1.lives[s1.held[1]], 1);
    assert Named(s1, 1) == {n};
  }

  // ----------------------------------------------------- the table's loops

  /** The sessions `Forget` closes from `id` down, following `under`. */
  ghost function Chain(s: State, id: Id): (r: seq<Id>)
    requires Shaped(s) && Stacked(s) && id < |s.lives|
    decreases s.lives[id].turn
  {
    assert StackedOn(s, id, s.lives[id].under);
    [id] + if s.lives[id].under.Some? then Chain(s, s.lives[id].under.value) else []
  }

  /** `Forget` walking down from a session closes only sessions of that session's seat. */
  lemma {:induction false} ChainStaysOnSeat(s: State, id: Id)
    requires Shaped(s) && Stacked(s) && id < |s.lives|
    ensures forall k :: k in Chain(s, id) ==> k < |s.lives| && s.lives[k].seat == s.lives[id].seat
    decreases s.lives[id].turn
  {
    assert StackedOn(s, id, s.lives[id].under);
    if s.lives[id].under.Some? { ChainStaysOnSeat(s, s.lives[id].under.value); }
  }

  class Node {
    var lives: seq<Live>
    var held: map<Seat, Id>
    var clock: nat            // orders the sessions; the source keeps no such counter
    ghost var book: Book
    ghost var owing: set<Id>

    ghost function View(): State
      reads this
    {
      State(lives, held, book, clock, owing)
    }

    constructor (s: State)
      ensures View() == s
    {
      lives, held, book, clock, owing := s.lives, s.held, s.book, s.clock, s.owing;
    }

    /** `seatsOf`: the matching sessions, in map order, out of `held` if asked. */
    method SeatsOf(name: nat, drop: bool) returns (going: seq<Id>)
      requires Shaped(View())
      modifies this`held
      ensures lives == old(lives)
      ensures (set id | id in going) == Named(old(View()), name)
      ensures forall i, j :: 0 <= i < j < |going| ==> going[i] != going[j]
      ensures held == if drop then Remaining(old(View()), Named(old(View()), name)) else old(held)
    {
      going := [];
      var was := held;
      var todo := was.Keys;
      ghost var done: set<Seat> := {};
      while todo != {}
        invariant todo + done == was.Keys && todo !! done
        invariant (set id | id in going) == GoneFrom(was, done, name)
        invariant forall i, j :: 0 <= i < j < |going| ==> going[i] != going[j]
        invariant forall seat :: seat in held <==> seat in was && (!drop || seat in todo || !Matches(lives[was[seat]], name))
        invariant forall seat :: seat in held ==> held[seat] == was[seat]
      {
        var seat :| seat in todo;
        var id := was[seat];
        OneMoreGone(was, done, name, seat);
        todo, done := todo - {seat}, done + {seat};
        if !Matches(lives[id], name) { continue; }
        assert (set k | k in going + [id]) == (set k | k in going) + {id};
        going := going + [id];
        if drop { held := held - {seat}; }
      }
    }

    lemma OneMoreGone(was: map<Seat, Id>, done: set<Seat>, name: nat, seat: Seat)
      requires forall other :: other in was ==> was[other] < |lives| && lives[was[other]].seat == other
      requires seat in was && seat !in done
      ensures was[seat] !in GoneFrom(was, done, name)
      ensures GoneFrom(was, done + {seat}, name) ==
        GoneFrom(was, done, name) + if Matches(lives[was[seat]], name) then {was[seat]} else {}
    {
    }

    ghost function GoneFrom(was: map<Seat, Id>, seats: set<Seat>, name: nat): set<Id>
      requires forall seat :: seat in was ==> was[seat] < |lives|
      reads this
    {
      set seat | seat in seats && seat in was && Matches(lives[was[seat]], name) :: was[seat]
    }

    /** `sweepStreams`: the stream sessions last seen before the cut leave `held`. */
    method SweepStreams(lastSeen: Id -> int, cut: int) returns (going: seq<Id>)
      requires Shaped(View())
      modifies this`held
      ensures held == Remaining(old(View()), Silent(old(View()), set id: Id | id < |lives| && lastSeen(id) < cut))
      ensures forall id :: id in going <==> exists seat :: seat in old(held) && seat !in held && old(held)[seat] == id
    {
      going := [];
      var was := held;
      var todo := was.Keys;
      while todo != {}
        invariant todo <= was.Keys
        invariant held == map seat | seat in was && (seat in todo || !Going(was[seat], lastSeen, cut)) :: was[seat]
        invariant forall id :: id in going <==> exists seat :: seat in was && seat !in held && was[seat] == id
      {
        var seat :| seat in todo;
        var id := was[seat];
        todo := todo - {seat};
        if !Going(id, lastSeen, cut) { continue; }
        assert seat in held;
        going := going + [id];
        held := held - {seat};
      }
    }

    predicate Going(id: Id, lastSeen: Id -> int, cut: int)
      reads this
    {
      id < |lives| && lives[id].stream && lastSeen(id) < cut
    }

    /** The walk of Forget: it ends because sessions stack in the order they sat down. */
    method Ends(id: Id) returns (ends: seq<Id>)
      requires Shaped(View()) && Stacked(View()) && id < |lives|
      ensures ends == Chain(View(), id)
    {
      ends := [];
      var at: Option<Id> := Some(id);
      while at.Some?
        invariant at.Some? ==> at.value < |lives|
        invariant Chain(View(), id) == ends + if at.Some? then Chain(View(), at.value) else []
        decreases at.Some?, if at.Some? then lives[at.value].turn else 0
      {
        assert StackedOn(View(), at.value, lives[at.value].under);
        ends := ends + [at.value];
        at := lives[at.value].under;
      }
    }

    method Sit(id: Id)
      requires id < |lives|
      modifies this
      ensures View() == AfterSit(old(View()), id)
    {
      var seat := lives[id].seat;
      var was := if seat in held then Some(held[seat]) else None;
      lives := lives[id := lives[id].(stage := Seated, turn := clock, under := was, was := was)];
      held := held[seat := id];
      clock := clock + 1;
    }

    /** The closer's critical section. */
    method Unseat(id: Id)
      requires Shaped(View()) && id < |lives|
      modifies this
      ensures View() == AfterUnseat(old(View()), id)
      ensures var seat, was := old(lives)[id].seat, old(lives)[id].was;
        held ==
          if !(seat in old(held) && old(held)[seat] == id) then old(held)
          else if was.Some? && old(lives)[was.value].kind.Carry? && old(lives)[was.value].stage in {Taken, Seated}
          then old(held)[seat := was.value]
          else old(held) - {seat}
    {
      var seat, was := lives[id].seat, lives[id].was;
      var current := seat in held && held[seat] == id;
      lives := lives[id := lives[id].(under := None)];
      var back := current && was.Some? && lives[was.value].kind.Carry? && !lives[was.value].Over();
      if back {
        held := held[seat := was.value];
      } else if current {
        held := held - {seat};
      }
      lives := lives[id := lives[id].(stage := Unseated)];
    }
  }
}
