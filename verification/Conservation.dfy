/**
 Accounting over whole runs, and the exact meaning of the two rejections that an add can meet
 after its quantity check.
 */
module Conservation {
  import opened Types
  import opened PriceBook
  import opened FlatBook
  import opened Sweep
  import opened Refinement

  // ---------------------------------------------------------------- totals of flat books

  lemma {:induction false} TotalConcat(xs: seq<Order>, ys: seq<Order>)
    ensures Total(xs + ys) == Total(xs) + Total(ys)
    decreases |xs|
  {
    if xs == [] {
      assert xs + ys == ys;
    } else {
      assert (xs + ys)[1..] == xs[1..] + ys;
      TotalConcat(xs[1..], ys);
    }
  }

  lemma TotalAround(flat: Flat, i: nat)
    requires i < |flat|
    ensures Total(flat) == Total(flat[..i]) + flat[i].quantity + Total(flat[i + 1..])
    ensures Total(Without(flat, i)) == Total(flat[..i]) + Total(flat[i + 1..])
  {
    assert flat == flat[..i] + flat[i..];
    TotalConcat(flat[..i], flat[i..]);
    TotalConcat(flat[..i], flat[i + 1..]);
  }

  lemma TotalReduce(flat: Flat, i: nat, q: nat)
    requires i < |flat| && q <= flat[i].quantity
    ensures Total(FlatReduce(flat, i, q)) == Total(flat) - q
  {
    TotalAround(flat, i);
    if q < flat[i].quantity {
      var flat' := FlatReduce(flat, i, q);
      assert flat'[..i] == flat[..i] && flat'[i + 1..] == flat[i + 1..];
      TotalAround(flat', i);
    }
  }

  /** The orders of one side. */
  function OnSide(flat: Flat, side: Side): nat {
    if flat == [] then 0
    else (if flat[0].side == side then flat[0].quantity else 0) + OnSide(flat[1..], side)
  }

  lemma {:induction false} OnSideConcat(xs: Flat, ys: Flat, side: Side)
    ensures OnSide(xs + ys, side) == OnSide(xs, side) + OnSide(ys, side)
    decreases |xs|
  {
    if xs == [] {
      assert xs + ys == ys;
    } else {
      assert (xs + ys)[1..] == xs[1..] + ys;
      OnSideConcat(xs[1..], ys, side);
    }
  }

  lemma {:induction false} OnSideNone(flat: Flat, side: Side)
    requires forall i :: 0 <= i < |flat| ==> flat[i].side != side
    ensures OnSide(flat, side) == 0
    decreases |flat|
  {
    if flat != [] {
      OnSideNone(flat[1..], side);
    }
  }

  lemma {:induction false} PriceTimeTotal(flat: Flat, side: Side)
    ensures Total(PriceTime(flat, side)) == OnSide(flat, side)
    decreases |flat|
  {
    match BestIndex(flat, side)
    case None => OnSideNone(flat, side);
    case Some(i) =>
      hide OnSide, Without, BestIndex;
      PriceTimeTotal(Without(flat, i), side);
      OnSideWithout(flat, i, side);
      assert PriceTime(flat, side)[1..] == PriceTime(Without(flat, i), side);
  }

  lemma OnSideWithout(flat: Flat, i: nat, side: Side)
    requires i < |flat|
    ensures OnSide(flat, side) ==
            OnSide(Without(flat, i), side) + if flat[i].side == side then flat[i].quantity else 0
  {
    assert flat == flat[..i] + flat[i..];
    OnSideConcat(flat[..i], flat[i..], side);
    OnSideConcat(flat[..i], flat[i + 1..], side);
  }

  lemma {:induction false} OnSidesTotal(flat: Flat)
    ensures OnSide(flat, Ask) + OnSide(flat, Bid) == Total(flat)
    decreases |flat|
  {
    if flat != [] {
      OnSidesTotal(flat[1..]);
    }
  }

  /** The listing holds the same total quantity as the flat book. */
  lemma CanonicalTotal(flat: Flat)
    ensures Total(Canonical(flat)) == Total(flat)
  {
    PriceTimeTotal(flat, Ask);
    PriceTimeTotal(flat, Bid);
    OnSidesTotal(flat);
    TotalConcat(PriceTime(flat, Ask), PriceTime(flat, Bid));
  }

  // ---------------------------------------------------------------- one command

  lemma {:induction false} MatchConserves(flat: Flat, taker: Order)
    ensures var m := FlatMatch(flat, taker);
            && Total(flat) == Total(m.flat) + Filled(m.fills)
            && taker.quantity == m.taker.quantity + Filled(m.fills)
    decreases taker.quantity, |flat|
  {
    hide FlatMaker, Total, Filled;
    NothingFilled();
    if taker.quantity > 0 && FlatMaker(flat, taker).Some? {
      var i := FlatMaker(flat, taker).value;
      if flat[i].traderId != taker.traderId {
        var q := Min(taker.quantity, flat[i].quantity);
        MatchConserves(FlatReduce(flat, i, q), taker.(quantity := taker.quantity - q));
        TotalReduce(flat, i, q);
        FilledCons(MakeFill(taker, flat[i], q),
                   FlatMatch(FlatReduce(flat, i, q), taker.(quantity := taker.quantity - q)).fills);
      }
    }
  }

  lemma FilledCons(f: Fill, fills: seq<Fill>)
    ensures Filled([f] + fills) == f.quantity + Filled(fills)
  {
    assert ([f] + fills)[1..] == fills;
  }

  function SubmittedBy(c: Command): nat {
    if c.NewOrder? then c.order.quantity else 0
  }

  function FilledBy(r: Response): nat {
    if r.Added? then Filled(r.fills) else 0
  }

  function CancelledBy(r: Response): nat {
    if r.Cancelled? && r.cancel.Ok? then r.cancel.value.quantity else 0
  }

  /** Quantity of the taker that neither traded nor rests: self-trade prevention and rejections. */
  function DiscardedBy(c: Command, r: Response): int {
    if c.NewOrder? && r.Added? && (r.add.Err? || r.add.value.status.CancelledSelfTrade?)
    then c.order.quantity - Filled(r.fills)
    else 0
  }

  /** One command moves quantity between the accounts and loses none. */
  ghost predicate Balanced(flat: Flat, c: Command, a: FlatApplied) {
    && DiscardedBy(c, a.response) >= 0
    && Total(flat) + SubmittedBy(c) ==
       Total(a.flat) + CancelledBy(a.response) + DiscardedBy(c, a.response) + 2 * FilledBy(a.response)
  }

  lemma ApplyConserves(flat: Flat, capacity: nat, c: Command)
    ensures Balanced(flat, c, FlatApply(flat, capacity, c))
  {
    match c
    case NewOrder(o) => AddConserves(flat, capacity, o);
    case CancelOrder(id) =>
      hide Total;
      if FlatHasId(flat, id) {
        TotalAround(flat, Position(flat, id));
      }
  }

  lemma AddConserves(flat: Flat, capacity: nat, o: Order)
    ensures Balanced(flat, NewOrder(o), FlatAdd(flat, capacity, o))
  {
    hide FlatMatch, FlatHasId, Total, Filled;
    assert Filled([]) == 0 by { NothingFilled(); }
    MatchConserves(flat, o);
    TotalAppend(FlatMatch(flat, o).flat, FlatMatch(flat, o).taker);
  }

  lemma NothingFilled()
    ensures Filled([]) == 0
  {
  }

  lemma TotalAppend(flat: Flat, o: Order)
    ensures Total(flat + [o]) == Total(flat) + o.quantity
  {
    TotalConcat(flat, [o]);
    assert [o][1..] == [];
  }

  // ---------------------------------------------------------------- whole runs

  datatype Sums = Sums(submitted: int, cancelled: int, discarded: int, filled: int)

  function RunSums(cmds: seq<Command>, responses: seq<Response>): Sums
    requires |cmds| == |responses|
    decreases |cmds|
  {
    if cmds == [] then Sums(0, 0, 0, 0)
    else
      var rest := RunSums(cmds[1..], responses[1..]);
      Sums(rest.submitted + SubmittedBy(cmds[0]),
           rest.cancelled + CancelledBy(responses[0]),
           rest.discarded + DiscardedBy(cmds[0], responses[0]),
           rest.filled + FilledBy(responses[0]))
  }

  lemma {:induction false} FlatRunConserves(flat: Flat, capacity: nat, cmds: seq<Command>)
    ensures var s := RunSums(cmds, FlatResponses(flat, capacity, cmds));
            Total(flat) + s.submitted ==
            Total(FlatReplay(flat, capacity, cmds)) + s.cancelled + s.discarded + 2 * s.filled
    decreases |cmds|
  {
    if cmds != [] {
      ApplyConserves(flat, capacity, cmds[0]);
      hide FlatApply, Total, SubmittedBy, FilledBy, CancelledBy, DiscardedBy;
      var flat' := FlatApply(flat, capacity, cmds[0]).flat;
      FlatRunConserves(flat', capacity, cmds[1..]);
      assert FlatResponses(flat, capacity, cmds)[1..] == FlatResponses(flat', capacity, cmds[1..]);
    }
  }

  /**
   Over every run of the engine model, the submitted quantity is what rests in the listing,
   plus what was cancelled, plus what was discarded, plus twice what was filled. Fills made
   before a rejection are counted.
   */
  lemma RunConserves(capacity: nat, cmds: seq<Command>)
    ensures WF(Empty(capacity))
    ensures var s := RunSums(cmds, Responses(Empty(capacity), cmds));
            s.submitted ==
            Total(Listing(Replay(Empty(capacity), cmds))) + s.cancelled + s.discarded + 2 * s.filled
  {
    RunAgrees(capacity, cmds);
    FlatRunConserves([], capacity, cmds);
    CanonicalTotal(FlatReplay([], capacity, cmds));
  }

  // ---------------------------------------------------------------- rejections

  /** A full arena rejects exactly the new ids that cross nothing, and changes nothing. */
  lemma ArenaFullExactly(b: Book, o: Order)
    requires WF(b)
    ensures Add(b, o).result == Err(InBook(ArenaFull)) <==>
            && o.quantity > 0
            && CrossingMaker(b, o).None?
            && o.id !in b.index
            && |b.index| == b.capacity
    ensures Add(b, o).result == Err(InBook(ArenaFull)) ==> Add(b, o).book == b && Add(b, o).fills == []
  {
    hide LevelsOk, IndexOk, CrossingMaker, Match;
    MatchKeeps(b, o);
    if CrossingMaker(b, o).None? {
      NoMakerNoMatch(b, o);
    }
  }

  lemma NoMakerNoMatch(b: Book, o: Order)
    requires Consistent(b) && CrossingMaker(b, o).None?
    ensures Match(b, o) == MatchOutcome(b, o, [], false)
  {
    hide Consistent, CrossingMaker;
  }

  /**
   The order outlasts every maker it may trade with, stops at a price that does not cross, and
   its id rests in the book on an order that is not one of those makers.
   */
  ghost predicate Collides(b: Book, o: Order) {
    var queue := Queue(b.levels, Opposite(o.side));
    var n := Eligible(queue, o);
    && o.quantity > Total(queue[..n])
    && (n == |queue| || !Crosses(o, queue[n].price))
    && o.id in b.index
    && !HasId(queue[..n], o.id)
  }

  /** Which adds are refused as duplicates, from what is known before the call. */
  lemma DuplicateExactly(b: Book, o: Order)
    requires Consistent(b)
    ensures Add(b, o).result == Err(InBook(DuplicateOrderId(o.id))) <==> Collides(b, o)
  {
    hide Consistent, Match, Queue, Eligible, Total, Filled, ConsumesFront, Leaves, Crosses, HasId;
    FillsAreGreedy(b, o);
    MatchKeeps(b, o);
    MatchIndex(b, o, o.id);
  }

  /** A duplicate id leaves the fills applied and the remainder nowhere. */
  lemma DuplicateKeepsFills(b: Book, o: Order)
    requires WF(b) && Collides(b, o)
    ensures Add(b, o).book == Match(b, o).book
    ensures Add(b, o).fills == Match(b, o).fills
    ensures o.id in b.index && o.id in Add(b, o).book.index
    ensures Add(b, o).book.index[o.id] == b.index[o.id]
  {
    hide Consistent, Match, Collides;
    DuplicateExactly(b, o);
    MatchKeeps(b, o);
    MatchIndexShrinks(b, o);
  }

  /** The three ways an add is refused, each from what is known before the call. */
  ghost predicate MustRefuse(b: Book, o: Order)
    requires Consistent(b)
  {
    || o.quantity == 0
    || Collides(b, o)
    || (CrossingMaker(b, o).None? && o.id !in b.index && |b.index| == b.capacity)
  }

  lemma RefusedExactly(b: Book, o: Order)
    requires WF(b)
    ensures Add(b, o).result.Err? <==> MustRefuse(b, o)
  {
    hide Consistent, Match, CrossingMaker, Collides;
    DuplicateExactly(b, o);
    ArenaFullExactly(b, o);
    MatchKeeps(b, o);
  }

  lemma {:induction false} MatchIndexShrinks(b: Book, taker: Order)
    requires Consistent(b)
    ensures forall id | id in Match(b, taker).book.index ::
              id in b.index && Match(b, taker).book.index[id] == b.index[id]
    decreases taker.quantity, |b.index|
  {
    hide Consistent, CrossingMaker;
    if taker.quantity > 0 && CrossingMaker(b, taker).Some? {
      var maker := CrossingMaker(b, taker).value;
      if maker.traderId != taker.traderId {
        var q := Min(taker.quantity, maker.quantity);
        ReduceFrontConsistent(b, KeyOf(maker), q);
        MatchIndexShrinks(ReduceFront(b, KeyOf(maker), q), taker.(quantity := taker.quantity - q));
      }
    }
  }

  /** A refused add leaves the book as it was exactly when it had nothing to trade with. */
  lemma RefusedAddUnchanged(b: Book, o: Order)
    requires WF(b) && MustRefuse(b, o)
    ensures Add(b, o).book == b <==> o.quantity == 0 || CrossingMaker(b, o).None?
    ensures Add(b, o).fills == [] <==> o.quantity == 0 || CrossingMaker(b, o).None?
  {
    hide Consistent, CrossingMaker, Insert, MustRefuse;
    RefusedExactly(b, o);
    MatchKeeps(b, o);
  }

  /**
   A duplicate id can be rejected after real fills: an order rests as a bid, another as an ask,
   and a second order with the first id takes all of the ask before its remainder is refused.
   */
  lemma DuplicateAfterFills(resting: Order, maker: Order, taker: Order, capacity: nat)
    requires resting.side.Bid? && maker.side.Ask? && taker.side.Bid? && resting.quantity > 0
    requires taker.id == resting.id != maker.id && maker.traderId != taker.traderId
    requires resting.price < maker.price <= taker.price && taker.quantity > maker.quantity > 0
    requires capacity >= 2
    ensures FlatReplay([], capacity, [NewOrder(resting), NewOrder(maker)]) == [resting, maker]
    ensures FlatApply([resting, maker], capacity, NewOrder(taker)) ==
            FlatApplied([resting],
                        Added(Err(InBook(DuplicateOrderId(taker.id))),
                              [Fill(taker.id, maker.id, maker.price, maker.quantity, true)]))
  {
    RestsAlone([], resting, capacity);
    RestsAlone([resting], maker, capacity);
    TwoSteps([NewOrder(resting), NewOrder(maker)], capacity, resting, maker);
    TakesSecond(resting, maker, taker, capacity);
  }

  lemma TwoSteps(cmds: seq<Command>, capacity: nat, resting: Order, maker: Order)
    requires |cmds| == 2
    requires FlatApply([], capacity, cmds[0]).flat == [resting]
    requires FlatApply([resting], capacity, cmds[1]).flat == [resting, maker]
    ensures FlatReplay([], capacity, cmds) == [resting, maker]
  {
    hide FlatApply;
    assert cmds[1..][0] == cmds[1] && cmds[1..][1..] == [];
    assert FlatReplay([resting], capacity, cmds[1..]) == FlatReplay([resting, maker], capacity, []);
  }

  /** An order that finds no maker and a free id and slot is appended. */
  lemma RestsAlone(flat: Flat, o: Order, capacity: nat)
    requires o.quantity > 0 && |flat| < capacity
    requires FlatMaker(flat, o).None? && !FlatHasId(flat, o.id)
    ensures FlatApply(flat, capacity, NewOrder(o)).flat == flat + [o]
  {
  }

  lemma TakesSecond(resting: Order, maker: Order, taker: Order, capacity: nat)
    requires resting.side.Bid? && maker.side.Ask? && taker.side.Bid? && resting.quantity > 0
    requires taker.id == resting.id && maker.traderId != taker.traderId
    requires maker.price <= taker.price && taker.quantity > maker.quantity > 0
    ensures FlatApply([resting, maker], capacity, NewOrder(taker)) ==
            FlatApplied([resting],
                        Added(Err(InBook(DuplicateOrderId(taker.id))),
                              [Fill(taker.id, maker.id, maker.price, maker.quantity, true)]))
  {
    var flat := [resting, maker];
    var left := taker.(quantity := taker.quantity - maker.quantity);
    assert flat[0] == resting && flat[1] == maker;
    assert FlatMaker(flat, taker) == Some(1);
    assert FlatReduce(flat, 1, maker.quantity) == [resting];
    assert FlatMaker([resting], left) == None;
    assert FlatMatch([resting], left) == FlatMatched([resting], left, [], false);
    assert FlatMatch(flat, taker) ==
           FlatMatched([resting], left, [MakeFill(taker, maker, maker.quantity)], false);
    assert FlatHasId([resting], taker.id) by { assert [resting][0].id == taker.id; }
  }
}
