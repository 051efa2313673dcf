/** The matching engine: price-time matching over the order book. */
module MatchingEngines {
  import opened Types
  import opened PriceBook
  import opened FlatBook
  import opened Refinement
  import opened Laws
  import opened Restore
  import opened BookHeap
  import opened OrderBooks

  /** One fill between the taker and the front maker, at the maker's price, for the smaller quantity. */
  ghost predicate Traded(b: Book, b': Book, taker: Order, taker': Order, maker: Order, fills: seq<Fill>, fills': seq<Fill>)
    requires Consistent(b) && CrossingMaker(b, taker) == Some(maker)
  {
    var q := Min(taker.quantity, maker.quantity);
    && b' == ReduceFront(b, KeyOf(maker), q)
    && taker' == taker.(quantity := taker.quantity - q)
    && fills' == fills + [MakeFill(taker, maker, q)]
  }

  class MatchingEngine {
    const book: OrderBook
    var fillsBuf: seq<Fill>

    ghost predicate Valid()
      reads this, book, book.arena, book.arena.storage
    {
      book.Valid()
    }

    ghost function Model(): Book
      reads this, book, book.arena, book.arena.storage
    {
      book.Model()
    }

    constructor (capacity: U32)
      ensures Valid() && fresh(book) && fresh(book.arena) && fresh(book.arena.storage)
      ensures Model() == Empty(capacity) && fillsBuf == []
    {
      book := new OrderBook(capacity);
      fillsBuf := [];
    }

    /** The next maker to trade with: the front of the best opposite level, if it crosses. */
    method NextMaker(taker: Order) returns (r: Option<Order>)
      requires Valid()
      ensures Consistent(Model()) && r == CrossingMaker(Model(), taker)
    {
      hide Consistent, BestPrice, Good, Abs, Mirrors, CrossingMaker;
      var makerSide := Opposite(taker.side);
      BestsOf(book);
      MakerAt(Model(), taker);
      var best := if makerSide.Bid? then book.bestBid else book.bestAsk;
      if best.None? || !Crosses(taker, best.value) {
        return None;
      }
      r := book.PeekFront(makerSide, best.value);
    }

    /** Trade with `maker` once; `reduce_front_quantity` never reports an error here. */
    method Trade(taker: Order, maker: Order) returns (taker': Order)
      requires Valid() && Consistent(Model())
      requires CrossingMaker(Model(), taker) == Some(maker)
      modifies this, book, book.arena, book.arena.storage
      ensures Valid()
      ensures Traded(old(Model()), Model(), taker, taker', maker, old(fillsBuf), fillsBuf)
    {
      hide Consistent, Good, Abs, Mirrors, CrossingMaker, ReduceFront;
      var fillQty := Min(taker.quantity, maker.quantity);
      var reduced := book.ReduceFrontQuantity(maker.side, maker.price, fillQty);
      assert reduced.Ok?;
      fillsBuf := fillsBuf + [Fill(taker.id, maker.id, maker.price, fillQty, reduced.value == 0)];
      taker' := taker.(quantity := taker.quantity - fillQty);
    }

    /**
     Match an order, then rest what is left of it. Every outcome, with the fills made before a
     rejection, is that of the price-level book; a zero quantity touches nothing.
     */
    method AddOrder(order: Order) returns (r: Result<AddResult, MatchingError>)
      requires Valid()
      modifies this, book, book.arena, book.arena.storage
      ensures Valid() && Consistent(old(Model()))
      ensures Add(old(Model()), order) ==
              AddOutcome(Model(), r, if order.quantity == 0 then [] else fillsBuf)
      ensures order.quantity == 0 ==> fillsBuf == old(fillsBuf)
    {
      hide Match, Consistent, Insert, OrderBook.Valid, OrderBook.Model;
      BestsOf(book);
      if order.quantity == 0 {
        return Err(ZeroQuantity);
      }
      fillsBuf := [];
      var taker, selfTrade := MatchLoop(order);
      if selfTrade {
        r := Ok(AddResult(order.id, CancelledSelfTrade, fillsBuf));
      } else if taker.quantity == 0 {
        r := Ok(AddResult(order.id, FullyFilled, fillsBuf));
      } else {
        var refused := book.InsertOrder(taker);
        if refused.Some? {
          r := Err(InBook(refused.value));
        } else {
          r := Ok(AddResult(order.id, if fillsBuf == [] then Resting else PartiallyFilled, fillsBuf));
        }
      }
    }

    method CancelOrder(id: OrderId) returns (r: Result<Order, MatchingError>)
      requires Valid()
      modifies this, book, book.arena, book.arena.storage
      ensures Valid() && fillsBuf == old(fillsBuf) && Consistent(old(Model()))
      ensures Cancel(old(Model()), id).book == Model()
      ensures r == match Cancel(old(Model()), id).result
                   case Ok(o) => Ok(o)
                   case Err(e) => Err(InBook(e))
    {
      hide Consistent, Cancel, OrderBook.Valid, OrderBook.Model;
      BestsOf(book);
      var c := book.CancelOrder(id);
      match c {
        case Ok(o) => r := Ok(o);
        case Err(e) => r := Err(InBook(e));
      }
    }

    /** One command, as recovery and the gateway apply it. */
    method Execute(c: Command) returns (response: Response)
      requires Valid()
      modifies this, book, book.arena, book.arena.storage
      ensures Valid() && Consistent(old(Model()))
      ensures Apply(old(Model()), c) == Applied(Model(), response)
    {
      hide Consistent, Add, Cancel, OrderBook.Valid, OrderBook.Model;
      match c {
        case NewOrder(o) =>
          var r := AddOrder(o);
          response := Added(r, if o.quantity == 0 then [] else fillsBuf);
        case CancelOrder(id) =>
          var r := CancelOrder(id);
          match r {
            case Ok(o) => response := Cancelled(Ok(o));
            case Err(e) =>
              assert e.InBook?;
              response := Cancelled(Err(e.error));
          }
      }
    }

    /** The match loop: trade with the front of the other side while it crosses. */
    method MatchLoop(order: Order) returns (taker: Order, selfTrade: bool)
      requires Valid() && fillsBuf == []
      modifies this, book, book.arena, book.arena.storage
      ensures Valid() && Consistent(old(Model()))
      ensures Match(old(Model()), order) == MatchOutcome(Model(), taker, fillsBuf, selfTrade)
    {
      hide Match, Consistent, ReduceFront, Resumes, CrossingMaker, OrderBook.Valid, OrderBook.Model;
      BestsOf(book);
      ghost var whole := Match(Model(), order);
      StartsWhole(Model(), order);
      taker, selfTrade := order, false;
      while taker.quantity > 0
        invariant Valid() && !selfTrade
        invariant Resumes(whole, fillsBuf, Model(), taker)
        decreases taker.quantity, |Model().index|
      {
        var next := NextMaker(taker);
        if next.None? {
          StepStops(whole, fillsBuf, Model(), taker);
          break;
        }
        var maker := next.value;
        if maker.traderId == taker.traderId {
          StepStops(whole, fillsBuf, Model(), taker);
          selfTrade := true;
          break;
        }
        StepFills(whole, fillsBuf, Model(), taker, maker);
        taker := Trade(taker, maker);
      }
      if taker.quantity == 0 {
        NothingLeft(whole, fillsBuf, Model(), taker);
      }
    }
  }

  /** Insert the orders directly, without matching; the first refusal ends the restore. */
  method RestoreFromOrders(orders: seq<Order>, capacity: U32) returns (engine: MatchingEngine, refused: Option<BookError>)
    ensures fresh(engine) && fresh(engine.book) && fresh(engine.book.arena) && fresh(engine.book.arena.storage)
    ensures engine.Valid()
    ensures refused.None? ==> InsertAll(Empty(capacity), orders) == Ok(engine.Model())
    ensures refused.Some? ==> InsertAll(Empty(capacity), orders) == Err(refused.value)
  {
    hide Insert, InsertAll, OrderBook.Valid, OrderBook.Model;
    engine := new MatchingEngine(capacity);
    refused := None;
    InsertAllNone(Empty(capacity));
    var i := 0;
    while i < |orders| && refused.None?
      invariant 0 <= i <= |orders| && engine.Valid()
      invariant fresh(engine) && fresh(engine.book) && fresh(engine.book.arena) && fresh(engine.book.arena.storage)
      invariant refused.None? ==> InsertAll(Empty(capacity), orders[..i]) == Ok(engine.Model())
      invariant refused.Some? ==> InsertAll(Empty(capacity), orders) == Err(refused.value)
      decreases |orders| - i, refused.None?
    {
      ghost var b := engine.Model();
      refused := engine.book.InsertOrder(orders[i]);
      InsertNext(Empty(capacity), orders, i, b);
      i := i + 1;
    }
    assert refused.None? ==> orders[..i] == orders;
  }

  lemma InsertAllNone(b: Book)
    ensures InsertAll(b, []) == Ok(b)
  {
  }

  lemma InsertNext(b0: Book, orders: seq<Order>, i: nat, b: Book)
    requires i < |orders| && InsertAll(b0, orders[..i]) == Ok(b)
    ensures InsertAll(b0, orders[..i + 1]) == Insert(b, orders[i])
    ensures Insert(b, orders[i]).Err? ==> InsertAll(b0, orders) == Err(Insert(b, orders[i]).error)
  {
    hide Insert, InsertAll;
    assert orders[..i + 1] == orders[..i] + [orders[i]];
    InsertAllAppend(b0, orders[..i], orders[i]);
    if Insert(b, orders[i]).Err? {
      InsertAllStops(b0, orders, i + 1);
    }
  }

  lemma {:induction false} InsertAllStops(b0: Book, orders: seq<Order>, n: nat)
    requires n <= |orders| && InsertAll(b0, orders[..n]).Err?
    ensures InsertAll(b0, orders) == InsertAll(b0, orders[..n])
    decreases |orders| - n
  {
    hide InsertAll;
    if n == |orders| {
      assert orders[..n] == orders;
    } else {
      assert orders[..n + 1] == orders[..n] + [orders[n]];
      InsertAllFails(b0, orders[..n], orders[n]);
      InsertAllStops(b0, orders, n + 1);
    }
  }

  /** Run commands one after the other. */
  method RunCommands(engine: MatchingEngine, cmds: seq<Command>) returns (responses: seq<Response>)
    requires engine.Valid()
    modifies engine, engine.book, engine.book.arena, engine.book.arena.storage
    ensures engine.Valid() && Consistent(old(engine.Model()))
    ensures engine.Model() == Replay(old(engine.Model()), cmds)
    ensures responses == Responses(old(engine.Model()), cmds)
  {
    hide Apply, Consistent, OrderBook.Valid, OrderBook.Model;
    BestsOf(engine.book);
    ghost var b := engine.Model();
    responses := [];
    assert cmds[..0] == [];
    for i := 0 to |cmds|
      invariant engine.Valid()
      invariant engine.Model() == Replay(b, cmds[..i])
      invariant responses == Responses(b, cmds[..i])
    {
      var response := engine.Execute(cmds[i]);
      responses := responses + [response];
      RunNext(b, cmds, i);
    }
    assert cmds[..|cmds|] == cmds;
  }

  /** A run of an engine, and what it shows at the end. */
  datatype Shown = Shown(
    responses: seq<Response>, listing: seq<Order>, bestBid: Option<Price>, bestAsk: Option<Price>, count: nat)

  method Show(engine: MatchingEngine, cmds: seq<Command>) returns (r: Shown)
    requires engine.Valid()
    modifies engine, engine.book, engine.book.arena, engine.book.arena.storage
    ensures engine.Valid() && Consistent(old(engine.Model()))
    ensures var b := Replay(old(engine.Model()), cmds);
            && engine.Model() == b
            && r == Shown(Responses(old(engine.Model()), cmds), Listing(b), BestPrice(b, Bid), BestPrice(b, Ask), |b.index|)
  {
    hide Apply, Consistent, OrderBook.Valid, OrderBook.Model, BestPrice, Listing, Replay, Responses;
    var responses := RunCommands(engine, cmds);
    var listing := engine.book.AllRestingOrders();
    BestsOf(engine.book);
    var count := engine.book.OrderCount();
    r := Shown(responses, listing, engine.book.bestBid, engine.book.bestAsk, count);
  }

  /**
   A whole run of a new engine, and what it shows at the end. Everything is that of the flat
   reference book, and the best prices never cross.
   */
  method RunEngine(capacity: U32, cmds: seq<Command>) returns (r: Shown)
    ensures var flat := FlatReplay([], capacity, cmds);
            r == Shown(FlatResponses([], capacity, cmds), Canonical(flat), FlatBestPrice(flat, Bid),
                       FlatBestPrice(flat, Ask), |flat|)
    ensures r.bestBid.Some? && r.bestAsk.Some? ==> r.bestBid.value < r.bestAsk.value
    ensures Positive(r.listing)
    ensures |r.responses| == |cmds| && forall i :: 0 <= i < |cmds| ==> Truthful(cmds[i], r.responses[i])
  {
    hide Apply, Consistent, OrderBook.Valid, OrderBook.Model, BestPrice, Listing, FlatResponses, FlatReplay, Canonical,
         FlatBestPrice, Replay, Responses, Uncrossed, Positive, Truthful;
    var engine := new MatchingEngine(capacity);
    RunAgrees(capacity, cmds);
    BestsApart(Replay(Empty(capacity), cmds));
    NothingPositive();
    CanonicalPositive(FlatReplay([], capacity, cmds));
    forall i | 0 <= i < |cmds|
      ensures Truthful(cmds[i], FlatResponses([], capacity, cmds)[i])
    {
      RunsAreTruthful([], capacity, cmds, i);
    }
    r := Show(engine, cmds);
  }

  lemma BestsApart(b: Book)
    requires WF(b)
    ensures BestPrice(b, Bid).Some? && BestPrice(b, Ask).Some? ==> BestPrice(b, Bid).value < BestPrice(b, Ask).value
  {
    hide Consistent, BestPrice;
    BestPriceIsBest(b, Bid);
    BestPriceIsBest(b, Ask);
  }

  /**
   Capture an engine, restore the capture into a new one of the same capacity, and run the same
   commands on both. The restored engine has its own arena, filled in listing order, and yet
   nothing that the two show differs.
   */
  method RunRestored(engine: MatchingEngine, later: seq<Command>)
    returns (twin: MatchingEngine, refused: Option<BookError>, shown: Shown, twinShown: Shown)
    requires engine.Valid()
    modifies engine, engine.book, engine.book.arena, engine.book.arena.storage
    ensures refused.None? && shown == twinShown
    ensures shown.responses == Responses(old(engine.Model()), later)
    ensures engine.Valid() && twin.Valid() && twin.Model() == engine.Model()
    ensures fresh(twin) && fresh(twin.book) && fresh(twin.book.arena) && fresh(twin.book.arena.storage)
  {
    hide Apply, Consistent, OrderBook.Valid, OrderBook.Model, BestPrice, Listing, Replay, Responses, InsertAll;
    BestsOf(engine.book);
    var orders := engine.book.AllRestingOrders();
    RestoreListing(engine.Model());
    CapacityOf(engine.book);
    twin, refused := RestoreFromOrders(orders, engine.book.arena.capacity);
    shown := Show(engine, later);
    twinShown := Show(twin, later);
  }

  lemma CapacityOf(book: OrderBook)
    requires book.Valid()
    ensures book.Model().capacity == book.arena.capacity
  {
  }

  lemma RunNext(b: Book, cmds: seq<Command>, i: nat)
    requires Consistent(b) && i < |cmds|
    ensures var a := Apply(Replay(b, cmds[..i]), cmds[i]);
            && Replay(b, cmds[..i + 1]) == a.book
            && Responses(b, cmds[..i + 1]) == Responses(b, cmds[..i]) + [a.response]
  {
    assert cmds[..i + 1] == cmds[..i] + [cmds[i]];
    hide Apply, Consistent;
    RunAppend(b, cmds[..i], cmds[i]);
  }

  lemma {:induction false} RunAppend(b: Book, cmds: seq<Command>, c: Command)
    requires Consistent(b)
    ensures Replay(b, cmds + [c]) == Apply(Replay(b, cmds), c).book
    ensures Responses(b, cmds + [c]) == Responses(b, cmds) + [Apply(Replay(b, cmds), c).response]
    decreases |cmds|
  {
    hide Apply, Consistent, WF;
    if cmds == [] {
      ApplyWF(b, c);
      assert [c][1..] == [];
    } else {
      ApplyWF(b, cmds[0]);
      assert (cmds + [c])[1..] == cmds[1..] + [c];
      RunAppend(Apply(b, cmds[0]).book, cmds[1..], c);
    }
  }

  /** Matching `taker` against `b` continues a match whose outcome is `whole` after `fills`. */
  ghost predicate Resumes(whole: MatchOutcome, fills: seq<Fill>, b: Book, taker: Order) {
    && Consistent(b)
    && var rest := Match(b, taker);
       whole == rest.(fills := fills + rest.fills)
  }

  lemma BestsOf(book: OrderBook)
    requires book.Valid()
    ensures Consistent(book.Model())
    ensures book.bestBid == BestPrice(book.Model(), Bid) && book.bestAsk == BestPrice(book.Model(), Ask)
  {
    hide Consistent, BestPrice, Abs, Mirrors;
  }

  lemma StartsWhole(b: Book, order: Order)
    requires Consistent(b)
    ensures Resumes(Match(b, order), [], b, order)
  {
    hide Match, Consistent;
    assert [] + Match(b, order).fills == Match(b, order).fills;
  }

  lemma NothingLeft(whole: MatchOutcome, fills: seq<Fill>, b: Book, taker: Order)
    requires Resumes(whole, fills, b, taker) && taker.quantity == 0
    ensures whole == MatchOutcome(b, taker, fills, false)
  {
    hide Consistent;
    assert fills + [] == fills;
  }

  /** What the cached best price and the front of its level say about the next maker. */
  lemma MakerAt(b: Book, taker: Order)
    requires Consistent(b)
    ensures var side := Opposite(taker.side);
            var best := BestPrice(b, side);
            if best.None? || !Crosses(taker, best.value) then CrossingMaker(b, taker).None?
            else
              var k := Key(side, best.value);
              && k in b.levels && b.levels[k] != []
              && CrossingMaker(b, taker) == Some(b.levels[k][0])
              && KeyOf(b.levels[k][0]) == k
  {
    var side := Opposite(taker.side);
    BestPriceIsBest(b, side);
    if BestPrice(b, side).Some? {
      var k := Key(side, BestPrice(b, side).value);
      assert LevelOk(b.levels[k], k, b.index);
    }
    hide Consistent, BestPrice;
  }

  lemma StepStops(whole: MatchOutcome, fills: seq<Fill>, b: Book, taker: Order)
    requires Resumes(whole, fills, b, taker)
    requires CrossingMaker(b, taker).None? || CrossingMaker(b, taker).value.traderId == taker.traderId
    requires taker.quantity > 0
    ensures whole == MatchOutcome(b, taker, fills, CrossingMaker(b, taker).Some?)
  {
    hide Consistent, CrossingMaker;
    assert fills + [] == fills;
  }

  lemma StepFills(whole: MatchOutcome, fills: seq<Fill>, b: Book, taker: Order, maker: Order)
    requires Resumes(whole, fills, b, taker) && taker.quantity > 0
    requires CrossingMaker(b, taker) == Some(maker) && maker.traderId != taker.traderId
    ensures var q := Min(taker.quantity, maker.quantity);
            var k := KeyOf(maker);
            && Resumes(whole, fills + [MakeFill(taker, maker, q)], ReduceFront(b, k, q),
                       taker.(quantity := taker.quantity - q))
            && (q > 0 || |ReduceFront(b, k, q).index| < |b.index|)
  {
    var q := Min(taker.quantity, maker.quantity);
    hide Consistent, CrossingMaker, ReduceFront;
    ReduceFrontConsistent(b, KeyOf(maker), q);
    var rest := Match(ReduceFront(b, KeyOf(maker), q), taker.(quantity := taker.quantity - q));
    assert fills + ([MakeFill(taker, maker, q)] + rest.fills) == fills + [MakeFill(taker, maker, q)] + rest.fills;
  }
}
