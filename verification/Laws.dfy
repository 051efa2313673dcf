/**
 What a trader may rely on, in prices and quantities alone: limits are kept, priority is by price
 and then by time, nobody trades with himself, and every answer says what happened.
 */
module Laws {
  import opened Types
  import opened PriceBook
  import opened Sweep
  import opened FlatBook
  import opened Conservation

  /** A price the order is willing to trade at. */
  predicate WithinLimit(o: Order, price: Price) {
    if o.side.Bid? then price <= o.price else price >= o.price
  }

  // ---------------------------------------------------------------- one add

  /** The queue of a side: bids from the highest price down, asks from the lowest up. */
  ghost predicate BestFirst(queue: seq<Order>, side: Side) {
    && (forall i :: 0 <= i < |queue| ==> queue[i].side == side)
    && (forall i, j :: 0 <= i < j < |queue| ==>
          if side.Bid? then queue[i].price >= queue[j].price else queue[i].price <= queue[j].price)
  }

  lemma {:induction false} QueueBestFirst(b: Book, levels: Levels, side: Side)
    requires Consistent(b)
    requires levels.Keys <= b.levels.Keys && forall k | k in levels :: levels[k] == b.levels[k]
    ensures BestFirst(Queue(levels, side), side)
    ensures forall i :: 0 <= i < |Queue(levels, side)| ==> KeyOf(Queue(levels, side)[i]) in levels
    decreases |levels|
  {
    hide Consistent, BestFirst;
    QueueSplits(levels, side);
    match Extreme(Prices(levels, side), side)
    case None =>
      NothingBestFirst(side);
    case Some(p) =>
      var k := Key(side, p);
      LevelKeyed(b, k);
      QueueBestFirst(b, levels - {k}, side);
      RestBehind(levels, side, p, Queue(levels - {k}, side));
      FrontLevel(levels[k], Queue(levels - {k}, side), k);
  }

  /** The queue as its best level and the queue of the others. */
  lemma QueueSplits(levels: Levels, side: Side)
    ensures match Extreme(Prices(levels, side), side)
            case None => Queue(levels, side) == []
            case Some(p) =>
              var k := Key(side, p);
              && k in levels && |levels - {k}| < |levels| && (levels - {k}).Keys <= levels.Keys
              && Queue(levels, side) == levels[k] + Queue(levels - {k}, side)
  {
    ExtremeIsKey(levels, side);
    match Extreme(Prices(levels, side), side)
    case None =>
    case Some(p) => MapShrinks(levels, Key(side, p));
  }

  lemma NothingBestFirst(side: Side)
    ensures BestFirst([], side)
  {
  }

  lemma LevelKeyed(b: Book, k: Key)
    requires Consistent(b) && k in b.levels
    ensures forall i :: 0 <= i < |b.levels[k]| ==> KeyOf(b.levels[k][i]) == k
  {
    assert LevelOk(b.levels[k], k, b.index);
  }

  /** What queues behind the best level has no better price. */
  lemma RestBehind(levels: Levels, side: Side, p: Price, rest: seq<Order>)
    requires Extreme(Prices(levels, side), side) == Some(p)
    requires BestFirst(rest, side) && forall i :: 0 <= i < |rest| ==> KeyOf(rest[i]) in levels
    ensures forall i :: 0 <= i < |rest| ==> if side.Bid? then p >= rest[i].price else p <= rest[i].price
  {
    forall i | 0 <= i < |rest|
      ensures rest[i].price in Prices(levels, side)
    {
      assert KeyOf(rest[i]).side == side;
    }
  }

  lemma FrontLevel(level: seq<Order>, rest: seq<Order>, k: Key)
    requires forall i :: 0 <= i < |level| ==> KeyOf(level[i]) == k
    requires BestFirst(rest, k.side)
    requires forall i :: 0 <= i < |rest| ==> if k.side.Bid? then k.price >= rest[i].price else k.price <= rest[i].price
    ensures BestFirst(level + rest, k.side)
  {
    var queue := level + rest;
    forall i | 0 <= i < |queue|
      ensures queue[i] == if i < |level| then level[i] else rest[i - |level|]
    {
    }
  }

  /** Fill `i` of an add: with the `i`-th order of the other side, another trader's, at its price, within the limit. */
  ghost predicate FairFill(o: Order, queue: seq<Order>, fills: seq<Fill>, i: nat)
    requires i < |fills|
  {
    && i < |queue|
    && fills[i].takerOrderId == o.id
    && fills[i].makerOrderId == queue[i].id
    && fills[i].price == queue[i].price
    && fills[i].quantity <= queue[i].quantity
    && queue[i].traderId != o.traderId
    && WithinLimit(o, fills[i].price)
  }

  /**
   An add fills from the front of the other side, best price first, never beyond its limit and
   never against its own trader; if quantity is left to rest, no price within its limit is left.
   */
  lemma FillsAreFair(b: Book, o: Order)
    requires Consistent(b)
    ensures var queue := Queue(b.levels, Opposite(o.side));
            var m := Match(b, o);
            && BestFirst(queue, Opposite(o.side))
            && (forall i :: 0 <= i < |m.fills| ==> FairFill(o, queue, m.fills, i))
            && (m.taker.quantity > 0 && !m.selfTrade ==>
                  forall k | k in m.book.levels && k.side != o.side :: !WithinLimit(o, k.price))
  {
    hide Consistent, Match, Queue, Total, Filled, Leaves, BestFirst;
    QueueBestFirst(b, b.levels, Opposite(o.side));
    FillsAreGreedy(b, o);
    MatchKeeps(b, o);
    var m := Match(b, o);
    if m.taker.quantity > 0 && !m.selfTrade {
      NothingWithin(m.book, m.taker);
    }
  }

  lemma NothingWithin(b: Book, o: Order)
    requires Consistent(b) && CrossingMaker(b, o).None?
    ensures forall k | k in b.levels && k.side != o.side :: !WithinLimit(o, k.price)
  {
    hide Consistent, BestPrice;
    BestPriceIsBest(b, Opposite(o.side));
  }

  /** The answer to an add, from the quantities and prices it finds. */
  lemma AnswersAreTrue(b: Book, o: Order)
    requires Consistent(b)
    ensures var queue := Queue(b.levels, Opposite(o.side));
            var n := Eligible(queue, o);
            var depth := Total(queue[..n]);
            var a := Add(b, o);
            a.result ==
            if o.quantity == 0 then Err(ZeroQuantity)
            else if o.quantity <= depth then Ok(AddResult(o.id, FullyFilled, a.fills))
            else if n < |queue| && WithinLimit(o, queue[n].price) then Ok(AddResult(o.id, CancelledSelfTrade, a.fills))
            else if o.id in b.index && !HasId(queue[..n], o.id) then Err(InBook(DuplicateOrderId(o.id)))
            else if n == 0 && |b.index| == b.capacity then Err(InBook(ArenaFull))
            else if n == 0 then Ok(AddResult(o.id, Resting, a.fills))
            else Ok(AddResult(o.id, PartiallyFilled, a.fills))
  {
    hide LevelsOk, IndexOk, Match, Queue, Eligible, Total, Filled, ConsumesFront, Leaves, HasId;
    FillsAreGreedy(b, o);
    MatchKeeps(b, o);
    MatchIndex(b, o, o.id);
  }

  /** The answer to a cancel: the resting order with that id, unchanged and now gone, or that there is none. */
  lemma CancelsAreTrue(b: Book, id: OrderId)
    requires Consistent(b)
    ensures var c := Cancel(b, id);
            if id in b.index then
              && c.result.Ok?
              && var o := c.result.value;
                 && o.id == id && KeyOf(o) in b.levels && o in b.levels[KeyOf(o)]
                 && id !in c.book.index && |c.book.index| == |b.index| - 1
            else c.result == Err(OrderNotFound(id)) && c.book == b
  {
    hide Consistent, SetLevel, Without, HasId;
    if id in b.index {
      var k := b.index[id];
      IndexedLevel(b, id);
      LevelKeyed(b, k);
      MapShrinks(b.index, id);
    }
  }

  // ---------------------------------------------------------------- whole runs

  ghost predicate FillsWithin(o: Order, fills: seq<Fill>) {
    forall i :: 0 <= i < |fills| ==>
      fills[i].takerOrderId == o.id && fills[i].quantity > 0 && WithinLimit(o, fills[i].price)
  }

  /** A response that fits its command. */
  ghost predicate Truthful(c: Command, r: Response) {
    match c
    case CancelOrder(id) =>
      && r.Cancelled?
      && (r.cancel.Ok? ==> r.cancel.value.id == id)
      && (r.cancel.Err? ==> r.cancel.error == OrderNotFound(id))
    case NewOrder(o) =>
      && r.Added? && FillsWithin(o, r.fills) && Filled(r.fills) <= o.quantity
      && (r.add == Err(ZeroQuantity) <==> o.quantity == 0)
      && (r.add.Ok? ==> TruthfulStatus(o, r.add.value, r.fills))
  }

  ghost predicate TruthfulStatus(o: Order, a: AddResult, fills: seq<Fill>) {
    && a.orderId == o.id && a.fills == fills
    && (a.status.FullyFilled? <==> Filled(fills) == o.quantity)
    && (a.status.Resting? ==> fills == [])
    && (a.status.PartiallyFilled? ==> fills != [])
  }

  lemma {:induction false} FlatFillsWithin(flat: Flat, o: Order)
    requires Positive(flat)
    ensures FillsWithin(o, FlatMatch(flat, o).fills)
    decreases o.quantity, |flat|
  {
    hide FlatReduce;
    if o.quantity > 0 && FlatMaker(flat, o).Some? {
      var i := FlatMaker(flat, o).value;
      if flat[i].traderId != o.traderId {
        var q := Min(o.quantity, flat[i].quantity);
        ReducedFlat(flat, i, q);
        FlatFillsWithin(FlatReduce(flat, i, q), o.(quantity := o.quantity - q));
      }
    }
  }

  lemma ReducedFlat(flat: Flat, i: nat, q: nat)
    requires Positive(flat) && i < |flat| && q <= flat[i].quantity
    ensures Positive(FlatReduce(flat, i, q)) && |FlatReduce(flat, i, q)| <= |flat|
  {
  }

  lemma FlatTruthful(flat: Flat, capacity: nat, c: Command)
    requires Positive(flat)
    ensures Truthful(c, FlatApply(flat, capacity, c).response)
  {
    hide FlatMatch, Positive, FillsWithin, Filled;
    match c
    case CancelOrder(id) =>
    case NewOrder(o) =>
      NothingFilled();
      NoFillsWithin(o);
      FlatFillsWithin(flat, o);
      MatchConserves(flat, o);
      SelfTradeLeaves(flat, o);
  }

  lemma {:induction false} SelfTradeLeaves(flat: Flat, o: Order)
    ensures FlatMatch(flat, o).selfTrade ==> FlatMatch(flat, o).taker.quantity > 0
    decreases o.quantity, |flat|
  {
    if o.quantity > 0 && FlatMaker(flat, o).Some? {
      var i := FlatMaker(flat, o).value;
      if flat[i].traderId != o.traderId {
        var q := Min(o.quantity, flat[i].quantity);
        SelfTradeLeaves(FlatReduce(flat, i, q), o.(quantity := o.quantity - q));
      }
    }
  }

  lemma NoFillsWithin(o: Order)
    ensures FillsWithin(o, [])
  {
  }

  /** Over every run from the empty book, every response fits its command. */
  lemma {:induction false} RunsAreTruthful(flat: Flat, capacity: nat, cmds: seq<Command>, i: nat)
    requires Positive(flat) && i < |cmds|
    ensures Truthful(cmds[i], FlatResponses(flat, capacity, cmds)[i])
    decreases |cmds|
  {
    hide Truthful, FlatApply, Positive;
    FlatTruthful(flat, capacity, cmds[0]);
    if i > 0 {
      FlatApplyPositive(flat, capacity, cmds[0]);
      RunsAreTruthful(FlatApply(flat, capacity, cmds[0]).flat, capacity, cmds[1..], i - 1);
    }
  }
}
