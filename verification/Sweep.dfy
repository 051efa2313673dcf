/**
 Matching seen without any data structure: one side of the book as a queue in price-time
 order, swept from the front. The fills of an add are shown to be the sweep of that queue,
 and the sweep is given in closed form.
 */
module Sweep {
  import opened Types
  import opened PriceBook

  // ---------------------------------------------------------------- the queue of a side

  ghost predicate NoEmptyLevel(levels: Levels) {
    forall k | k in levels :: levels[k] != []
  }

  /** The levels of a side, best price first, concatenated. */
  function Queue(levels: Levels, side: Side): seq<Order>
    decreases |levels|
  {
    match Extreme(Prices(levels, side), side)
    case None => []
    case Some(p) =>
      ExtremeIsKey(levels, side);
      var k := Key(side, p);
      assert (levels - {k}).Keys == levels.Keys - {k};
      levels[k] + Queue(levels - {k}, side)
  }

  lemma ExtremeIsKey(levels: Levels, side: Side)
    ensures var best := Extreme(Prices(levels, side), side);
            best.Some? ==> Key(side, best.value) in levels
  {
    var best := Extreme(Prices(levels, side), side);
    if best.Some? {
      var k :| k in levels && k.side == side && k.price == best.value;
      assert k == Key(side, best.value);
    }
  }

  /** The best price is determined by the keys. */
  lemma SameBest(levels: Levels, levels': Levels, side: Side, p: Price)
    requires Extreme(Prices(levels, side), side) == Some(p)
    requires levels'.Keys <= levels.Keys && Key(side, p) in levels'
    ensures Extreme(Prices(levels', side), side) == Some(p)
  {
    assert Key(side, p).price in Prices(levels', side);
    assert Prices(levels', side) <= Prices(levels, side);
  }

  /** Changing the level at the front of the queue changes only the front of the queue. */
  lemma QueueFront(levels: Levels, side: Side, p: Price, level': seq<Order>)
    requires Extreme(Prices(levels, side), side) == Some(p)
    ensures Key(side, p) in levels
    ensures var k := Key(side, p);
            && Queue(levels, side) == levels[k] + Queue(levels - {k}, side)
            && Queue(SetLevel(levels, k, level'), side) == level' + Queue(levels - {k}, side)
  {
    ExtremeIsKey(levels, side);
    var k := Key(side, p);
    var levels' := SetLevel(levels, k, level');
    if level' != [] {
      assert levels'.Keys <= levels.Keys;
      SameBest(levels, levels', side, p);
      assert levels' - {k} == levels - {k};
    }
  }

  /** Levels of the other side do not matter to a queue. */
  lemma {:induction false} QueueIgnoresOther(levels: Levels, side: Side, k: Key, level': seq<Order>)
    requires k.side != side
    ensures Queue(SetLevel(levels, k, level'), side) == Queue(levels, side)
    decreases |levels|
  {
    var levels' := SetLevel(levels, k, level');
    assert Prices(levels', side) == Prices(levels, side) by {
      forall l: Key | l.side == side
        ensures l in levels' <==> l in levels
      {
      }
    }
    ExtremeIsKey(levels, side);
    match Extreme(Prices(levels, side), side)
    case None =>
    case Some(p) =>
      var best := Key(side, p);
      assert (levels - {best}).Keys == levels.Keys - {best};
      assert levels' - {best} == SetLevel(levels - {best}, k, level');
      QueueIgnoresOther(levels - {best}, side, k, level');
  }

  // ---------------------------------------------------------------- sweeping a queue

  datatype Swept = Swept(fills: seq<Fill>, rest: seq<Order>, taker: Order, selfTrade: bool)

  function SweepQueue(queue: seq<Order>, taker: Order): Swept
    decreases |queue|
  {
    if taker.quantity == 0 || queue == [] || !Crosses(taker, queue[0].price) then
      Swept([], queue, taker, false)
    else if queue[0].traderId == taker.traderId then
      Swept([], queue, taker, true)
    else if taker.quantity < queue[0].quantity then
      Swept([MakeFill(taker, queue[0], taker.quantity)],
            [queue[0].(quantity := queue[0].quantity - taker.quantity)] + queue[1..],
            taker.(quantity := 0), false)
    else
      var next := SweepQueue(queue[1..], taker.(quantity := taker.quantity - queue[0].quantity));
      next.(fills := [MakeFill(taker, queue[0], queue[0].quantity)] + next.fills)
  }

  lemma CrossingMakerIsFront(b: Book, taker: Order)
    requires Consistent(b)
    ensures var queue := Queue(b.levels, Opposite(taker.side));
            if queue == [] || !Crosses(taker, queue[0].price) then CrossingMaker(b, taker).None?
            else CrossingMaker(b, taker) == Some(queue[0])
  {
    var side := Opposite(taker.side);
    BestPriceIsBest(b, side);
    if BestPrice(b, side).Some? {
      var p := BestPrice(b, side).value;
      assert LevelOk(b.levels[Key(side, p)], Key(side, p), b.index);
      QueueFront(b.levels, side, p, []);
    }
  }

  lemma ReduceFrontQueue(b: Book, taker: Order, q: nat)
    requires Consistent(b)
    requires CrossingMaker(b, taker).Some? && q <= CrossingMaker(b, taker).value.quantity
    ensures var side := Opposite(taker.side);
            var queue := Queue(b.levels, side);
            var maker := CrossingMaker(b, taker).value;
            && queue != [] && queue[0] == maker
            && Queue(ReduceFront(b, KeyOf(maker), q).levels, side) == FrontReduced(queue, q)
  {
    var side := Opposite(taker.side);
    var p := BestPrice(b, side).value;
    var k := Key(side, p);
    BestPriceIsBest(b, side);
    var level := b.levels[k];
    assert LevelOk(level, k, b.index);
    hide Consistent, LevelOk, Queue;
    QueueFront(b.levels, side, p, FrontReduced(level, q));
    FrontReducedConcat(level, Queue(b.levels - {k}, side), q);
  }

  lemma FrontReducedConcat(level: seq<Order>, others: seq<Order>, q: nat)
    requires level != [] && q <= level[0].quantity
    ensures FrontReduced(level + others, q) == FrontReduced(level, q) + others
  {
    assert (level + others)[1..] == level[1..] + others;
  }

  /** Matching against the levels is sweeping the queue of the opposite side. */
  lemma {:induction false} MatchIsSweep(b: Book, taker: Order)
    requires Consistent(b)
    ensures var m := Match(b, taker);
            var s := SweepQueue(Queue(b.levels, Opposite(taker.side)), taker);
            && m.fills == s.fills
            && m.taker == s.taker
            && m.selfTrade == s.selfTrade
            && Queue(m.book.levels, Opposite(taker.side)) == s.rest
    decreases taker.quantity, |b.index|
  {
    hide Consistent, CrossingMaker, ReduceFront, Queue;
    CrossingMakerIsFront(b, taker);
    if taker.quantity > 0 && CrossingMaker(b, taker).Some? {
      var maker := CrossingMaker(b, taker).value;
      if maker.traderId != taker.traderId {
        var q := Min(taker.quantity, maker.quantity);
        var taker' := taker.(quantity := taker.quantity - q);
        ReduceFrontConsistent(b, KeyOf(maker), q);
        ReduceFrontQueue(b, taker, q);
        MatchIsSweep(ReduceFront(b, KeyOf(maker), q), taker');
      }
    }
  }

  // ---------------------------------------------------------------- the sweep in closed form

  /** How many makers from the front the taker may trade with. */
  function Eligible(queue: seq<Order>, taker: Order): (n: nat)
    ensures n <= |queue|
    ensures forall i :: 0 <= i < n ==>
              Crosses(taker, queue[i].price) && queue[i].traderId != taker.traderId
    ensures n < |queue| ==> !Crosses(taker, queue[n].price) || queue[n].traderId == taker.traderId
  {
    if queue == [] || !Crosses(taker, queue[0].price) || queue[0].traderId == taker.traderId then 0
    else 1 + Eligible(queue[1..], taker)
  }

  function Total(orders: seq<Order>): nat {
    if orders == [] then 0 else orders[0].quantity + Total(orders[1..])
  }

  function Filled(fills: seq<Fill>): nat {
    if fills == [] then 0 else fills[0].quantity + Filled(fills[1..])
  }

  /** `fills` consumes the front of `queue` in order, every maker but the last completely. */
  ghost predicate ConsumesFront(fills: seq<Fill>, queue: seq<Order>, taker: Order) {
    && |fills| <= |queue|
    && forall i :: 0 <= i < |fills| ==>
         && fills[i].takerOrderId == taker.id
         && fills[i].makerOrderId == queue[i].id
         && fills[i].price == queue[i].price
         && fills[i].quantity <= queue[i].quantity
         && (fills[i].quantity > 0 || queue[i].quantity == 0)
         && (fills[i].makerFullyFilled <==> fills[i].quantity == queue[i].quantity)
         && (i < |fills| - 1 ==> fills[i].makerFullyFilled)
  }

  /** What `fills` leaves of `queue`: the makers it did not reach, behind the last one if it has a rest. */
  ghost predicate Leaves(fills: seq<Fill>, queue: seq<Order>, rest: seq<Order>) {
    var n := |fills|;
    && n <= |queue|
    && if n == 0 || fills[n - 1].makerFullyFilled then rest == queue[n..]
       else
         && fills[n - 1].quantity <= queue[n - 1].quantity
         && rest == [queue[n - 1].(quantity := queue[n - 1].quantity - fills[n - 1].quantity)] + queue[n..]
  }

  /**
   The greedy rule in closed form: with `n` eligible makers holding `depth` in total, exactly
   min(quantity, depth) trades, taken from the front; a self-trade cancels the taker exactly
   when quantity is left over and the next maker crosses, which makes it the taker's own.
   */
  lemma SweepClosedForm(queue: seq<Order>, taker: Order)
    ensures var s := SweepQueue(queue, taker);
            var n := Eligible(queue, taker);
            var depth := Total(queue[..n]);
            && ConsumesFront(s.fills, queue, taker)
            && |s.fills| <= n
            && Filled(s.fills) == Min(taker.quantity, depth)
            && s.taker == taker.(quantity := taker.quantity - Filled(s.fills))
            && (s.selfTrade <==> taker.quantity > depth && n < |queue| && Crosses(taker, queue[n].price))
            && Leaves(s.fills, queue, s.rest)
            && (s.taker.quantity > 0 ==> |s.fills| == n && s.rest == queue[n..])
  {
    hide *;
    SweepFills(queue, taker);
    SweepAmounts(queue, taker);
    SweepEnd(queue, taker);
    SweepLeaves(queue, taker);
  }

  lemma {:induction false} SweepLeaves(queue: seq<Order>, taker: Order)
    ensures Leaves(SweepQueue(queue, taker).fills, queue, SweepQueue(queue, taker).rest)
    decreases |queue|
  {
    if taker.quantity > 0 && Eligible(queue, taker) > 0 && taker.quantity >= queue[0].quantity {
      var taker' := taker.(quantity := taker.quantity - queue[0].quantity);
      SweepLeaves(queue[1..], taker');
      LeavesCons(MakeFill(taker, queue[0], queue[0].quantity), SweepQueue(queue[1..], taker').fills, queue,
                 SweepQueue(queue[1..], taker').rest);
    }
  }

  lemma LeavesCons(f: Fill, fills: seq<Fill>, queue: seq<Order>, rest: seq<Order>)
    requires queue != [] && f.makerFullyFilled && Leaves(fills, queue[1..], rest)
    ensures Leaves([f] + fills, queue, rest)
  {
    assert queue[1..][|fills|..] == queue[|fills| + 1..];
  }

  lemma {:induction false} SweepFills(queue: seq<Order>, taker: Order)
    ensures var s := SweepQueue(queue, taker);
            ConsumesFront(s.fills, queue, taker) && |s.fills| <= Eligible(queue, taker)
    decreases |queue|
  {
    if taker.quantity > 0 && Eligible(queue, taker) > 0 && taker.quantity >= queue[0].quantity {
      var taker' := taker.(quantity := taker.quantity - queue[0].quantity);
      EligibleSame(queue[1..], taker, taker');
      SweepFills(queue[1..], taker');
      ConsumesCons(queue, taker, taker', SweepQueue(queue[1..], taker').fills, queue[0].quantity);
    }
  }

  lemma {:induction false} SweepAmounts(queue: seq<Order>, taker: Order)
    ensures var s := SweepQueue(queue, taker);
            && Filled(s.fills) == Min(taker.quantity, Total(queue[..Eligible(queue, taker)]))
            && s.taker == taker.(quantity := taker.quantity - Filled(s.fills))
    decreases |queue|
  {
    var n := Eligible(queue, taker);
    if taker.quantity > 0 && n > 0 {
      assert queue[..n][1..] == queue[1..][..n - 1];
      var fills := SweepQueue(queue, taker).fills;
      if taker.quantity >= queue[0].quantity {
        var taker' := taker.(quantity := taker.quantity - queue[0].quantity);
        EligibleSame(queue[1..], taker, taker');
        SweepAmounts(queue[1..], taker');
        assert fills[1..] == SweepQueue(queue[1..], taker').fills;
      } else {
        assert fills[1..] == [];
      }
    }
  }

  lemma {:induction false} SweepEnd(queue: seq<Order>, taker: Order)
    ensures var s := SweepQueue(queue, taker);
            var n := Eligible(queue, taker);
            && (s.selfTrade <==>
                taker.quantity > Total(queue[..n]) && n < |queue| && Crosses(taker, queue[n].price))
            && (s.taker.quantity > 0 ==> |s.fills| == n && s.rest == queue[n..])
    decreases |queue|
  {
    var n := Eligible(queue, taker);
    if taker.quantity > 0 && n > 0 {
      assert queue[..n][1..] == queue[1..][..n - 1];
      if taker.quantity >= queue[0].quantity {
        var taker' := taker.(quantity := taker.quantity - queue[0].quantity);
        EligibleSame(queue[1..], taker, taker');
        SweepEnd(queue[1..], taker');
        assert queue[1..][n - 1..] == queue[n..];
      }
    }
  }

  lemma {:induction false} EligibleSame(queue: seq<Order>, taker: Order, taker': Order)
    requires taker' == taker.(quantity := taker'.quantity)
    ensures Eligible(queue, taker') == Eligible(queue, taker)
    decreases |queue|
  {
    if queue != [] {
      EligibleSame(queue[1..], taker, taker');
    }
  }

  lemma ConsumesCons(queue: seq<Order>, taker: Order, taker': Order, fills: seq<Fill>, q: nat)
    requires queue != [] && q == queue[0].quantity
    requires taker'.id == taker.id && ConsumesFront(fills, queue[1..], taker')
    ensures ConsumesFront([MakeFill(taker, queue[0], q)] + fills, queue, taker)
  {
    var all := [MakeFill(taker, queue[0], q)] + fills;
    forall i | 0 < i < |all|
      ensures all[i] == fills[i - 1] && queue[i] == queue[1..][i - 1]
    {
    }
  }

  /** Trading leaves the taker's own side alone. */
  lemma {:induction false} MatchKeepsOwnSide(b: Book, taker: Order)
    requires Consistent(b)
    ensures Queue(Match(b, taker).book.levels, taker.side) == Queue(b.levels, taker.side)
    decreases taker.quantity, |b.index|
  {
    hide Consistent, CrossingMaker, Queue, SetLevel, FrontReduced;
    if taker.quantity > 0 && CrossingMaker(b, taker).Some? {
      var maker := CrossingMaker(b, taker).value;
      if maker.traderId != taker.traderId {
        var q := Min(taker.quantity, maker.quantity);
        var k := KeyOf(maker);
        ReduceFrontConsistent(b, k, q);
        QueueIgnoresOther(b.levels, taker.side, k, FrontReduced(b.levels[k], q));
        MatchKeepsOwnSide(ReduceFront(b, k, q), taker.(quantity := taker.quantity - q));
      }
    }
  }

  /** The ids left in the book when the taker outlasts its makers: all but those of the makers it met. */
  lemma {:induction false} MatchIndex(b: Book, taker: Order, id: OrderId)
    requires Consistent(b)
    ensures var queue := Queue(b.levels, Opposite(taker.side));
            var n := Eligible(queue, taker);
            taker.quantity > Total(queue[..n]) ==>
              (id in Match(b, taker).book.index <==> id in b.index && !HasId(queue[..n], id))
    decreases taker.quantity, |b.index|
  {
    hide Consistent, CrossingMaker, Queue, HasId;
    var queue := Queue(b.levels, Opposite(taker.side));
    var n := Eligible(queue, taker);
    CrossingMakerIsFront(b, taker);
    if n == 0 {
      NoIds(id);
      assert queue[..n] == [];
    } else if taker.quantity > 0 {
      var maker := queue[0];
      assert queue[..n][0] == maker && queue[..n][1..] == queue[1..][..n - 1];
      HasIdCons(queue[..n], id);
      if taker.quantity > maker.quantity {
        var taker' := taker.(quantity := taker.quantity - maker.quantity);
        ReduceFrontConsistent(b, KeyOf(maker), maker.quantity);
        ReduceFrontQueue(b, taker, maker.quantity);
        EligibleSame(queue[1..], taker, taker');
        MatchIndex(ReduceFront(b, KeyOf(maker), maker.quantity), taker', id);
      }
    }
  }

  lemma NoIds(id: OrderId)
    ensures !HasId([], id)
  {
  }

  lemma HasIdCons(orders: seq<Order>, id: OrderId)
    requires orders != []
    ensures HasId(orders, id) <==> orders[0].id == id || HasId(orders[1..], id)
  {
    if HasId(orders, id) && orders[0].id != id {
      var i :| 0 <= i < |orders| && orders[i].id == id;
      assert orders[1..][i - 1].id == id;
    }
    if HasId(orders[1..], id) {
      var i :| 0 <= i < |orders| - 1 && orders[1..][i].id == id;
      assert orders[i + 1].id == id;
    }
  }

  /** The fills of one add, and what they leave of both sides, on any consistent book. */
  lemma FillsAreGreedy(b: Book, taker: Order)
    requires Consistent(b)
    ensures var queue := Queue(b.levels, Opposite(taker.side));
            var m := Match(b, taker);
            var n := Eligible(queue, taker);
            var depth := Total(queue[..n]);
            && ConsumesFront(m.fills, queue, taker)
            && |m.fills| <= n
            && Filled(m.fills) == Min(taker.quantity, depth)
            && m.taker.quantity == taker.quantity - Filled(m.fills)
            && (m.selfTrade <==> taker.quantity > depth && n < |queue| && Crosses(taker, queue[n].price))
            && Leaves(m.fills, queue, Queue(m.book.levels, Opposite(taker.side)))
            && (taker.quantity > depth ==> |m.fills| == n)
            && Queue(m.book.levels, taker.side) == Queue(b.levels, taker.side)
  {
    hide Consistent, Match, Queue, SweepQueue, Eligible, Total, Filled, ConsumesFront, Leaves, Crosses;
    MatchKeepsOwnSide(b, taker);
    MatchIsSweep(b, taker);
    SweepClosedForm(Queue(b.levels, Opposite(taker.side)), taker);
  }
}
