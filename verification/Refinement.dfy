/**
 The price-level book agrees with the flat reference book: for every sequence of commands the
 responses, best prices, order count and full listing are the same.
 */
module Refinement {
  import opened Types
  import opened PriceBook
  import opened FlatBook
  import opened Sweep

  /** The orders of `flat` at one side and price, in arrival order. */
  function At(flat: Flat, k: Key): seq<Order> {
    if flat == [] then []
    else (if KeyOf(flat[0]) == k then [flat[0]] else []) + At(flat[1..], k)
  }

  /** The levels hold exactly the orders of the flat book. */
  ghost predicate SameLevels(levels: Levels, flat: Flat) {
    && NoEmptyLevel(levels)
    && forall k: Key :: At(flat, k) == Get(levels, k)
  }

  ghost predicate Refines(b: Book, flat: Flat) {
    WF(b) && SameLevels(b.levels, flat) && |flat| == |b.index|
  }

  // ---------------------------------------------------------------- filtering

  lemma {:induction false} AtConcat(xs: Flat, ys: Flat, k: Key)
    ensures At(xs + ys, k) == At(xs, k) + At(ys, k)
    decreases |xs|
  {
    if xs == [] {
      assert xs + ys == ys;
    } else {
      assert (xs + ys)[1..] == xs[1..] + ys;
      AtConcat(xs[1..], ys, k);
    }
  }

  /** Splitting the filtered sequence around position `i`. */
  lemma AtSplit(flat: Flat, i: nat, k: Key)
    requires i < |flat|
    ensures At(flat, k) ==
            At(flat[..i], k) + (if KeyOf(flat[i]) == k then [flat[i]] else []) + At(flat[i + 1..], k)
    ensures At(Without(flat, i), k) == At(flat[..i], k) + At(flat[i + 1..], k)
  {
    assert flat == flat[..i] + ([flat[i]] + flat[i + 1..]);
    AtConcat(flat[..i], [flat[i]] + flat[i + 1..], k);
    AtConcat([flat[i]], flat[i + 1..], k);
    assert At([flat[i]], k) == if KeyOf(flat[i]) == k then [flat[i]] else [];
    AtConcat(flat[..i], flat[i + 1..], k);
  }

  lemma AtUpdate(flat: Flat, i: nat, o: Order, k: Key)
    requires i < |flat|
    ensures At(flat[i := o], k) ==
            At(flat[..i], k) + (if KeyOf(o) == k then [o] else []) + At(flat[i + 1..], k)
  {
    var flat' := flat[i := o];
    assert flat'[..i] == flat[..i] && flat'[i + 1..] == flat[i + 1..];
    AtSplit(flat', i, k);
  }

  lemma {:induction false} AtElements(flat: Flat, k: Key, j: nat) returns (i: nat)
    requires j < |At(flat, k)|
    ensures i < |flat| && flat[i] == At(flat, k)[j] && KeyOf(flat[i]) == k
    decreases |flat|
  {
    if KeyOf(flat[0]) == k && j == 0 {
      i := 0;
    } else {
      var i' := AtElements(flat[1..], k, if KeyOf(flat[0]) == k then j - 1 else j);
      i := i' + 1;
    }
  }

  lemma {:induction false} AtNone(flat: Flat, k: Key)
    requires forall i :: 0 <= i < |flat| ==> KeyOf(flat[i]) != k
    ensures At(flat, k) == []
    decreases |flat|
  {
    if flat != [] {
      AtNone(flat[1..], k);
    }
  }

  // ---------------------------------------------------------------- queries

  /** The first best order of the flat book is the front of the best level. */
  lemma BestAgrees(levels: Levels, flat: Flat, side: Side)
    requires SameLevels(levels, flat)
    ensures var best := Extreme(Prices(levels, side), side);
            var i := BestIndex(flat, side);
            && (best.None? <==> i.None?)
            && (best.Some? ==>
                  var k := Key(side, best.value);
                  && k in levels
                  && KeyOf(flat[i.value]) == k
                  && At(flat[..i.value], k) == []
                  && levels[k] == [flat[i.value]] + At(flat[i.value + 1..], k))
  {
    hide SameLevels, At;
    match BestIndex(flat, side)
    case None => NoSideAgrees(levels, flat, side);
    case Some(i) =>
      var k := KeyOf(flat[i]);
      FirstAtItsKey(levels, flat, i);
      BestPriceAgrees(levels, flat, i);
      assert k == Key(side, k.price);
  }

  lemma NoSideAgrees(levels: Levels, flat: Flat, side: Side)
    requires SameLevels(levels, flat)
    requires forall i :: 0 <= i < |flat| ==> flat[i].side != side
    ensures Extreme(Prices(levels, side), side) == None
  {
    forall k: Key | k.side == side
      ensures k !in levels
    {
      AtNone(flat, k);
    }
    assert Prices(levels, side) == {};
  }

  /** An order with none of its key before it is the front of its level. */
  lemma FirstAtItsKey(levels: Levels, flat: Flat, i: nat)
    requires SameLevels(levels, flat) && i < |flat|
    requires forall j :: 0 <= j < i ==> KeyOf(flat[j]) != KeyOf(flat[i])
    ensures var k := KeyOf(flat[i]);
            && k in levels
            && At(flat[..i], k) == []
            && levels[k] == [flat[i]] + At(flat[i + 1..], k)
  {
    AtSplit(flat, i, KeyOf(flat[i]));
    AtNone(flat[..i], KeyOf(flat[i]));
  }

  lemma BestPriceAgrees(levels: Levels, flat: Flat, i: nat)
    requires SameLevels(levels, flat) && i < |flat| && KeyOf(flat[i]) in levels
    requires forall j :: 0 <= j < |flat| && flat[j].side == flat[i].side ==>
               !Better(flat[i].side, flat[j].price, flat[i].price)
    ensures Extreme(Prices(levels, flat[i].side), flat[i].side) == Some(flat[i].price)
  {
    var side := flat[i].side;
    forall l | l in levels && l.side == side
      ensures !Better(side, l.price, flat[i].price)
    {
      assert Get(levels, l) == At(flat, l) && Get(levels, l) != [];
      var j := AtElements(flat, l, 0);
    }
    assert KeyOf(flat[i]).price in Prices(levels, side);
  }

  lemma IdsAgree(b: Book, flat: Flat, id: OrderId)
    requires Refines(b, flat)
    ensures id in b.index <==> FlatHasId(flat, id)
  {
    if id in b.index {
      var k := b.index[id];
      var i := AtElements(flat, k, Position(b.levels[k], id));
      assert flat[i].id == id;
    }
    if FlatHasId(flat, id) {
      var i := Position(flat, id);
      var k := KeyOf(flat[i]);
      AtSplit(flat, i, k);
      assert LevelOk(b.levels[k], k, b.index);
      assert b.levels[k][|At(flat[..i], k)|] == flat[i];
    }
  }

  /** The listing order of the levels is the price-time order of the flat book. */
  lemma {:induction false} QueueAgrees(levels: Levels, flat: Flat, side: Side)
    requires SameLevels(levels, flat)
    ensures Queue(levels, side) == PriceTime(flat, side)
    decreases |flat|
  {
    hide SameLevels, At, BestIndex, Prices, Extreme, SetLevel, Queue, Without;
    BestAgrees(levels, flat, side);
    if BestIndex(flat, side).None? {
      EmptyQueue(levels, side);
    } else {
      var i := BestIndex(flat, side).value;
      var k := KeyOf(flat[i]);
      WithoutLength(flat, i);
      RemoveSameLevels(levels, flat, i);
      QueueAgrees(SetLevel(levels, k, levels[k][1..]), Without(flat, i), side);
      QueueFront(levels, side, k.price, levels[k][1..]);
    }
  }

  lemma EmptyQueue(levels: Levels, side: Side)
    requires Extreme(Prices(levels, side), side).None?
    ensures Queue(levels, side) == []
  {
  }

  lemma GetSetLevel(levels: Levels, k: Key, level: seq<Order>, l: Key)
    ensures Get(SetLevel(levels, k, level), l) == if l == k then level else Get(levels, l)
  {
  }

  lemma WithoutMiddle<T>(xs: seq<T>, x: T, ys: seq<T>)
    ensures Without(xs + [x] + ys, |xs|) == xs + ys
  {
  }

  /** Removing the order at flat position `i` removes it from its level. */
  lemma RemoveSameLevels(levels: Levels, flat: Flat, i: nat)
    requires SameLevels(levels, flat) && i < |flat|
    ensures var k := KeyOf(flat[i]);
            var j := |At(flat[..i], k)|;
            && k in levels && j < |levels[k]| && levels[k][j] == flat[i]
            && SameLevels(SetLevel(levels, k, Without(levels[k], j)), Without(flat, i))
            && (j == 0 ==> Without(levels[k], j) == levels[k][1..])
  {
    var k := KeyOf(flat[i]);
    var j := |At(flat[..i], k)|;
    AtSplit(flat, i, k);
    assert Get(levels, k) == At(flat, k);
    WithoutMiddle(At(flat[..i], k), flat[i], At(flat[i + 1..], k));
    hide At, Without;
    var level' := Without(levels[k], j);
    forall l: Key
      ensures At(Without(flat, i), l) == Get(SetLevel(levels, k, level'), l)
    {
      AtSplit(flat, i, l);
      GetSetLevel(levels, k, level', l);
    }
    assert j == 0 ==> level' == levels[k][1..] by {
      WithoutFirst(levels[k]);
    }
  }

  lemma WithoutFirst<T>(s: seq<T>)
    requires s != []
    ensures Without(s, 0) == s[1..]
  {
  }

  // ---------------------------------------------------------------- operations

  lemma UpdateSameLevels(levels: Levels, flat: Flat, i: nat, o: Order)
    requires SameLevels(levels, flat) && i < |flat| && KeyOf(o) == KeyOf(flat[i])
    ensures var k := KeyOf(o);
            var j := |At(flat[..i], k)|;
            && k in levels && j < |levels[k]|
            && SameLevels(levels[k := levels[k][j := o]], flat[i := o])
  {
    var k := KeyOf(o);
    var j := |At(flat[..i], k)|;
    AtSplit(flat, i, k);
    assert Get(levels, k) == At(flat, k);
    hide At;
    var levels' := levels[k := levels[k][j := o]];
    forall l: Key
      ensures At(flat[i := o], l) == Get(levels', l)
    {
      AtSplit(flat, i, l);
      AtUpdate(flat, i, o, l);
    }
  }

  lemma MakerAgrees(b: Book, flat: Flat, taker: Order)
    requires Refines(b, flat)
    ensures var maker := CrossingMaker(b, taker);
            var i := FlatMaker(flat, taker);
            && (maker.None? <==> i.None?)
            && (i.Some? ==> maker.value == flat[i.value] && At(flat[..i.value], KeyOf(maker.value)) == [])
  {
    hide Consistent, Uncrossed;
    BestAgrees(b.levels, flat, Opposite(taker.side));
  }

  lemma ReduceAgrees(b: Book, flat: Flat, taker: Order, q: nat)
    requires Refines(b, flat)
    requires FlatMaker(flat, taker).Some? && q <= flat[FlatMaker(flat, taker).value].quantity
    ensures var i := FlatMaker(flat, taker).value;
            var k := KeyOf(flat[i]);
            && k in b.levels && b.levels[k] != [] && b.levels[k][0] == flat[i]
            && Refines(ReduceFront(b, k, q), FlatReduce(flat, i, q))
  {
    MakerAgrees(b, flat, taker);
    hide Consistent, CrossingMaker, FlatMaker, SameLevels, FlatReduce, ReduceFront;
    ReduceFirstAgrees(b, flat, FlatMaker(flat, taker).value, q);
  }

  lemma ReduceFirstAgrees(b: Book, flat: Flat, i: nat, q: nat)
    requires Refines(b, flat) && i < |flat| && q <= flat[i].quantity
    requires At(flat[..i], KeyOf(flat[i])) == []
    ensures var k := KeyOf(flat[i]);
            && k in b.levels && b.levels[k] != [] && b.levels[k][0] == flat[i]
            && Refines(ReduceFront(b, k, q), FlatReduce(flat, i, q))
  {
    hide Consistent, SameLevels, At, FrontReduced, SetLevel, Without;
    ReduceSameLevels(b.levels, flat, i, q);
    ReduceFrontConsistent(b, KeyOf(flat[i]), q);
    WithoutLength(flat, i);
  }

  lemma ReduceSameLevels(levels: Levels, flat: Flat, i: nat, q: nat)
    requires SameLevels(levels, flat) && i < |flat| && q <= flat[i].quantity
    requires At(flat[..i], KeyOf(flat[i])) == []
    ensures var k := KeyOf(flat[i]);
            && k in levels && levels[k] != [] && levels[k][0] == flat[i]
            && SameLevels(SetLevel(levels, k, FrontReduced(levels[k], q)), FlatReduce(flat, i, q))
  {
    hide SameLevels, At, SetLevel, Without;
    RemoveSameLevels(levels, flat, i);
    if q < flat[i].quantity {
      FrontUpdated(levels, flat, i, q);
    }
  }

  lemma FrontUpdated(levels: Levels, flat: Flat, i: nat, q: nat)
    requires SameLevels(levels, flat) && i < |flat| && q < flat[i].quantity
    requires At(flat[..i], KeyOf(flat[i])) == []
    requires var k := KeyOf(flat[i]); k in levels && levels[k] != [] && levels[k][0] == flat[i]
    ensures var k := KeyOf(flat[i]);
            SameLevels(SetLevel(levels, k, FrontReduced(levels[k], q)), FlatReduce(flat, i, q))
  {
    hide SameLevels, At, Without;
    var o := flat[i].(quantity := flat[i].quantity - q);
    UpdateSameLevels(levels, flat, i, o);
    assert FrontReduced(levels[KeyOf(o)], q) == levels[KeyOf(o)][0 := o];
  }

  lemma {:induction false} MatchAgrees(b: Book, flat: Flat, taker: Order)
    requires Refines(b, flat)
    ensures var m := Match(b, taker);
            var f := FlatMatch(flat, taker);
            && Refines(m.book, f.flat)
            && m.taker == f.taker && m.fills == f.fills && m.selfTrade == f.selfTrade
    decreases taker.quantity, |flat|
  {
    hide Refines, Consistent, CrossingMaker, FlatMaker, ReduceFront;
    MakerAgrees(b, flat, taker);
    assert Consistent(b) by { RefinesConsistent(b, flat); }
    if taker.quantity > 0 && FlatMaker(flat, taker).Some? {
      var i := FlatMaker(flat, taker).value;
      var maker := flat[i];
      if maker.traderId != taker.traderId {
        var q := Min(taker.quantity, maker.quantity);
        ReduceAgrees(b, flat, taker, q);
        var b' := ReduceFront(b, KeyOf(maker), q);
        RefinesConsistent(b', FlatReduce(flat, i, q));
        MatchAgrees(b', FlatReduce(flat, i, q), taker.(quantity := taker.quantity - q));
      }
    }
  }

  lemma RefinesConsistent(b: Book, flat: Flat)
    requires Refines(b, flat)
    ensures Consistent(b) && WF(b)
  {
  }

  /** Resting an order is appending it to the flat book. */
  lemma InsertAgrees(b: Book, flat: Flat, o: Order)
    requires Refines(b, flat)
    requires CrossingMaker(b, o).None?
    ensures Insert(b, o).Err? ==>
              Insert(b, o).error == if FlatHasId(flat, o.id) then DuplicateOrderId(o.id) else ArenaFull
    ensures Insert(b, o).Ok? <==> !FlatHasId(flat, o.id) && |flat| < b.capacity
    ensures Insert(b, o).Ok? ==> Refines(Insert(b, o).value, flat + [o])
  {
    IdsAgree(b, flat, o.id);
    hide Consistent, CrossingMaker, SameLevels, FlatHasId, Uncrossed;
    if Insert(b, o).Ok? {
      InsertedRefines(b, flat, o);
    }
  }

  lemma InsertedRefines(b: Book, flat: Flat, o: Order)
    requires Refines(b, flat)
    requires CrossingMaker(b, o).None? && Insert(b, o).Ok?
    ensures Refines(Insert(b, o).value, flat + [o])
  {
    hide Consistent, CrossingMaker, SameLevels, Uncrossed;
    InsertConsistent(b, o);
    RestUncrossed(b, o);
    InsertSameLevels(b.levels, flat, o);
  }

  lemma InsertSameLevels(levels: Levels, flat: Flat, o: Order)
    requires SameLevels(levels, flat)
    ensures var k := KeyOf(o);
            SameLevels(levels[k := Get(levels, k) + [o]], flat + [o])
  {
    forall l: Key
      ensures At(flat + [o], l) == At(flat, l) + if l == KeyOf(o) then [o] else []
    {
      AtConcat(flat, [o], l);
      assert At([o], l) == if l == KeyOf(o) then [o] else [];
    }
  }

  lemma AddAgrees(b: Book, flat: Flat, o: Order)
    requires Refines(b, flat)
    ensures var a := Add(b, o);
            var f := FlatAdd(flat, b.capacity, o);
            && Refines(a.book, f.flat)
            && f.response == Added(a.result, a.fills)
  {
    hide Refines, Consistent, CrossingMaker, Match, FlatMatch, Insert, FlatHasId;
    RefinesConsistent(b, flat);
    if o.quantity > 0 {
      MatchAgrees(b, flat, o);
      MatchKeeps(b, o);
      var m := Match(b, o);
      if !m.selfTrade && m.taker.quantity > 0 {
        InsertAgrees(m.book, FlatMatch(flat, o).flat, m.taker);
      }
    }
  }

  lemma CancelAgrees(b: Book, flat: Flat, id: OrderId)
    requires Refines(b, flat)
    ensures var c := Cancel(b, id);
            var f := FlatCancel(flat, id);
            && Refines(c.book, f.flat)
            && f.response == Cancelled(c.result)
  {
    IdsAgree(b, flat, id);
    hide Refines, Cancel, FlatCancel, Consistent;
    if id in b.index {
      CancelFoundAgrees(b, flat, Position(flat, id));
    } else {
      assert Cancel(b, id).book == b && FlatCancel(flat, id).flat == flat by { NotFound(b, flat, id); }
    }
  }

  lemma NotFound(b: Book, flat: Flat, id: OrderId)
    requires Consistent(b) && id !in b.index && !FlatHasId(flat, id)
    ensures Cancel(b, id) == CancelOutcome(b, Err(OrderNotFound(id)))
    ensures FlatCancel(flat, id) == FlatApplied(flat, Cancelled(Err(OrderNotFound(id))))
  {
  }

  lemma CancelFoundAgrees(b: Book, flat: Flat, i: nat)
    requires Refines(b, flat) && i < |flat|
    requires FlatHasId(flat, flat[i].id) && Position(flat, flat[i].id) == i
    ensures var c := Cancel(b, flat[i].id);
            var f := FlatCancel(flat, flat[i].id);
            && Refines(c.book, f.flat)
            && f.response == Cancelled(c.result)
  {
    var k := KeyOf(flat[i]);
    var j := |At(flat[..i], k)|;
    hide Consistent, SameLevels, At, SetLevel, HasId, Uncrossed, Position, Without;
    PositionAgrees(b, flat, i);
    RemoveSameLevels(b.levels, flat, i);
    CancelWF(b, flat[i].id);
    RemoveConsistent(b, k, j);
    assert |Without(flat, i)| == |flat| - 1 by { WithoutLength(flat, i); }
  }

  lemma PositionAgrees(b: Book, flat: Flat, i: nat)
    requires Refines(b, flat) && i < |flat|
    ensures var k := KeyOf(flat[i]);
            && k in b.levels
            && flat[i].id in b.index && b.index[flat[i].id] == k
            && HasId(b.levels[k], flat[i].id)
            && Position(b.levels[k], flat[i].id) == |At(flat[..i], k)|
  {
    var k := KeyOf(flat[i]);
    RemoveSameLevels(b.levels, flat, i);
    assert LevelOk(b.levels[k], k, b.index);
  }

  lemma ApplyAgrees(b: Book, flat: Flat, c: Command)
    requires Refines(b, flat)
    ensures var a := Apply(b, c);
            var f := FlatApply(flat, b.capacity, c);
            Refines(a.book, f.flat) && f.response == a.response
  {
    hide Refines, Add, FlatAdd, Cancel, FlatCancel;
    RefinesConsistent(b, flat);
    match c
    case NewOrder(o) => AddAgrees(b, flat, o);
    case CancelOrder(id) => CancelAgrees(b, flat, id);
  }

  // ---------------------------------------------------------------- whole runs

  lemma {:induction false} RunAgreesFrom(b: Book, flat: Flat, cmds: seq<Command>)
    requires Refines(b, flat)
    ensures Refines(Replay(b, cmds), FlatReplay(flat, b.capacity, cmds))
    ensures Responses(b, cmds) == FlatResponses(flat, b.capacity, cmds)
    decreases |cmds|
  {
    if cmds != [] {
      ApplyAgrees(b, flat, cmds[0]);
      ApplyWF(b, cmds[0]);
      hide Refines, Apply, FlatApply, WF;
      RunAgreesFrom(Apply(b, cmds[0]).book, FlatApply(flat, b.capacity, cmds[0]).flat, cmds[1..]);
    }
  }

  /** Asks by ascending price, then bids by descending price. */
  function Listing(b: Book): seq<Order> {
    Queue(b.levels, Ask) + Queue(b.levels, Bid)
  }

  lemma Observations(b: Book, flat: Flat)
    requires Refines(b, flat)
    ensures Listing(b) == Canonical(flat)
    ensures BestPrice(b, Bid) == FlatBestPrice(flat, Bid)
    ensures BestPrice(b, Ask) == FlatBestPrice(flat, Ask)
    ensures |b.index| == |flat|
  {
    QueueAgrees(b.levels, flat, Ask);
    QueueAgrees(b.levels, flat, Bid);
    BestAgrees(b.levels, flat, Ask);
    BestAgrees(b.levels, flat, Bid);
  }

  lemma EmptyAgrees(capacity: nat)
    ensures WF(Empty(capacity)) && Refines(Empty(capacity), [])
  {
    EmptyWF(capacity);
  }

  /** Every run of the engine model and of the reference book look the same from outside. */
  lemma RunAgrees(capacity: nat, cmds: seq<Command>)
    ensures WF(Empty(capacity))
    ensures var b := Replay(Empty(capacity), cmds);
            var flat := FlatReplay([], capacity, cmds);
            && Responses(Empty(capacity), cmds) == FlatResponses([], capacity, cmds)
            && Listing(b) == Canonical(flat)
            && BestPrice(b, Bid) == FlatBestPrice(flat, Bid)
            && BestPrice(b, Ask) == FlatBestPrice(flat, Ask)
            && |b.index| == |flat|
  {
    EmptyAgrees(capacity);
    RunAgreesFrom(Empty(capacity), [], cmds);
    Observations(Replay(Empty(capacity), cmds), FlatReplay([], capacity, cmds));
  }
}
