/**
 The reference book: one flat sequence of resting orders in arrival order, scanned linearly
 for the best maker. It follows the naive model of tests/book_model.rs and adds the outcomes
 that model leaves out (zero quantity, duplicate id, full arena). Prices, limits and fills are
 spelled out here and share nothing with the engine's own definitions.
 */
module FlatBook {
  import opened Types
  import opened PriceBook

  type Flat = seq<Order>

  ghost predicate Positive(flat: Flat) {
    forall i :: 0 <= i < |flat| ==> flat[i].quantity > 0
  }

  /** Best price first, then earliest arrival. */
  function BestIndex(flat: Flat, side: Side): (r: Option<nat>)
    ensures r.None? <==> forall i :: 0 <= i < |flat| ==> flat[i].side != side
    ensures r.Some? ==>
              && r.value < |flat|
              && flat[r.value].side == side
              && (forall j :: 0 <= j < |flat| && flat[j].side == side ==>
                    if side.Bid? then flat[j].price <= flat[r.value].price else flat[j].price >= flat[r.value].price)
              && (forall j :: 0 <= j < r.value && flat[j].side == side ==>
                    flat[j].price != flat[r.value].price)
  {
    if flat == [] then None
    else
      var n := |flat| - 1;
      assert forall j :: 0 <= j < n ==> flat[..n][j] == flat[j];
      var best := BestIndex(flat[..n], side);
      if flat[n].side != side then best
      else if best.None? then Some(n)
      else if side.Bid? && flat[n].price > flat[best.value].price then Some(n)
      else if side.Ask? && flat[n].price < flat[best.value].price then Some(n)
      else best
  }

  predicate FlatHasId(flat: Flat, id: OrderId) {
    exists i :: 0 <= i < |flat| && flat[i].id == id
  }

  /** The maker the taker meets next: the best opposite order, unless its price is beyond the limit. */
  function FlatMaker(flat: Flat, taker: Order): (r: Option<nat>)
    ensures r.Some? ==> r.value < |flat| && flat[r.value].side == Opposite(taker.side)
  {
    match BestIndex(flat, if taker.side.Bid? then Ask else Bid)
    case None => None
    case Some(i) =>
      if taker.side.Bid? && flat[i].price > taker.price then None
      else if taker.side.Ask? && flat[i].price < taker.price then None
      else Some(i)
  }

  function FlatReduce(flat: Flat, i: nat, q: nat): Flat
    requires i < |flat| && q <= flat[i].quantity
  {
    if q == flat[i].quantity then Without(flat, i)
    else flat[i := flat[i].(quantity := flat[i].quantity - q)]
  }

  datatype FlatMatched = FlatMatched(flat: Flat, taker: Order, fills: seq<Fill>, selfTrade: bool)

  function FlatMatch(flat: Flat, taker: Order): FlatMatched
    decreases taker.quantity, |flat|
  {
    if taker.quantity == 0 then FlatMatched(flat, taker, [], false)
    else match FlatMaker(flat, taker)
      case None => FlatMatched(flat, taker, [], false)
      case Some(i) =>
        if flat[i].traderId == taker.traderId then FlatMatched(flat, taker, [], true)
        else
          var q := if taker.quantity < flat[i].quantity then taker.quantity else flat[i].quantity;
          var rest := FlatMatch(FlatReduce(flat, i, q), taker.(quantity := taker.quantity - q));
          rest.(fills := [Fill(taker.id, flat[i].id, flat[i].price, q, q == flat[i].quantity)] + rest.fills)
  }

  datatype FlatApplied = FlatApplied(flat: Flat, response: Response)

  function FlatAdd(flat: Flat, capacity: nat, o: Order): FlatApplied {
    if o.quantity == 0 then FlatApplied(flat, Added(Err(ZeroQuantity), []))
    else
      var m := FlatMatch(flat, o);
      if m.selfTrade then
        FlatApplied(m.flat, Added(Ok(AddResult(o.id, CancelledSelfTrade, m.fills)), m.fills))
      else if m.taker.quantity == 0 then
        FlatApplied(m.flat, Added(Ok(AddResult(o.id, FullyFilled, m.fills)), m.fills))
      else if FlatHasId(m.flat, o.id) then
        FlatApplied(m.flat, Added(Err(InBook(DuplicateOrderId(o.id))), m.fills))
      else if |m.flat| >= capacity then
        FlatApplied(m.flat, Added(Err(InBook(ArenaFull)), m.fills))
      else
        var status := if m.fills == [] then Resting else PartiallyFilled;
        FlatApplied(m.flat + [m.taker], Added(Ok(AddResult(o.id, status, m.fills)), m.fills))
  }

  function FlatCancel(flat: Flat, id: OrderId): FlatApplied {
    if FlatHasId(flat, id) then
      var i := Position(flat, id);
      FlatApplied(Without(flat, i), Cancelled(Ok(flat[i])))
    else FlatApplied(flat, Cancelled(Err(OrderNotFound(id))))
  }

  function FlatApply(flat: Flat, capacity: nat, c: Command): FlatApplied {
    match c
    case NewOrder(o) => FlatAdd(flat, capacity, o)
    case CancelOrder(id) => FlatCancel(flat, id)
  }

  lemma {:induction false} FlatMatchPositive(flat: Flat, taker: Order)
    requires Positive(flat)
    ensures Positive(FlatMatch(flat, taker).flat)
    decreases taker.quantity, |flat|
  {
    if taker.quantity > 0 && FlatMaker(flat, taker).Some? {
      var i := FlatMaker(flat, taker).value;
      if flat[i].traderId != taker.traderId {
        var q := Min(taker.quantity, flat[i].quantity);
        FlatMatchPositive(FlatReduce(flat, i, q), taker.(quantity := taker.quantity - q));
      }
    }
  }

  lemma FlatApplyPositive(flat: Flat, capacity: nat, c: Command)
    ensures Positive(flat) ==> Positive(FlatApply(flat, capacity, c).flat)
  {
    if Positive(flat) && c.NewOrder? && c.order.quantity > 0 {
      FlatMatchPositive(flat, c.order);
    }
  }

  /** The flat book and the responses after a sequence of commands. */
  function FlatReplay(flat: Flat, capacity: nat, cmds: seq<Command>): (r: Flat)
    ensures Positive(flat) ==> Positive(r)
    decreases |cmds|
  {
    if cmds == [] then flat
    else
      FlatApplyPositive(flat, capacity, cmds[0]);
      FlatReplay(FlatApply(flat, capacity, cmds[0]).flat, capacity, cmds[1..])
  }

  function FlatResponses(flat: Flat, capacity: nat, cmds: seq<Command>): (r: seq<Response>)
    ensures |r| == |cmds|
    decreases |cmds|
  {
    if cmds == [] then []
    else
      var a := FlatApply(flat, capacity, cmds[0]);
      [a.response] + FlatResponses(a.flat, capacity, cmds[1..])
  }

  // ---------------------------------------------------------------- observations

  function FlatBestPrice(flat: Flat, side: Side): Option<Price> {
    match BestIndex(flat, side)
    case None => None
    case Some(i) => Some(flat[i].price)
  }

  /** The orders of one side in price-time priority: take the best one, then the rest. */
  function PriceTime(flat: Flat, side: Side): seq<Order>
    decreases |flat|
  {
    match BestIndex(flat, side)
    case None => []
    case Some(i) => [flat[i]] + PriceTime(Without(flat, i), side)
  }

  /** Asks by ascending price, then bids by descending price, first come first within a price. */
  function Canonical(flat: Flat): seq<Order> {
    PriceTime(flat, Ask) + PriceTime(flat, Bid)
  }

  lemma NothingPositive()
    ensures Positive([])
  {
  }

  lemma {:induction false} PriceTimePositive(flat: Flat, side: Side)
    requires Positive(flat)
    ensures Positive(PriceTime(flat, side))
    decreases |flat|
  {
    match BestIndex(flat, side)
    case None =>
    case Some(i) => PriceTimePositive(Without(flat, i), side);
  }

  lemma CanonicalPositive(flat: Flat)
    ensures Positive(flat) ==> Positive(Canonical(flat))
  {
    if Positive(flat) {
      PriceTimePositive(flat, Ask);
      PriceTimePositive(flat, Bid);
    }
  }
}
