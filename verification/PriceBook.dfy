/**
 The order book as a value: a map from (side, price) to the orders queued there in time
 priority, the index from live order ids to their level, and the arena capacity. The classes
 of OrderBook and MatchingEngine are proved against the functions of this module; FlatBook
 gives an independent reference and Refinement connects the two.
 */
module PriceBook {
  import opened Types

  datatype Key = Key(side: Side, price: Price)

  function KeyOf(o: Order): Key {
    Key(o.side, o.price)
  }

  type Levels = map<Key, seq<Order>>

  datatype Book = Book(levels: Levels, index: map<OrderId, Key>, capacity: nat)

  function Empty(capacity: nat): Book {
    Book(map[], map[], capacity)
  }

  /** The orders queued at `k`, none when there is no such level. */
  function Get(levels: Levels, k: Key): seq<Order> {
    if k in levels then levels[k] else []
  }

  // ---------------------------------------------------------------- best prices

  /** Price `p` has priority over price `q` on `side`. */
  predicate Better(side: Side, p: Price, q: Price) {
    if side.Bid? then p > q else p < q
  }

  function Prices<V>(levels: map<Key, V>, side: Side): set<Price> {
    set k | k in levels && k.side == side :: k.price
  }

  ghost predicate IsExtreme(prices: set<Price>, side: Side, best: Option<Price>) {
    match best
    case None => prices == {}
    case Some(p) => p in prices && forall q | q in prices :: !Better(side, q, p)
  }

  lemma AnyOf<T>(s: set<T>) returns (x: T)
    requires s != {}
    ensures x in s
  {
    x :| x in s;
  }

  lemma Apart<T>(s: set<T>, x: T)
    requires x in s
    ensures x !in s - {x} && |s - {x}| == |s| - 1
    ensures forall y :: y in s <==> y == x || y in s - {x}
  {
  }

  lemma MapGrows<K, V>(m: map<K, V>, k: K, v: V)
    requires k !in m
    ensures |m[k := v]| == |m| + 1
  {
    assert m[k := v].Keys == m.Keys + {k};
    assert |m[k := v].Keys| == |m| + 1;
  }

  lemma MapShrinks<K, V>(m: map<K, V>, k: K)
    requires k in m
    ensures |m - {k}| == |m| - 1
  {
    assert (m - {k}).Keys == m.Keys - {k};
    assert |(m - {k}).Keys| == |m| - 1;
  }

  lemma {:induction false} FindExtreme(prices: set<Price>, side: Side) returns (p: Price)
    requires prices != {}
    ensures p in prices && forall q | q in prices :: !Better(side, q, p)
    decreases |prices|
  {
    var x := AnyOf(prices);
    Apart(prices, x);
    var rest := prices - {x};
    p := x;
    if rest != {} {
      p := FindExtreme(rest, side);
      if Better(side, x, p) {
        p := x;
      }
    }
  }

  lemma ExtremeExists(prices: set<Price>, side: Side)
    requires prices != {}
    ensures exists p :: p in prices && forall q | q in prices :: !Better(side, q, p)
  {
    var p := FindExtreme(prices, side);
  }

  /** The last key of a bid map, the first key of an ask map. */
  function Extreme(prices: set<Price>, side: Side): (best: Option<Price>)
    ensures IsExtreme(prices, side, best)
  {
    if prices == {} then None
    else
      ExtremeExists(prices, side);
      var p :| p in prices && forall q | q in prices :: !Better(side, q, p);
      Some(p)
  }

  function BestPrice(b: Book, side: Side): Option<Price> {
    Extreme(Prices(b.levels, side), side)
  }

  lemma BestPriceIsBest(b: Book, side: Side)
    ensures BestPrice(b, side).None? ==> forall k | k in b.levels :: k.side != side
    ensures BestPrice(b, side).Some? ==>
              && Key(side, BestPrice(b, side).value) in b.levels
              && forall k | k in b.levels && k.side == side :: !Better(side, k.price, BestPrice(b, side).value)
    ensures BestPrice(b, side).Some? ==>
              forall k | k in b.levels && k.side == side ::
                if side.Bid? then k.price <= BestPrice(b, side).value else k.price >= BestPrice(b, side).value
  {
    forall k | k in b.levels && k.side == side
      ensures k.price in Prices(b.levels, side)
    {
    }
    if BestPrice(b, side).Some? {
      var p := BestPrice(b, side).value;
      var k :| k in b.levels && k.side == side && k.price == p;
      assert k == Key(side, p);
    }
  }

  // ---------------------------------------------------------------- well-formedness

  predicate HasId(level: seq<Order>, id: OrderId) {
    exists i :: 0 <= i < |level| && level[i].id == id
  }

  ghost predicate LevelOk(level: seq<Order>, k: Key, index: map<OrderId, Key>) {
    && level != []
    && (forall i :: 0 <= i < |level| ==>
          && KeyOf(level[i]) == k
          && level[i].id in index
          && index[level[i].id] == k)
    && (forall i, j :: 0 <= i < j < |level| ==> level[i].id != level[j].id)
  }

  /** The shape of every level and of the id index. */
  ghost predicate Consistent(b: Book) {
    LevelsOk(b.levels, b.index) && IndexOk(b.levels, b.index) && |b.index| <= b.capacity
  }

  ghost predicate LevelsOk(levels: Levels, index: map<OrderId, Key>) {
    forall k | k in levels :: LevelOk(levels[k], k, index)
  }

  ghost predicate IndexOk(levels: Levels, index: map<OrderId, Key>) {
    forall id | id in index :: index[id] in levels && HasId(levels[index[id]], id)
  }

  ghost predicate Uncrossed(b: Book) {
    forall k, l | k in b.levels && l in b.levels && k.side.Bid? && l.side.Ask? :: k.price < l.price
  }

  ghost predicate WF(b: Book) {
    Consistent(b) && Uncrossed(b)
  }

  // ---------------------------------------------------------------- single operations

  function SetLevel(levels: Levels, k: Key, level: seq<Order>): Levels {
    if level == [] then levels - {k} else levels[k := level]
  }

  /** Queue `o` last at its level; the errors are tested in the order of the source. */
  function Insert(b: Book, o: Order): Result<Book, BookError> {
    if o.id in b.index then Err(DuplicateOrderId(o.id))
    else if |b.index| >= b.capacity then Err(ArenaFull)
    else
      var k := KeyOf(o);
      Ok(b.(levels := b.levels[k := Get(b.levels, k) + [o]], index := b.index[o.id := k]))
  }

  /** Position of the order with the given id. */
  function Position(level: seq<Order>, id: OrderId): (i: nat)
    requires HasId(level, id)
    ensures i < |level| && level[i].id == id
  {
    if level[0].id == id then 0
    else
      assert forall i :: 0 < i < |level| ==> level[i] == level[1..][i - 1];
      1 + Position(level[1..], id)
  }

  datatype CancelOutcome = CancelOutcome(book: Book, result: Result<Order, BookError>)

  function RemoveOrder(b: Book, k: Key, i: nat): Book
    requires k in b.levels && i < |b.levels[k]|
  {
    b.(levels := SetLevel(b.levels, k, Without(b.levels[k], i)),
       index := b.index - {b.levels[k][i].id})
  }

  function Cancel(b: Book, id: OrderId): CancelOutcome
    requires Consistent(b)
  {
    if id !in b.index then CancelOutcome(b, Err(OrderNotFound(id)))
    else
      var k := b.index[id];
      var i := Position(b.levels[k], id);
      CancelOutcome(RemoveOrder(b, k, i), Ok(b.levels[k][i]))
  }

  /** A queue after `q` was taken from its front order, which goes when nothing is left of it. */
  function FrontReduced(level: seq<Order>, q: nat): seq<Order>
    requires level != [] && q <= level[0].quantity
  {
    if q == level[0].quantity then level[1..]
    else [level[0].(quantity := level[0].quantity - q)] + level[1..]
  }

  function ReduceFront(b: Book, k: Key, q: nat): Book
    requires k in b.levels && b.levels[k] != []
    requires q <= b.levels[k][0].quantity
  {
    var front := b.levels[k][0];
    b.(levels := SetLevel(b.levels, k, FrontReduced(b.levels[k], q)),
       index := if q == front.quantity then b.index - {front.id} else b.index)
  }

  // ---------------------------------------------------------------- matching

  predicate Crosses(taker: Order, p: Price) {
    if taker.side.Bid? then p <= taker.price else p >= taker.price
  }

  datatype MatchOutcome = MatchOutcome(book: Book, taker: Order, fills: seq<Fill>, selfTrade: bool)

  function MakeFill(taker: Order, maker: Order, q: nat): Fill
    requires q <= maker.quantity
  {
    Fill(taker.id, maker.id, maker.price, q, q == maker.quantity)
  }

  /** The front order of the best level of the side opposite to the taker, if its price crosses. */
  function CrossingMaker(b: Book, taker: Order): (r: Option<Order>)
    requires Consistent(b)
    ensures r.Some? ==> KeyOf(r.value) in b.levels && b.levels[KeyOf(r.value)] != []
    ensures r.Some? ==> b.levels[KeyOf(r.value)][0] == r.value
    ensures r.Some? ==> r.value.side == Opposite(taker.side)
  {
    var side := Opposite(taker.side);
    match BestPrice(b, side)
    case None => None
    case Some(p) =>
      BestPriceIsBest(b, side);
      if Crosses(taker, p) then Some(b.levels[Key(side, p)][0]) else None
  }

  function Match(b: Book, taker: Order): MatchOutcome
    requires Consistent(b)
    decreases taker.quantity, |b.index|
  {
    if taker.quantity == 0 then MatchOutcome(b, taker, [], false)
    else match CrossingMaker(b, taker)
      case None => MatchOutcome(b, taker, [], false)
      case Some(maker) =>
        if maker.traderId == taker.traderId then MatchOutcome(b, taker, [], true)
        else
          var q := Min(taker.quantity, maker.quantity);
          ReduceFrontConsistent(b, KeyOf(maker), q);
          var rest := Match(ReduceFront(b, KeyOf(maker), q), taker.(quantity := taker.quantity - q));
          rest.(fills := [MakeFill(taker, maker, q)] + rest.fills)
  }

  datatype AddResult = AddResult(orderId: OrderId, status: OrderStatus, fills: seq<Fill>)

  /** `fills` are the fills made even when `result` is an error that hides them. */
  datatype AddOutcome = AddOutcome(
    book: Book, result: Result<AddResult, MatchingError>, fills: seq<Fill>)

  function Add(b: Book, o: Order): AddOutcome
    requires Consistent(b)
  {
    if o.quantity == 0 then AddOutcome(b, Err(ZeroQuantity), [])
    else
      var m := Match(b, o);
      if m.selfTrade then
        AddOutcome(m.book, Ok(AddResult(o.id, CancelledSelfTrade, m.fills)), m.fills)
      else if m.taker.quantity == 0 then
        AddOutcome(m.book, Ok(AddResult(o.id, FullyFilled, m.fills)), m.fills)
      else match Insert(m.book, m.taker)
        case Err(e) => AddOutcome(m.book, Err(InBook(e)), m.fills)
        case Ok(b') =>
          AddOutcome(b', Ok(AddResult(o.id, if m.fills == [] then Resting else PartiallyFilled, m.fills)),
                     m.fills)
  }

  // ---------------------------------------------------------------- preservation

  lemma ReduceFrontConsistent(b: Book, k: Key, q: nat)
    requires Consistent(b)
    requires k in b.levels && q <= b.levels[k][0].quantity
    ensures Consistent(ReduceFront(b, k, q))
    ensures ReduceFront(b, k, q).levels.Keys <= b.levels.Keys
    ensures ReduceFront(b, k, q).capacity == b.capacity
    ensures |ReduceFront(b, k, q).index| == |b.index| - (if q == b.levels[k][0].quantity then 1 else 0)
  {
    assert LevelOk(b.levels[k], k, b.index);
    hide *;
    if q == b.levels[k][0].quantity {
      FrontFilledConsistent(b, k);
    } else {
      FrontReducedConsistent(b, k, q);
      FrontReducedFrame(b, k, q);
    }
  }

  lemma FrontFilledConsistent(b: Book, k: Key)
    requires Consistent(b) && k in b.levels
    ensures var b' := ReduceFront(b, k, b.levels[k][0].quantity);
            && Consistent(b')
            && b'.levels.Keys <= b.levels.Keys
            && b'.capacity == b.capacity
            && |b'.index| == |b.index| - 1
  {
    assert LevelOk(b.levels[k], k, b.index);
    hide Consistent, LevelOk;
    assert Without(b.levels[k], 0) == b.levels[k][1..];
    RemoveConsistent(b, k, 0);
  }

  lemma FrontReducedConsistent(b: Book, k: Key, q: nat)
    requires Consistent(b) && k in b.levels && q < b.levels[k][0].quantity
    ensures Consistent(ReduceFront(b, k, q))
  {
    assert LevelOk(b.levels[k], k, b.index);
    hide Consistent, LevelOk;
    ReducedLevelOk(b.levels[k], k, b.index, q);
    ReplaceConsistent(b, k, FrontReduced(b.levels[k], q));
  }

  lemma FrontReducedFrame(b: Book, k: Key, q: nat)
    requires k in b.levels && b.levels[k] != [] && q < b.levels[k][0].quantity
    ensures var b' := ReduceFront(b, k, q);
            b'.levels.Keys == b.levels.Keys && b'.capacity == b.capacity && b'.index == b.index
  {
  }

  lemma ReducedLevelOk(level: seq<Order>, k: Key, index: map<OrderId, Key>, q: nat)
    requires LevelOk(level, k, index) && q < level[0].quantity
    ensures var level' := FrontReduced(level, q);
            && LevelOk(level', k, index)
            && |level'| == |level|
            && forall i :: 0 <= i < |level| ==> level'[i].id == level[i].id
  {
  }

  /** Replacing a level by one that holds the same ids keeps the book consistent. */
  lemma ReplaceConsistent(b: Book, k: Key, level': seq<Order>)
    requires Consistent(b)
    requires k in b.levels && LevelOk(level', k, b.index) && |level'| == |b.levels[k]|
    requires forall i :: 0 <= i < |level'| ==> level'[i].id == b.levels[k][i].id
    ensures Consistent(b.(levels := b.levels[k := level']))
    ensures b.levels[k := level'].Keys == b.levels.Keys
  {
    hide LevelOk, HasId;
    forall x | x in b.index && b.index[x] == k
      ensures HasId(level', x)
    {
      SameIds(b.levels[k], level', x);
    }
  }

  lemma SameIds(level: seq<Order>, level': seq<Order>, x: OrderId)
    requires HasId(level, x) && |level'| == |level|
    requires forall i :: 0 <= i < |level'| ==> level'[i].id == level[i].id
    ensures HasId(level', x)
  {
    assert level'[Position(level, x)].id == x;
  }

  lemma LevelWithout(level: seq<Order>, k: Key, index: map<OrderId, Key>, i: nat)
    requires LevelOk(level, k, index) && i < |level|
    ensures |level| > 1 ==> LevelOk(Without(level, i), k, index - {level[i].id})
  {
    var level' := Without(level, i);
    assert forall j :: 0 <= j < |level'| ==> level'[j] == level[if j < i then j else j + 1];
  }

  lemma HasIdWithout(level: seq<Order>, x: OrderId, i: nat)
    requires i < |level| && HasId(level, x) && level[i].id != x
    ensures HasId(Without(level, i), x)
  {
    var j := Position(level, x);
    assert Without(level, i)[if j < i then j else j - 1].id == x;
  }

  /** Dropping one order, with its index entry, keeps the book consistent. */
  lemma RemoveConsistent(b: Book, k: Key, i: nat)
    requires Consistent(b)
    requires k in b.levels && i < |b.levels[k]|
    ensures var b' := RemoveOrder(b, k, i);
            && Consistent(b')
            && b'.levels.Keys <= b.levels.Keys
            && b'.capacity == b.capacity
            && |b'.index| == |b.index| - 1
  {
    var id := b.levels[k][i].id;
    assert LevelOk(b.levels[k], k, b.index);
    assert id in b.index;
    RemovedLevels(b, k, i);
    RemovedIndex(b, k, i);
    hide LevelOk, LevelsOk, IndexOk, Without;
    MapShrinks(b.index, id);
  }

  lemma RemovedLevels(b: Book, k: Key, i: nat)
    requires Consistent(b)
    requires k in b.levels && i < |b.levels[k]|
    ensures LevelsOk(RemoveOrder(b, k, i).levels, RemoveOrder(b, k, i).index)
  {
    var b' := RemoveOrder(b, k, i);
    var id := b.levels[k][i].id;
    assert LevelOk(b.levels[k], k, b.index);
    assert b.index[id] == k;
    hide LevelOk;
    forall l | l in b'.levels
      ensures LevelOk(b'.levels[l], l, b'.index)
    {
      if l == k {
        LevelWithout(b.levels[k], k, b.index, i);
      } else {
        LevelElsewhere(b.levels[l], l, b.index, id);
      }
    }
  }

  lemma LevelElsewhere(level: seq<Order>, l: Key, index: map<OrderId, Key>, id: OrderId)
    requires LevelOk(level, l, index) && id in index && index[id] != l
    ensures LevelOk(level, l, index - {id})
  {
  }

  lemma RemovedIndex(b: Book, k: Key, i: nat)
    requires Consistent(b)
    requires k in b.levels && i < |b.levels[k]|
    ensures IndexOk(RemoveOrder(b, k, i).levels, RemoveOrder(b, k, i).index)
  {
    var b' := RemoveOrder(b, k, i);
    hide LevelOk, HasId;
    forall x | x in b'.index
      ensures b'.index[x] in b'.levels && HasId(b'.levels[b'.index[x]], x)
    {
      if b.index[x] == k {
        HasIdWithout(b.levels[k], x, i);
        NonEmptyIfHasId(Without(b.levels[k], i), x);
      }
    }
  }

  lemma IndexedLevel(b: Book, id: OrderId)
    requires Consistent(b) && id in b.index
    ensures b.index[id] in b.levels && HasId(b.levels[b.index[id]], id)
  {
  }

  lemma NonEmptyIfHasId(level: seq<Order>, x: OrderId)
    requires HasId(level, x)
    ensures level != []
  {
  }

  lemma InsertConsistent(b: Book, o: Order)
    requires Consistent(b)
    ensures Insert(b, o).Ok? ==>
              var b' := Insert(b, o).value;
              && Consistent(b')
              && b'.levels.Keys == b.levels.Keys + {KeyOf(o)}
              && |b'.index| == |b.index| + 1
  {
    hide LevelsOk, IndexOk, Get;
    if Insert(b, o).Ok? {
      InsertedLevels(b, o);
      InsertedIndex(b, o);
      MapGrows(b.index, o.id, KeyOf(o));
    }
  }

  lemma InsertedLevels(b: Book, o: Order)
    requires Consistent(b) && Insert(b, o).Ok?
    ensures var b' := Insert(b, o).value;
            LevelsOk(b'.levels, b'.index)
  {
    hide LevelOk, HasId;
    var b' := Insert(b, o).value;
    forall l | l in b'.levels
      ensures LevelOk(b'.levels[l], l, b'.index)
    {
      if l == KeyOf(o) {
        AppendedLevelOk(Get(b.levels, l), o, b.index);
      } else {
        OtherLevelOk(b.levels[l], l, b.index, o.id, KeyOf(o));
      }
    }
  }

  lemma InsertedIndex(b: Book, o: Order)
    requires Consistent(b) && Insert(b, o).Ok?
    ensures var b' := Insert(b, o).value;
            IndexOk(b'.levels, b'.index)
  {
    hide LevelOk, HasId;
    var b' := Insert(b, o).value;
    forall x | x in b'.index
      ensures b'.index[x] in b'.levels && HasId(b'.levels[b'.index[x]], x)
    {
      HasIdAppended(Get(b.levels, KeyOf(o)), o, x);
    }
  }

  lemma AppendedLevelOk(level: seq<Order>, o: Order, index: map<OrderId, Key>)
    requires level == [] || LevelOk(level, KeyOf(o), index)
    requires o.id !in index
    ensures LevelOk(level + [o], KeyOf(o), index[o.id := KeyOf(o)])
  {
  }

  lemma OtherLevelOk(level: seq<Order>, l: Key, index: map<OrderId, Key>, id: OrderId, k: Key)
    requires LevelOk(level, l, index) && id !in index
    ensures LevelOk(level, l, index[id := k])
  {
  }

  lemma HasIdAppended(level: seq<Order>, o: Order, x: OrderId)
    ensures HasId(level, x) || x == o.id ==> HasId(level + [o], x)
  {
    if HasId(level, x) {
      assert (level + [o])[Position(level, x)].id == x;
    } else if x == o.id {
      assert (level + [o])[|level|].id == x;
    }
  }

  lemma CancelWF(b: Book, id: OrderId)
    requires Consistent(b)
    ensures Consistent(Cancel(b, id).book)
    ensures Uncrossed(b) ==> Uncrossed(Cancel(b, id).book)
    ensures Cancel(b, id).book.capacity == b.capacity
  {
    if id in b.index {
      var k := b.index[id];
      RemoveConsistent(b, k, Position(b.levels[k], id));
    }
  }

  /**
   What matching leaves behind: a consistent book with no new level, a taker that lost only
   quantity, and, when some quantity is left to rest, nothing on the other side that it
   crosses and, if there was any fill, a freed arena slot.
   */
  lemma {:induction false} MatchKeeps(b: Book, taker: Order)
    requires Consistent(b)
    ensures var m := Match(b, taker);
            && Consistent(m.book)
            && m.book.capacity == b.capacity
            && m.book.levels.Keys <= b.levels.Keys
            && |m.book.index| <= |b.index|
            && m.taker.quantity <= taker.quantity
            && m.taker == taker.(quantity := m.taker.quantity)
            && (m.taker.quantity > 0 && !m.selfTrade ==> CrossingMaker(m.book, m.taker).None?)
            && (m.fills != [] && m.taker.quantity > 0 ==> |m.book.index| < |b.index|)
            && (m.fills == [] ==> m.book == b && m.taker == taker)
            && (m.selfTrade ==> m.taker.quantity > 0)
    decreases taker.quantity, |b.index|
  {
    hide Consistent, CrossingMaker, ReduceFront;
    if taker.quantity > 0 && CrossingMaker(b, taker).Some? {
      var maker := CrossingMaker(b, taker).value;
      if maker.traderId != taker.traderId {
        var q := Min(taker.quantity, maker.quantity);
        ReduceFrontConsistent(b, KeyOf(maker), q);
        MatchKeeps(ReduceFront(b, KeyOf(maker), q), taker.(quantity := taker.quantity - q));
      }
    }
  }

  /** An order that crosses nothing on the other side can rest without crossing the book. */
  lemma RestUncrossed(b: Book, o: Order)
    requires Consistent(b)
    requires CrossingMaker(b, o).None?
    ensures Insert(b, o).Ok? && Uncrossed(b) ==> Uncrossed(Insert(b, o).value)
    ensures Insert(b, o).Ok? ==> Insert(b, o).value.capacity == b.capacity
  {
    BestPriceIsBest(b, Opposite(o.side));
    hide Consistent, BestPrice;
  }

  lemma AddWF(b: Book, o: Order)
    requires Consistent(b)
    ensures Consistent(Add(b, o).book)
    ensures Uncrossed(b) ==> Uncrossed(Add(b, o).book)
    ensures Add(b, o).book.capacity == b.capacity
  {
    hide Consistent, Match, CrossingMaker, Insert, LevelOk, BestPrice;
    if o.quantity > 0 {
      MatchKeeps(b, o);
      var m := Match(b, o);
      if !m.selfTrade && m.taker.quantity > 0 {
        InsertConsistent(m.book, m.taker);
        RestUncrossed(m.book, m.taker);
      }
    }
  }

  // ---------------------------------------------------------------- runs

  datatype Response =
    | Added(add: Result<AddResult, MatchingError>, fills: seq<Fill>)
    | Cancelled(cancel: Result<Order, BookError>)

  datatype Applied = Applied(book: Book, response: Response)

  function Apply(b: Book, c: Command): Applied
    requires Consistent(b)
  {
    match c
    case NewOrder(o) => var a := Add(b, o); Applied(a.book, Added(a.result, a.fills))
    case CancelOrder(id) => var x := Cancel(b, id); Applied(x.book, Cancelled(x.result))
  }

  lemma ApplyWF(b: Book, c: Command)
    requires Consistent(b)
    ensures Consistent(Apply(b, c).book) && Apply(b, c).book.capacity == b.capacity
    ensures WF(b) ==> WF(Apply(b, c).book)
  {
    hide Consistent, Uncrossed, Add, Cancel;
    match c
    case NewOrder(o) => AddWF(b, o);
    case CancelOrder(id) => CancelWF(b, id);
  }

  lemma EmptyWF(capacity: nat)
    ensures WF(Empty(capacity))
  {
  }

  /** The book after a sequence of commands. */
  function Replay(b: Book, cmds: seq<Command>): (r: Book)
    requires Consistent(b)
    ensures Consistent(r) && r.capacity == b.capacity
    ensures WF(b) ==> WF(r)
    decreases |cmds|
  {
    if cmds == [] then b
    else
      ApplyWF(b, cmds[0]);
      Replay(Apply(b, cmds[0]).book, cmds[1..])
  }

  /** The responses to a sequence of commands. */
  function Responses(b: Book, cmds: seq<Command>): (r: seq<Response>)
    requires Consistent(b)
    ensures |r| == |cmds|
    decreases |cmds|
  {
    if cmds == [] then []
    else
      ApplyWF(b, cmds[0]);
      [Apply(b, cmds[0]).response] + Responses(Apply(b, cmds[0]).book, cmds[1..])
  }

  lemma {:induction false} ReplayAppend(b: Book, cmds: seq<Command>, more: seq<Command>)
    requires Consistent(b)
    ensures Replay(b, cmds + more) == Replay(Replay(b, cmds), more)
    decreases |cmds|
  {
    hide Consistent, Apply;
    if cmds == [] {
      assert cmds + more == more;
    } else {
      ApplyWF(b, cmds[0]);
      assert (cmds + more)[1..] == cmds[1..] + more;
      ReplayAppend(Apply(b, cmds[0]).book, cmds[1..], more);
    }
  }
}
