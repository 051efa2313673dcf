/** The order book: two ordered maps of levels, cached best prices, an id index and the arena. */
module OrderBooks {
  import opened Types
  import opened PriceBook
  import opened Sweep
  import opened Refinement
  import opened Arenas
  import opened BookHeap
  import opened BookInsert
  import opened BookRemove

  type LevelMap = map<Price, PriceLevel>

  /** The two level maps hold exactly `levels`. */
  ghost predicate Mirrors(bids: LevelMap, asks: LevelMap, levels: map<Key, PriceLevel>) {
    && (forall k | k in levels && k.side.Bid? :: k.price in bids && bids[k.price] == levels[k])
    && (forall k | k in levels && k.side.Ask? :: k.price in asks && asks[k.price] == levels[k])
    && (forall p | p in bids :: Key(Bid, p) in levels)
    && (forall p | p in asks :: Key(Ask, p) in levels)
  }

  /** Everything the book keeps true: the value state is sound and stands for a consistent book. */
  ghost predicate Good(h: Heap, bestBid: Option<Price>, bestAsk: Option<Price>) {
    && Sound(h)
    && Consistent(Abs(h))
    && bestBid == BestPrice(Abs(h), Bid)
    && bestAsk == BestPrice(Abs(h), Ask)
  }

  class OrderBook {
    var bids: LevelMap
    var asks: LevelMap
    var bestBid: Option<Price>
    var bestAsk: Option<Price>
    var orderIndex: map<OrderId, Slot>
    const arena: Arena

    ghost var levels: map<Key, PriceLevel>
    ghost var chains: map<Key, Chain>

    ghost function State(): Heap
      reads this, arena, arena.storage
    {
      Heap(arena.storage[..], arena.free, levels, chains, orderIndex)
    }

    /** The price-level book this object stands for. */
    ghost function Model(): Book
      reads this, arena, arena.storage
    {
      Abs(State())
    }

    ghost predicate Valid()
      reads this, arena, arena.storage
    {
      arena.Valid() && Mirrors(bids, asks, levels) && Good(State(), bestBid, bestAsk)
    }

    constructor (capacity: U32)
      ensures Valid() && fresh(arena) && fresh(arena.storage)
      ensures Model() == Empty(capacity)
    {
      arena := new Arena(capacity);
      bids, asks := map[], map[];
      bestBid, bestAsk := None, None;
      orderIndex := map[];
      levels, chains := map[], map[];
      new;
      EmptyGood(State(), capacity);
    }

    /** The level at a side and price, if there is one. */
    function LevelOf(side: Side, price: Price): Option<PriceLevel>
      reads this
    {
      var m := if side.Bid? then bids else asks;
      if price in m then Some(m[price]) else None
    }

    /** Store a level, keeping the ghost mirror in step. */
    method PutLevel(side: Side, price: Price, level: PriceLevel)
      requires Mirrors(bids, asks, levels)
      modifies this
      ensures Mirrors(bids, asks, levels)
      ensures levels == old(levels)[Key(side, price) := level]
      ensures bestBid == old(bestBid) && bestAsk == old(bestAsk)
      ensures orderIndex == old(orderIndex) && chains == old(chains)
    {
      hide Mirrors;
      MirrorPut(bids, asks, levels, side, price, level);
      match side {
        case Bid => bids := bids[price := level];
        case Ask => asks := asks[price := level];
      }
      levels := levels[Key(side, price) := level];
    }

    /** Drop a level, keeping the ghost mirror in step. */
    method DropLevel(side: Side, price: Price)
      requires Mirrors(bids, asks, levels)
      modifies this
      ensures Mirrors(bids, asks, levels)
      ensures levels == old(levels) - {Key(side, price)}
      ensures orderIndex == old(orderIndex) && chains == old(chains)
      ensures side.Bid? ==> bestBid == Extreme(Prices(levels, Bid), Bid) && bestAsk == old(bestAsk)
      ensures side.Ask? ==> bestAsk == Extreme(Prices(levels, Ask), Ask) && bestBid == old(bestBid)
    {
      hide Mirrors, Prices, Extreme;
      MirrorDrop(bids, asks, levels, side, price);
      levels := levels - {Key(side, price)};
      match side {
        case Bid =>
          bids := bids - {price};
          MirrorPrices(bids, asks, levels);
          bestBid := Extreme(bids.Keys, Bid);
        case Ask =>
          asks := asks - {price};
          MirrorPrices(bids, asks, levels);
          bestAsk := Extreme(asks.Keys, Ask);
      }
    }

    /** Queue an order at its level; a duplicate id and a full arena leave the book as it was. */
    method InsertOrder(order: Order) returns (r: Option<BookError>)
      requires Valid()
      modifies this, arena, arena.storage
      ensures Valid()
      ensures r.None? ==> Insert(old(Model()), order) == Ok(Model())
      ensures r.Some? ==> Insert(old(Model()), order) == Err(r.value) && Model() == old(Model())
    {
      hide Abs, Sound, Insert, Consistent, BestPrice, Mirrors, Singly, NoDup, Attachable;
      ghost var h := State();
      InsertRefused(h, order);
      if order.id in orderIndex {
        return Some(DuplicateOrderId(order.id));
      }
      var slot := arena.Alloc(order);
      if slot.None? {
        return Some(ArenaFull);
      }
      FreeNotInChains(h, 0);
      AttachableIntro(h, State(), order, bestBid, bestAsk);
      Attach(order, slot.value, h);
      r := None;
    }

    /** Link an allocated order into its level, creating the level if need be, and index it. */
    method Attach(order: Order, index: Slot, ghost h: Heap)
      requires arena.Valid() && Mirrors(bids, asks, levels)
      requires Attachable(h, State(), order, bestBid, bestAsk) && index == h.free[0]
      modifies this, arena.storage
      ensures Valid()
      ensures Insert(Abs(h), order) == Ok(Model())
    {
      hide Abs, Sound, Insert, Consistent, BestPrice, Mirrors, Linked, Singly, NoDup, CanInsert, Good, RelinksOnly, BestWith;
      ghost var k := KeyOf(order);
      ghost var chain := ChainAt(chains, k);
      assert |arena.storage[..]| == |h.nodes|;
      var entry := LevelOf(order.side, order.price);
      var level := if entry.Some? then entry.value else NEW_LEVEL;
      MirrorAt(bids, asks, levels, k);
      GoodSound(h, bestBid, bestAsk);
      JoinedLevel(h, order, level);
      var level' := arena.PushBack(level, index, chain);
      ghost var nodes := arena.storage[..];
      FreeAfterPush(h, order, nodes);
      PushedCanInsert(h, order, nodes, level');
      Enter(order, index, level', h);
    }

    /** Store the level of a linked order, index the order and update the best price of its side. */
    method Enter(order: Order, index: Slot, level': PriceLevel, ghost h: Heap)
      requires arena.Valid() && Mirrors(bids, asks, levels) && Good(h, bestBid, bestAsk)
      requires CanInsert(h, order, arena.storage[..], level') && index == h.free[0]
      requires State() == h.(nodes := arena.storage[..], free := h.free[1..])
      modifies this
      ensures Valid()
      ensures Insert(Abs(h), order) == Ok(Model())
    {
      hide Abs, Sound, Insert, Consistent, BestPrice, Mirrors, Linked, Singly, NoDup, Good, NodesInserted, BestWith, Link;
      ghost var nodes := arena.storage[..];
      ghost var k := KeyOf(order);
      InsertGood(h, order, nodes, level', bestBid, bestAsk);
      PutLevel(order.side, order.price, level');
      chains := chains[k := ChainAt(chains, k) + [index]];
      orderIndex := orderIndex[order.id := index];
      UpdateBestAfterInsert(order.side, order.price);
      assert State() == InsertHeap(h, order, nodes, level');
    }

    /** Write back a level after a removal, or drop it and recompute the best price of its side. */
    method FinishLevel(side: Side, price: Price, level: PriceLevel)
      requires Mirrors(bids, asks, levels)
      modifies this
      ensures Mirrors(bids, asks, levels)
      ensures orderIndex == old(orderIndex) && chains == old(chains)
      ensures levels == if level.count == 0 then old(levels) - {Key(side, price)}
                        else old(levels)[Key(side, price) := level]
      ensures BestsAfter(levels, Key(side, price), level.count == 0, old(bestBid), old(bestAsk), bestBid, bestAsk)
    {
      if level.count == 0 {
        DropLevel(side, price);
      } else {
        PutLevel(side, price, level);
      }
    }

    /** Remove an order by id. */
    method CancelOrder(id: OrderId) returns (r: Result<Order, BookError>)
      requires Valid()
      modifies this, arena, arena.storage
      ensures Valid()
      ensures Cancel(old(Model()), id) == CancelOutcome(Model(), r)
    {
      ghost var h := State();
      hide Abs, Sound, Cancel, Consistent, BestPrice, Mirrors, BestsAfter, CanRemove, Without, Linked;
      CancelRefused(h, id);
      if id !in orderIndex {
        return Err(OrderNotFound(id));
      }
      var index := orderIndex[id];
      ghost var i := QueuePosition(h, id);
      orderIndex := orderIndex - {id};
      var order := arena.storage[index].order;
      ghost var k := KeyOf(order);
      r := Err(PriceLevelNotFound(order.price));
      MirrorAt(bids, asks, levels, k);
      var entry := LevelOf(order.side, order.price);
      if entry.Some? {
        ghost var chain := chains[k];
        var level := arena.Remove(entry.value, index, chain, i);
        ghost var nodes1 := arena.storage[..];
        FreeAfterUnlink(h, k, i, nodes1);
        arena.Dealloc(index);
        UnlinkedCanRemove(h, k, i, nodes1, level, old(arena.freeHead));
        chains := SetChain(chains, k, Without(chain, i), Without(chain, i));
        FinishLevel(order.side, order.price, level);
        assert State() == RemoveHeap(h, k, i, arena.storage[..], level);
        hide RemoveHeap;
        RemoveBests(h, k, i, arena.storage[..], level, old(bestBid), old(bestAsk), bestBid, bestAsk);
        CancelGood(h, id, i, arena.storage[..], level);
        r := Ok(order);
      }
    }

    /** The order at the front of a level. */
    method PeekFront(side: Side, price: Price) returns (r: Option<Order>)
      requires Valid()
      ensures r == if Key(side, price) in Model().levels && Model().levels[Key(side, price)] != []
                   then Some(Model().levels[Key(side, price)][0]) else None
    {
      ghost var k := Key(side, price);
      hide Abs, Sound, Consistent, BestPrice, Mirrors;
      MirrorAt(bids, asks, levels, k);
      FrontOf(State(), k);
      var entry := LevelOf(side, price);
      if entry.None? || entry.value.head == NULL {
        return None;
      }
      r := Some(arena.storage[entry.value.head].order);
    }

    /** Take `taken` from the front order of a level and from the level's quantity word. */
    method LowerFront(side: Side, price: Price, level: PriceLevel, taken: nat)
      requires arena.Valid() && Mirrors(bids, asks, levels)
      requires Key(side, price) in levels && levels[Key(side, price)] == level
      requires CanUpdate(State(), Key(side, price), taken) && level.head == chains[Key(side, price)][0]
      modifies this, arena.storage
      ensures arena.Valid() && Mirrors(bids, asks, levels)
      ensures State() == UpdateHeap(old(State()), Key(side, price), taken)
      ensures bestBid == old(bestBid) && bestAsk == old(bestAsk)
    {
      hide Sound, Mirrors;
      var node := arena.storage[level.head];
      arena.storage[level.head] := WithQuantity(node, node.order.quantity - taken);
      PutLevel(side, price, Adjusted(level, taken));
      assert arena.storage[..] == UpdateHeap(old(State()), Key(side, price), taken).nodes;
    }

    /** Drop the front order of a level. */
    method DropFront(side: Side, price: Price, level: PriceLevel)
      requires arena.Valid() && Mirrors(bids, asks, levels) && Sound(State())
      requires Key(side, price) in levels && levels[Key(side, price)] == level
      requires bestBid == BestPrice(Model(), Bid) && bestAsk == BestPrice(Model(), Ask)
      modifies this, arena, arena.storage
      ensures arena.Valid() && Mirrors(bids, asks, levels) && Sound(State())
      ensures Key(side, price) in old(Model()).levels && old(Model()).levels[Key(side, price)] != []
      ensures Model() == RemoveOrder(old(Model()), Key(side, price), 0)
      ensures bestBid == BestPrice(Model(), Bid) && bestAsk == BestPrice(Model(), Ask)
    {
      ghost var h := State();
      ghost var k := Key(side, price);
      hide Abs, Sound, BestPrice, Mirrors, BestsAfter, CanRemove, Without, Linked;
      FrontLinked(h, k);
      var removedId := arena.storage[level.head].order.id;
      var level', popped := arena.PopFront(level, chains[k]);
      ghost var nodes1 := arena.storage[..];
      WithoutFirst(chains[k]);
      FreeAfterUnlink(h, k, 0, nodes1);
      arena.Dealloc(level.head);
      UnlinkedCanRemove(h, k, 0, nodes1, level', old(arena.freeHead));
      orderIndex := orderIndex - {removedId};
      chains := SetChain(chains, k, Without(chains[k], 0), Without(chains[k], 0));
      FinishLevel(side, price, level');
      assert State() == RemoveHeap(h, k, 0, arena.storage[..], level');
      hide RemoveHeap;
      RemoveBests(h, k, 0, arena.storage[..], level', old(bestBid), old(bestAsk), bestBid, bestAsk);
      RemoveSound(h, k, 0, arena.storage[..], level');
      RemoveAbs(h, k, 0, arena.storage[..], level');
    }

    /** Fill part or all of the front order of a level; returns what is left of it. */
    method ReduceFrontQuantity(side: Side, price: Price, fillQty: U64) returns (r: Result<U64, BookError>)
      requires Valid()
      modifies this, arena, arena.storage
      ensures Valid()
      ensures var b := old(Model());
              var k := Key(side, price);
              if k !in b.levels || b.levels[k] == [] then r == Err(PriceLevelNotFound(price)) && Model() == b
              else
                var front := b.levels[k][0].quantity;
                if fillQty > front then r == Err(FillExceedsQuantity(front, fillQty)) && Model() == b
                else r == Ok(front - fillQty) && Model() == ReduceFront(b, k, fillQty)
    {
      ghost var h := State();
      ghost var k := Key(side, price);
      hide Abs, Sound, Consistent, BestPrice, Mirrors, ReduceFront, CanUpdate, UpdateHeap;
      MirrorAt(bids, asks, levels, k);
      FrontOf(h, k);
      r := Err(PriceLevelNotFound(price));
      var entry := LevelOf(side, price);
      if entry.Some? && entry.value.head != NULL {
        var level := entry.value;
        var front := arena.storage[level.head].order.quantity;
        if fillQty > front {
          return Err(FillExceedsQuantity(front, fillQty));
        }
        UpdateReady(h, k, fillQty);
        LowerFront(side, price, level, fillQty);
        LoweredGood(h, k, fillQty);
        if front == fillQty {
          DropFront(side, price, Adjusted(level, fillQty));
        }
        r := Ok(front - fillQty);
      }
    }

    /** The orders of one side, best price first. */
    method ListSide(side: Side) returns (orders: seq<Order>)
      requires Valid()
      ensures orders == Queue(Model().levels, side)
    {
      ghost var h := State();
      ghost var rest := Model().levels;
      hide Abs, Sound, Consistent, BestPrice, Mirrors, Linked, Queue, Prices, Along;
      LevelsListed(h, bids, asks, side);
      var m := if side.Bid? then bids else asks;
      var prices := m.Keys;
      orders := [];
      while prices != {}
        invariant prices == Prices(rest, side) && prices <= m.Keys
        invariant rest.Keys <= h.chains.Keys
        invariant forall k | k in rest ::
                    InBounds(|h.nodes|, h.chains[k]) && rest[k] == Orders(h.nodes, h.chains[k])
        invariant orders + Queue(rest, side) == Queue(Model().levels, side)
        decreases prices
      {
        var p := Extreme(prices, side).value;
        ghost var k := Key(side, p);
        MirrorAt(bids, asks, levels, k);
        QueueFront(rest, side, p, []);
        PricesWithout(rest, side, k);
        assert k in rest.Keys;
        SoundLevel(h, k);
        LinkedAlong(h.nodes, m[p], h.chains[k]);
        var level := WalkLevel(arena.storage[..], m[p].head, h.chains[k], rest[k]);
        assert orders + (level + Queue(rest - {k}, side)) == orders + level + Queue(rest - {k}, side);
        orders := orders + level;
        prices := prices - {p};
        rest := rest - {k};
      }
      NoPricesNoQueue(rest, side);
    }

    /** Asks by ascending price, then bids by descending price, first come first within a price. */
    method AllRestingOrders() returns (orders: seq<Order>)
      requires Valid()
      ensures orders == Listing(Model())
    {
      var askOrders := ListSide(Ask);
      var bidOrders := ListSide(Bid);
      orders := askOrders + bidOrders;
    }

    method OrderCount() returns (n: nat)
      requires Valid()
      ensures n == arena.count == |Model().index|
    {
      hide Abs, Sound;
      n := |orderIndex|;
      IndexSize(State());
      SoundParts(State());
    }

    method UpdateBestAfterInsert(side: Side, price: Price)
      modifies this
      ensures bids == old(bids) && asks == old(asks) && orderIndex == old(orderIndex)
      ensures levels == old(levels) && chains == old(chains)
      ensures bestBid == if side.Bid? then BestWith(old(bestBid), Bid, price) else old(bestBid)
      ensures bestAsk == if side.Ask? then BestWith(old(bestAsk), Ask, price) else old(bestAsk)
    {
      match side {
        case Bid => bestBid := BestWith(bestBid, Bid, price);
        case Ask => bestAsk := BestWith(bestAsk, Ask, price);
      }
    }
  }

  // ---------------------------------------------------------------- inserting

  /** The level a new order joins, and its chain, in the state right after the allocation. */
  /** `h'` is the good state `h` with its first free slot taken for `o`. */
  ghost predicate Attachable(h: Heap, h': Heap, o: Order, bid: Option<Price>, ask: Option<Price>) {
    && Good(h, bid, ask) && o.id !in h.index && h.free != [] && h.free[0] < |h.nodes|
    && h' == h.(nodes := h.nodes[h.free[0] := OrderNode(o, NULL, NULL)], free := h.free[1..])
  }

  lemma AttachableIntro(h: Heap, h': Heap, o: Order, bid: Option<Price>, ask: Option<Price>)
    requires Good(h, bid, ask) && o.id !in h.index && h.free != [] && h.free[0] < |h.nodes|
    requires h' == h.(nodes := h.nodes[h.free[0] := OrderNode(o, NULL, NULL)], free := h.free[1..])
    ensures Attachable(h, h', o, bid, ask)
  {
    hide Good;
  }

  lemma GoodSound(h: Heap, bid: Option<Price>, ask: Option<Price>)
    requires Good(h, bid, ask)
    ensures Sound(h)
  {
    hide Sound;
  }

  lemma JoinedLevel(h: Heap, o: Order, level: PriceLevel)
    requires Sound(h) && h.free != []
    requires level == if KeyOf(o) in h.levels then h.levels[KeyOf(o)] else NEW_LEVEL
    ensures h.free[0] < |h.nodes| && h.free[0] !in ChainAt(h.chains, KeyOf(o))
    ensures Linked(h.nodes[h.free[0] := OrderNode(o, NULL, NULL)], level, ChainAt(h.chains, KeyOf(o)))
  {
    hide Sound, Linked;
    var k := KeyOf(o);
    SoundParts(h);
    FreeNotInChains(h, 0);
    var nodes1 := h.nodes[h.free[0] := OrderNode(o, NULL, NULL)];
    if k in h.chains {
      SoundLevel(h, k);
      assert forall i :: 0 <= i < |h.chains[k]| ==> h.chains[k][i] in h.chains[k];
      LinkedFrame(h.nodes, nodes1, level, h.chains[k]);
    } else {
      assert k !in h.chains.Keys;
      EmptyLinked(nodes1);
    }
  }

  lemma EmptyLinked(nodes: Nodes)
    requires |nodes| <= NULL
    ensures Linked(nodes, NEW_LEVEL, [])
  {
    assert Orders(nodes, []) == [];
  }

  lemma PushedCanInsert(h: Heap, o: Order, nodes': Nodes, level': PriceLevel)
    requires Sound(h) && h.free != [] && o.id !in h.index && h.free[0] < |h.nodes|
    requires RelinksOnly(h.nodes[h.free[0] := OrderNode(o, NULL, NULL)], nodes', ChainAt(h.chains, KeyOf(o)), h.free[0])
    requires Linked(nodes', level', ChainAt(h.chains, KeyOf(o)) + [h.free[0]])
    ensures CanInsert(h, o, nodes', level')
  {
    hide Sound, Linked;
  }

  /** The rest of the free chain is not touched by linking the new slot. */
  lemma FreeAfterPush(h: Heap, o: Order, nodes': Nodes)
    requires Sound(h) && h.free != [] && h.free[0] < |h.nodes|
    requires var nodes1 := h.nodes[h.free[0] := OrderNode(o, NULL, NULL)];
             && RelinksOnly(nodes1, nodes', ChainAt(h.chains, KeyOf(o)), h.free[0])
             && Singly(nodes1, h.free[1..])
    ensures Singly(nodes', h.free[1..])
  {
    hide Sound, Live, RelinksOnly, Singly, NoDup;
    SoundParts(h);
    var near := ChainAt(h.chains, KeyOf(o));
    var free := h.free[1..];
    forall i | 0 <= i < |free|
      ensures free[i] != h.free[0] && free[i] !in near
    {
      FreeNotInChains(h, i + 1);
      FreeDistinct(h, i + 1);
    }
    RelinkKeepsChain(h.nodes[h.free[0] := OrderNode(o, NULL, NULL)], nodes', near, h.free[0], free);
  }

  lemma FreeDistinct(h: Heap, i: nat)
    requires FreeSound(h.nodes, h.index, h.free) && 0 < i < |h.free|
    ensures h.free[i] != h.free[0]
  {
    hide Live;
  }

  /** A chain away from what was relinked stays a chain. */
  lemma RelinkKeepsChain(nodes: Nodes, nodes': Nodes, near: Chain, slot: Slot, chain: Chain)
    requires RelinksOnly(nodes, nodes', near, slot) && Singly(nodes, chain)
    requires forall i :: 0 <= i < |chain| ==> chain[i] != slot && chain[i] !in near
    ensures Singly(nodes', chain)
  {
  }

  lemma InsertGood(h: Heap, o: Order, nodes': Nodes, level': PriceLevel, bid: Option<Price>, ask: Option<Price>)
    requires Good(h, bid, ask) && CanInsert(h, o, nodes', level')
    ensures Good(InsertHeap(h, o, nodes', level'),
                 if o.side.Bid? then BestWith(bid, Bid, o.price) else bid,
                 if o.side.Ask? then BestWith(ask, Ask, o.price) else ask)
    ensures Insert(Abs(h), o) == Ok(Abs(InsertHeap(h, o, nodes', level')))
  {
    assert h.free != [];
    hide Sound, Abs, CanInsert, InsertHeap, Consistent, BestPrice;
    InsertSound(h, o, nodes', level');
    InsertAbs(h, o, nodes', level');
    InsertConsistent(Abs(h), o);
    hide Insert;
    BestAfterInsert(Abs(h), Abs(InsertHeap(h, o, nodes', level')), KeyOf(o));
  }

  /** When the insertion must be refused. */
  lemma InsertRefused(h: Heap, o: Order)
    requires Sound(h)
    ensures o.id in h.index ==> Insert(Abs(h), o) == Err(DuplicateOrderId(o.id))
    ensures o.id !in h.index && h.free == [] ==> Insert(Abs(h), o) == Err(ArenaFull)
  {
    hide Sound, AbsLevels, AbsIndex;
    SoundParts(h);
    AbsIndexAt(h);
    assert o.id in h.index <==> o.id in Abs(h).index.Keys;
  }

  // ---------------------------------------------------------------- removing

  /** How the cached best prices move when a removal leaves the level at `k` empty or not. */
  ghost predicate BestsAfter(levels: map<Key, PriceLevel>, k: Key, dropped: bool,
                             bid: Option<Price>, ask: Option<Price>, bid': Option<Price>, ask': Option<Price>) {
    && bid' == (if dropped && k.side.Bid? then Extreme(Prices(levels, Bid), Bid) else bid)
    && ask' == (if dropped && k.side.Ask? then Extreme(Prices(levels, Ask), Ask) else ask)
  }

  lemma QueuePosition(h: Heap, id: OrderId) returns (i: nat)
    requires Sound(h) && id in h.index
    ensures var s := h.index[id];
            && s < |h.nodes| && h.nodes[s].order.id == id
            && var k := KeyOf(h.nodes[s].order);
               && k in h.chains && k in h.levels && i < |h.chains[k]| && h.chains[k][i] == s
               && Linked(h.nodes, h.levels[k], h.chains[k])
               && s !in h.free && |h.free| < |h.nodes|
  {
    hide Sound, Linked;
    IndexedNotFree(h, id);
    var s := h.index[id];
    var k := KeyOf(h.nodes[s].order);
    SoundLevel(h, k);
    i :| 0 <= i < |h.chains[k]| && h.chains[k][i] == s;
    assert id in h.index.Keys && |h.index.Keys| == |h.index|;
    SoundParts(h);
  }

  lemma CancelRefused(h: Heap, id: OrderId)
    requires Sound(h) && Consistent(Abs(h))
    ensures id !in h.index ==> Cancel(Abs(h), id) == CancelOutcome(Abs(h), Err(OrderNotFound(id)))
  {
    hide Sound, AbsLevels, AbsIndex, Consistent;
    AbsIndexAt(h);
    assert id in h.index <==> id in Abs(h).index.Keys;
  }

  /** Unlinking a live slot does not touch the free chain. */
  lemma FreeAfterUnlink(h: Heap, k: Key, i: nat, nodes1: Nodes)
    requires Sound(h) && k in h.chains && i < |h.chains[k]|
    requires RelinksOnly(h.nodes, nodes1, Without(h.chains[k], i), h.chains[k][i])
    requires Singly(h.nodes, h.free)
    ensures Singly(nodes1, h.free)
  {
    hide Sound, Without;
    WithoutSubset(h.chains[k], i);
    Disjoint(h, k, i);
    forall j | 0 <= j < |h.free|
      ensures h.free[j] != h.chains[k][i] && h.free[j] !in Without(h.chains[k], i)
    {
      assert h.free[j] in h.free;
      FreeNotInChains(h, j);
    }
  }

  lemma UnlinkedCanRemove(h: Heap, k: Key, i: nat, nodes1: Nodes, level': PriceLevel, next: Slot)
    requires Sound(h) && k in h.chains && i < |h.chains[k]|
    requires RelinksOnly(h.nodes, nodes1, Without(h.chains[k], i), h.chains[k][i])
    requires Linked(nodes1, level', Without(h.chains[k], i))
    ensures InBounds(|h.nodes|, h.chains[k]) && level'.count == |Without(h.chains[k], i)|
    ensures var s := h.chains[k][i];
            CanRemove(h, k, i, nodes1[s := nodes1[s].(next := next)], level')
  {
    hide Sound, Linked, Without;
    SoundLevel(h, k);
    NoDupOf(h, k);
    NotInWithout(h.chains[k], i);
    var s := h.chains[k][i];
    var nodes2 := nodes1[s := nodes1[s].(next := next)];
    var chain' := Without(h.chains[k], i);
    assert forall j :: 0 <= j < |chain'| ==> chain'[j] in chain';
    LinkedInBounds(nodes1, level', chain');
    LinkedCount(nodes1, level', chain');
    LinkedFrame(nodes1, nodes2, level', chain');
  }

  lemma LinkedInBounds(nodes: Nodes, level: PriceLevel, chain: Chain)
    requires Linked(nodes, level, chain)
    ensures InBounds(|nodes|, chain)
  {
  }

  lemma RemoveBests(h: Heap, k: Key, i: nat, nodes': Nodes, level': PriceLevel,
                    bid: Option<Price>, ask: Option<Price>, bid': Option<Price>, ask': Option<Price>)
    requires CanRemove(h, k, i, nodes', level')
    requires bid == BestPrice(Abs(h), Bid) && ask == BestPrice(Abs(h), Ask)
    requires var h' := RemoveHeap(h, k, i, nodes', level');
             BestsAfter(h'.levels, k, level'.count == 0, bid, ask, bid', ask')
    ensures var h' := RemoveHeap(h, k, i, nodes', level');
            bid' == BestPrice(Abs(h'), Bid) && ask' == BestPrice(Abs(h'), Ask)
  {
    var h' := RemoveHeap(h, k, i, nodes', level');
    hide *;
    RemovedChainKeys(h, k, i, nodes', level');
    BestsStep(h, h', k, level'.count == 0, bid, ask, bid', ask');
  }

  lemma RemovedChainKeys(h: Heap, k: Key, i: nat, nodes': Nodes, level': PriceLevel)
    requires CanRemove(h, k, i, nodes', level')
    ensures var h' := RemoveHeap(h, k, i, nodes', level');
            && h'.chains.Keys == (if level'.count == 0 then h.chains.Keys - {k} else h.chains.Keys)
            && h'.levels.Keys == h'.chains.Keys
            && Abs(h).levels.Keys == h.chains.Keys && Abs(h').levels.Keys == h'.chains.Keys
  {
    hide Sound, NodesRemoved, Without, AbsLevels, Linked;
    LinkedCount(nodes', level', Without(h.chains[k], i));
    RemoveSound(h, k, i, nodes', level');
    SoundParts(RemoveHeap(h, k, i, nodes', level'));
    AbsLevelsAt(h);
    AbsLevelsAt(RemoveHeap(h, k, i, nodes', level'));
  }

  lemma LinkedCount(nodes: Nodes, level: PriceLevel, chain: Chain)
    requires Linked(nodes, level, chain)
    ensures level.count == |chain|
  {
  }

  lemma BestsStep(h: Heap, h': Heap, k: Key, dropped: bool,
                  bid: Option<Price>, ask: Option<Price>, bid': Option<Price>, ask': Option<Price>)
    requires h'.chains.Keys == (if dropped then h.chains.Keys - {k} else h.chains.Keys)
    requires h'.levels.Keys == h'.chains.Keys
    requires Abs(h).levels.Keys == h.chains.Keys && Abs(h').levels.Keys == h'.chains.Keys
    requires bid == BestPrice(Abs(h), Bid) && ask == BestPrice(Abs(h), Ask)
    requires BestsAfter(h'.levels, k, dropped, bid, ask, bid', ask')
    ensures bid' == BestPrice(Abs(h'), Bid) && ask' == BestPrice(Abs(h'), Ask)
  {
    hide Abs;
    RemovedPrices(h, h', k);
    if !dropped || !k.side.Bid? {
      SameBests(h, h', k, Bid);
    }
    if !dropped || !k.side.Ask? {
      SameBests(h, h', k, Ask);
    }
  }

  lemma RemovedPrices(h: Heap, h': Heap, k: Key)
    requires Abs(h').levels.Keys == h'.levels.Keys
    ensures Prices(Abs(h').levels, Bid) == Prices(h'.levels, Bid)
    ensures Prices(Abs(h').levels, Ask) == Prices(h'.levels, Ask)
  {
    hide Abs;
    KeysPrices(Abs(h').levels, h'.levels, Bid);
    KeysPrices(Abs(h').levels, h'.levels, Ask);
  }

  lemma KeysPrices<V, W>(m: map<Key, V>, n: map<Key, W>, side: Side)
    requires forall k: Key | k.side == side :: k in m.Keys <==> k in n.Keys
    ensures Prices(m, side) == Prices(n, side)
  {
    forall k: Key | k.side == side
      ensures k in m <==> k in n
    {
      assert k in m.Keys <==> k in n.Keys;
    }
  }

  lemma SameBests(h: Heap, h': Heap, k: Key, side: Side)
    requires h'.chains.Keys == h.chains.Keys || (h'.chains.Keys == h.chains.Keys - {k} && k.side != side)
    requires Abs(h).levels.Keys == h.chains.Keys && Abs(h').levels.Keys == h'.chains.Keys
    ensures BestPrice(Abs(h'), side) == BestPrice(Abs(h), side)
  {
    hide Abs;
    KeysPrices(Abs(h).levels, Abs(h').levels, side);
  }

  lemma CancelGood(h: Heap, id: OrderId, i: nat, nodes': Nodes, level': PriceLevel)
    requires Sound(h) && Consistent(Abs(h)) && id in h.index
    requires h.index[id] < |h.nodes|
    requires var k := KeyOf(h.nodes[h.index[id]].order);
             && CanRemove(h, k, i, nodes', level')
             && h.chains[k][i] == h.index[id]
    ensures var k := KeyOf(h.nodes[h.index[id]].order);
            var h' := RemoveHeap(h, k, i, nodes', level');
            && Sound(h') && Consistent(Abs(h'))
            && Cancel(Abs(h), id) == CancelOutcome(Abs(h'), Ok(h.nodes[h.index[id]].order))
  {
    var k := KeyOf(h.nodes[h.index[id]].order);
    hide Sound, AbsLevels, AbsIndex, Linked, CanRemove, RemoveHeap;
    RemoveSound(h, k, i, nodes', level');
    RemoveAbs(h, k, i, nodes', level');
    AbsLevelsAt(h);
    AbsIndexAt(h);
    IndexedNotFree(h, id);
    CancelAt(Abs(h), id, i);
    RemoveConsistent(Abs(h), k, i);
    hide Abs, Consistent, Cancel;
  }

  lemma CancelAt(b: Book, id: OrderId, i: nat)
    requires Consistent(b) && id in b.index && b.index[id] in b.levels
    requires i < |b.levels[b.index[id]]| && b.levels[b.index[id]][i].id == id
    ensures Cancel(b, id) == CancelOutcome(RemoveOrder(b, b.index[id], i), Ok(b.levels[b.index[id]][i]))
  {
    var k := b.index[id];
    assert LevelOk(b.levels[k], k, b.index);
    assert Position(b.levels[k], id) == i;
  }

  // ---------------------------------------------------------------- reducing the front

  lemma FrontLinked(h: Heap, k: Key)
    requires Sound(h) && k in h.levels
    ensures k in h.chains && h.chains[k] != [] && Linked(h.nodes, h.levels[k], h.chains[k])
    ensures h.levels[k].head == h.chains[k][0] < |h.nodes| <= NULL
    ensures h.chains[k][0] !in h.free && |h.free| < |h.nodes|
  {
    hide Sound;
    SoundParts(h);
    assert k in h.levels.Keys;
    SoundLevel(h, k);
    Disjoint(h, k, 0);
    assert h.nodes[h.chains[k][0]].order.id in h.index.Keys && |h.index.Keys| == |h.index|;
  }

  /** The head of a level holds the front order of the abstract level. */
  lemma FrontOf(h: Heap, k: Key)
    requires Sound(h)
    ensures k in h.levels <==> k in Abs(h).levels
    ensures k in h.levels ==>
              && h.levels[k].head < |h.nodes| <= NULL
              && Abs(h).levels[k] != []
              && Abs(h).levels[k][0] == h.nodes[h.levels[k].head].order
  {
    hide Sound, AbsLevels;
    SoundParts(h);
    AbsLevelsAt(h);
    assert k in h.levels <==> k in h.levels.Keys;
    assert k in Abs(h).levels <==> k in Abs(h).levels.Keys;
    if k in h.levels {
      FrontLinked(h, k);
    }
  }

  lemma UpdateReady(h: Heap, k: Key, taken: nat)
    requires Sound(h) && k in h.levels && h.levels[k].head < |h.nodes|
    requires taken <= h.nodes[h.levels[k].head].order.quantity
    ensures k in h.chains && h.chains[k] != [] && h.levels[k].head == h.chains[k][0]
    ensures CanUpdate(h, k, taken)
  {
    hide Sound, Linked;
    FrontLinked(h, k);
    SoundLevel(h, k);
  }

  /** `b'` is `b` with its front order lowered: reduced already, or still to be dropped when nothing is left. */
  ghost predicate LoweredTo(b: Book, b': Book, k: Key, taken: nat, front: Order) {
    && k in b.levels && b.levels[k] != [] && b.levels[k][0] == front && taken <= front.quantity
    && k in b'.levels && b'.levels[k] != []
    && (taken < front.quantity ==> b' == ReduceFront(b, k, taken))
    && (taken == front.quantity ==> RemoveOrder(b', k, 0) == ReduceFront(b, k, taken))
    && Consistent(ReduceFront(b, k, taken))
  }

  /** After lowering the front order the state is sound; it is good unless nothing is left of it. */
  lemma LoweredGood(h: Heap, k: Key, taken: nat)
    requires CanUpdate(h, k, taken) && Consistent(Abs(h))
    ensures var h' := UpdateHeap(h, k, taken);
            && Sound(h')
            && BestPrice(Abs(h'), Bid) == BestPrice(Abs(h), Bid)
            && BestPrice(Abs(h'), Ask) == BestPrice(Abs(h), Ask)
            && k in h'.levels && h'.levels[k] == Adjusted(h.levels[k], taken)
            && LoweredTo(Abs(h), Abs(h'), k, taken, h.nodes[h.chains[k][0]].order)
  {
    var h' := UpdateHeap(h, k, taken);
    hide Sound, AbsLevels, AbsIndex, Consistent, WithQuantity;
    UpdateSound(h, k, taken);
    UpdateAbs(h, k, taken);
    var b := Abs(h);
    assert b.levels[k][0] == h.nodes[h.chains[k][0]].order;
    hide Abs, UpdateHeap, CanUpdate, Orders;
    BestByKeys(b, Abs(h'), Bid);
    BestByKeys(b, Abs(h'), Ask);
    LoweredIsReduced(b, k, taken);
    ReduceFrontConsistent(b, k, taken);
  }

  lemma LoweredIsReduced(b: Book, k: Key, taken: nat)
    requires k in b.levels && b.levels[k] != [] && taken <= b.levels[k][0].quantity
    ensures var b' := b.(levels := b.levels[k := FrontLowered(b.levels[k], taken)]);
            && FrontLowered(b.levels[k], taken) != []
            && (taken < b.levels[k][0].quantity ==> b' == ReduceFront(b, k, taken))
            && (taken == b.levels[k][0].quantity ==> RemoveOrder(b', k, 0) == ReduceFront(b, k, taken))
  {
    var level := b.levels[k];
    var level' := FrontLowered(level, taken);
    if taken < level[0].quantity {
      assert level' == FrontReduced(level, taken);
    } else {
      assert Without(level', 0) == level[1..];
      assert SetLevel(b.levels[k := level'], k, level[1..]) == SetLevel(b.levels, k, level[1..]);
    }
  }

  lemma IndexSize(h: Heap)
    requires Sound(h)
    ensures |Abs(h).index| == |h.index|
  {
    AbsIndexAt(h);
  }

  /** `orders` lies along `chain`, and `next` leads from each slot to the following one. */
  ghost predicate Along(nodes: Nodes, chain: Chain, orders: seq<Order>) {
    && |orders| == |chain|
    && forall j :: 0 <= j < |chain| ==>
         && chain[j] != NULL && chain[j] < |nodes|
         && nodes[chain[j]].order == orders[j]
         && nodes[chain[j]].next == Link(chain, j + 1)
  }

  lemma LinkedAlong(nodes: Nodes, level: PriceLevel, chain: Chain)
    requires Linked(nodes, level, chain)
    ensures InBounds(|nodes|, chain) && level.head == Link(chain, 0)
    ensures Along(nodes, chain, Orders(nodes, chain))
  {
  }

  /** The orders of one level, front to back, following `next` from the head. */
  method WalkLevel(nodes: Nodes, head: Slot, ghost chain: Chain, ghost all: seq<Order>) returns (orders: seq<Order>)
    requires head == Link(chain, 0) && Along(nodes, chain, all)
    ensures orders == all
  {
    hide Along, Link;
    ghost var j := 0;
    orders := [];
    var slot := head;
    AlongAt(nodes, chain, all, 0);
    while slot != NULL
      invariant 0 <= j <= |chain| == |all| && slot == Link(chain, j)
      invariant orders == all[..j]
      decreases |chain| - j
    {
      AlongAt(nodes, chain, all, j);
      assert all[..j + 1] == all[..j] + [all[j]];
      orders := orders + [nodes[slot].order];
      slot := nodes[slot].next;
      j := j + 1;
    }
    AlongAt(nodes, chain, all, j);
    assert all[..|all|] == all;
  }

  lemma AlongAt(nodes: Nodes, chain: Chain, all: seq<Order>, j: nat)
    requires Along(nodes, chain, all) && j <= |chain|
    ensures |all| == |chain| && (Link(chain, j) == NULL <==> j == |chain|)
    ensures j < |chain| ==>
              && Link(chain, j) == chain[j] < |nodes|
              && nodes[chain[j]].order == all[j] && nodes[chain[j]].next == Link(chain, j + 1)
  {
  }

  /** The abstract levels, read off the chains, and the prices of the concrete map. */
  lemma LevelsListed(h: Heap, bids: LevelMap, asks: LevelMap, side: Side)
    requires Sound(h) && Mirrors(bids, asks, h.levels)
    ensures var levels := Abs(h).levels;
            && levels.Keys == h.chains.Keys
            && (forall k | k in levels :: InBounds(|h.nodes|, h.chains[k]) && levels[k] == Orders(h.nodes, h.chains[k]))
            && Prices(levels, side) == (if side.Bid? then bids else asks).Keys
  {
    hide Sound, AbsLevels, Orders;
    AbsLevelsAt(h);
    SoundParts(h);
    MirrorPrices(bids, asks, h.levels);
    hide Mirrors;
    KeysPrices(h.levels, Abs(h).levels, side);
  }

  lemma NoPricesNoQueue(levels: Levels, side: Side)
    requires Prices(levels, side) == {}
    ensures Queue(levels, side) == []
  {
  }

  lemma PricesWithout(levels: Levels, side: Side, k: Key)
    requires k in levels && k.side == side
    ensures Prices(levels - {k}, side) == Prices(levels, side) - {k.price}
  {
    forall l | l in levels && l.side == side && l.price != k.price
      ensures l in levels - {k}
    {
    }
  }

  /** The better of a cached best price and a new price. */
  function BestWith(best: Option<Price>, side: Side, price: Price): Option<Price> {
    match best
    case None => Some(price)
    case Some(p) => Some(if Better(side, price, p) then price else p)
  }

  lemma MirrorPut(bids: LevelMap, asks: LevelMap, levels: map<Key, PriceLevel>, side: Side, price: Price,
                  level: PriceLevel)
    requires Mirrors(bids, asks, levels)
    ensures side.Bid? ==> Mirrors(bids[price := level], asks, levels[Key(side, price) := level])
    ensures side.Ask? ==> Mirrors(bids, asks[price := level], levels[Key(side, price) := level])
  {
  }

  lemma MirrorDrop(bids: LevelMap, asks: LevelMap, levels: map<Key, PriceLevel>, side: Side, price: Price)
    requires Mirrors(bids, asks, levels)
    ensures side.Bid? ==> Mirrors(bids - {price}, asks, levels - {Key(side, price)})
    ensures side.Ask? ==> Mirrors(bids, asks - {price}, levels - {Key(side, price)})
  {
  }

  lemma MirrorAt(bids: LevelMap, asks: LevelMap, levels: map<Key, PriceLevel>, k: Key)
    requires Mirrors(bids, asks, levels)
    ensures var m := if k.side.Bid? then bids else asks;
            (k in levels <==> k.price in m) && (k in levels ==> m[k.price] == levels[k])
  {
    assert k == Key(k.side, k.price);
  }

  lemma MirrorPrices(bids: LevelMap, asks: LevelMap, levels: map<Key, PriceLevel>)
    requires Mirrors(bids, asks, levels)
    ensures bids.Keys == Prices(levels, Bid) && asks.Keys == Prices(levels, Ask)
  {
    forall p | p in bids
      ensures p in Prices(levels, Bid)
    {
      assert Key(Bid, p) in levels && Key(Bid, p).price == p;
    }
    forall p | p in asks
      ensures p in Prices(levels, Ask)
    {
      assert Key(Ask, p) in levels && Key(Ask, p).price == p;
    }
  }

  lemma EmptyGood(h: Heap, capacity: U32)
    requires |h.nodes| == capacity && h.free == AllSlots(capacity)
    requires h.levels == map[] && h.chains == map[] && h.index == map[]
    ensures Abs(h) == Empty(capacity) && Good(h, None, None)
  {
    assert Abs(h) == Empty(capacity);
    forall s: Slot | s < |h.nodes|
      ensures s in h.free
    {
      assert h.free[s] == s;
    }
    assert FreeSound(h.nodes, h.index, h.free);
    hide FreeSound;
  }

  // ---------------------------------------------------------------- best prices

  /** The best price of a side depends only on which prices the side has. */
  lemma BestByKeys(b: Book, b': Book, side: Side)
    requires forall k: Key | k.side == side :: k in b.levels <==> k in b'.levels
    ensures BestPrice(b', side) == BestPrice(b, side)
  {
    assert Prices(b'.levels, side) == Prices(b.levels, side) by {
      forall k | k in b.levels && k.side == side
        ensures k in b'.levels
      {
      }
    }
  }

  lemma BestAfterInsert(b: Book, b': Book, k: Key)
    requires b'.levels.Keys == b.levels.Keys + {k}
    ensures BestPrice(b', k.side) == BestWith(BestPrice(b, k.side), k.side, k.price)
    ensures BestPrice(b', Opposite(k.side)) == BestPrice(b, Opposite(k.side))
  {
    BestPriceIsBest(b, k.side);
    assert Prices(b'.levels, k.side) == Prices(b.levels, k.side) + {k.price} by {
      forall p | p in Prices(b.levels, k.side)
        ensures p in Prices(b'.levels, k.side)
      {
        var l :| l in b.levels && l.side == k.side && l.price == p;
        assert l in b'.levels.Keys;
      }
      assert k in b'.levels.Keys;
    }
    assert k.side != Opposite(k.side);
    forall l: Key | l.side == Opposite(k.side)
      ensures l in b.levels <==> l in b'.levels
    {
      assert l in b'.levels.Keys <==> l in b.levels.Keys;
    }
    BestByKeys(b, b', Opposite(k.side));
  }
}
