/**
 The concrete state of the order book as one value, its soundness (the slots are partitioned
 into the free chain and one doubly linked list per level; the id index is a bijection onto
 the live slots) and the price-level book it stands for.
 */
module BookHeap {
  import opened Types
  import opened PriceBook
  import opened Sweep
  import opened Arenas

  type Nodes = seq<OrderNode>
  type Chain = seq<Slot>
  type Index = map<OrderId, Slot>

  datatype Heap = Heap(
    nodes: Nodes,
    free: Chain,
    levels: map<Key, PriceLevel>,
    chains: map<Key, Chain>,
    index: Index)

  /** The index points the id of the order in `s` back at `s`. */
  predicate Live(nodes: Nodes, index: Index, s: Slot)
    requires s < |nodes|
  {
    nodes[s].order.id in index && index[nodes[s].order.id] == s
  }

  /** Every member of the chain is live, on this side and at this price. */
  ghost predicate MembersOk(nodes: Nodes, index: Index, chain: Chain, k: Key) {
    && InBounds(|nodes|, chain)
    && forall i :: 0 <= i < |chain| ==> KeyOf(nodes[chain[i]].order) == k && Live(nodes, index, chain[i])
  }

  ghost predicate LevelSound(nodes: Nodes, index: Index, level: PriceLevel, chain: Chain, k: Key) {
    chain != [] && Linked(nodes, level, chain) && MembersOk(nodes, index, chain, k)
  }

  ghost predicate LevelsSound(h: Heap) {
    && h.levels.Keys == h.chains.Keys
    && forall k | k in h.chains :: LevelSound(h.nodes, h.index, h.levels[k], h.chains[k], k)
  }

  /** The indexed slot of `id` holds that order and is queued at its level. */
  ghost predicate EntrySound(nodes: Nodes, chains: map<Key, Chain>, id: OrderId, s: Slot) {
    && s < |nodes|
    && nodes[s].order.id == id
    && KeyOf(nodes[s].order) in chains
    && s in chains[KeyOf(nodes[s].order)]
  }

  ghost predicate IndexSound(h: Heap) {
    forall id | id in h.index :: EntrySound(h.nodes, h.chains, id, h.index[id])
  }

  ghost predicate FreeSound(nodes: Nodes, index: Index, free: Chain) {
    && InBounds(|nodes|, free)
    && NoDup(free)
    && (forall i :: 0 <= i < |free| ==> !Live(nodes, index, free[i]))
    && (forall s: Slot :: s < |nodes| ==> Live(nodes, index, s) || s in free)
    && |index| + |free| == |nodes|
  }

  ghost predicate Sound(h: Heap) {
    LevelsSound(h) && IndexSound(h) && FreeSound(h.nodes, h.index, h.free)
  }

  lemma SoundLevel(h: Heap, k: Key)
    requires Sound(h) && k in h.chains
    ensures k in h.levels && LevelSound(h.nodes, h.index, h.levels[k], h.chains[k], k)
    ensures Linked(h.nodes, h.levels[k], h.chains[k]) && MembersOk(h.nodes, h.index, h.chains[k], k)
    ensures InBounds(|h.nodes|, h.chains[k]) && h.chains[k] != []
  {
    hide IndexSound, FreeSound;
    assert k in h.levels.Keys;
  }

  lemma SoundParts(h: Heap)
    requires Sound(h)
    ensures h.levels.Keys == h.chains.Keys
    ensures FreeSound(h.nodes, h.index, h.free)
    ensures |h.index| + |h.free| == |h.nodes| <= NULL
  {
    hide IndexSound;
  }

  lemma LevelsSoundIntro(h: Heap)
    requires h.levels.Keys == h.chains.Keys
    requires forall k | k in h.chains :: LevelSound(h.nodes, h.index, h.levels[k], h.chains[k], k)
    ensures LevelsSound(h)
  {
  }

  // ---------------------------------------------------------------- abstraction

  ghost function AbsLevels(nodes: Nodes, chains: map<Key, Chain>): Levels {
    map k | k in chains && InBounds(|nodes|, chains[k]) :: Orders(nodes, chains[k])
  }

  ghost function AbsIndex(nodes: Nodes, index: Index): map<OrderId, Key> {
    map id | id in index && index[id] < |nodes| :: KeyOf(nodes[index[id]].order)
  }

  ghost function Abs(h: Heap): Book {
    Book(AbsLevels(h.nodes, h.chains), AbsIndex(h.nodes, h.index), |h.nodes|)
  }

  lemma AbsLevelsAt(h: Heap)
    requires Sound(h)
    ensures AbsLevels(h.nodes, h.chains).Keys == h.chains.Keys
    ensures forall k | k in h.chains ::
              && InBounds(|h.nodes|, h.chains[k])
              && AbsLevels(h.nodes, h.chains)[k] == Orders(h.nodes, h.chains[k])
  {
    hide Sound, LevelSound, Linked, MembersOk, Orders, InBounds;
    forall k | k in h.chains
      ensures InBounds(|h.nodes|, h.chains[k])
    {
      SoundLevel(h, k);
    }
  }

  lemma AbsIndexAt(h: Heap)
    requires Sound(h)
    ensures AbsIndex(h.nodes, h.index).Keys == h.index.Keys
    ensures |AbsIndex(h.nodes, h.index)| == |h.index|
    ensures forall id | id in h.index ::
              h.index[id] < |h.nodes| && AbsIndex(h.nodes, h.index)[id] == KeyOf(h.nodes[h.index[id]].order)
  {
    var a := AbsIndex(h.nodes, h.index);
    hide Sound;
    forall id | id in h.index
      ensures h.index[id] < |h.nodes|
    {
      IndexedNotFree(h, id);
    }
    assert a.Keys == h.index.Keys;
    assert |a.Keys| == |a| && |h.index.Keys| == |h.index|;
  }

  // ---------------------------------------------------------------- framing

  lemma OrdersFrame(nodes: Nodes, nodes': Nodes, chain: Chain)
    requires InBounds(|nodes|, chain) && |nodes'| == |nodes|
    requires forall i :: 0 <= i < |chain| ==> nodes'[chain[i]].order == nodes[chain[i]].order
    ensures Orders(nodes', chain) == Orders(nodes, chain)
  {
  }

  lemma LinkedFrame(nodes: Nodes, nodes': Nodes, level: PriceLevel, chain: Chain)
    requires Linked(nodes, level, chain) && |nodes'| == |nodes|
    requires forall i :: 0 <= i < |chain| ==> nodes'[chain[i]] == nodes[chain[i]]
    ensures Linked(nodes', level, chain)
  {
    OrdersFrame(nodes, nodes', chain);
  }

  /** Two levels share no slot, and a level shares none with the free chain. */
  lemma Disjoint(h: Heap, k: Key, i: nat)
    requires Sound(h) && k in h.chains && i < |h.chains[k]|
    ensures var s := h.chains[k][i];
            && s < |h.nodes| && Live(h.nodes, h.index, s) && KeyOf(h.nodes[s].order) == k
            && s !in h.free
            && forall l | l in h.chains && l != k :: s !in h.chains[l]
  {
    var s := h.chains[k][i];
    hide Sound, Linked;
    SoundLevel(h, k);
    SoundParts(h);
    forall l | l in h.chains && s in h.chains[l]
      ensures l == k
    {
      SoundLevel(h, l);
    }
  }

  lemma FreeNotInChains(h: Heap, i: nat)
    requires Sound(h) && i < |h.free|
    ensures h.free[i] < |h.nodes| && !Live(h.nodes, h.index, h.free[i])
    ensures forall l | l in h.chains :: h.free[i] !in h.chains[l]
  {
    hide Sound, Linked;
    SoundParts(h);
    forall l | l in h.chains
      ensures h.free[i] !in h.chains[l]
    {
      SoundLevel(h, l);
    }
  }

  lemma IndexedNotFree(h: Heap, id: OrderId)
    requires Sound(h) && id in h.index
    ensures EntrySound(h.nodes, h.chains, id, h.index[id])
    ensures Live(h.nodes, h.index, h.index[id]) && h.index[id] !in h.free
  {
  }

  ghost predicate InSomeLevel(h: Heap, s: Slot) {
    exists k :: k in h.chains && s in h.chains[k]
  }

  /** Every slot is free or queued at exactly one level, and the queued ones are the indexed ones. */
  lemma SlotsPartitioned(h: Heap, s: Slot)
    requires Sound(h) && s < |h.nodes|
    ensures (s in h.free) != InSomeLevel(h, s)
    ensures InSomeLevel(h, s) <==> Live(h.nodes, h.index, s)
    ensures forall k, l :: k in h.chains && l in h.chains && s in h.chains[k] && s in h.chains[l] ==> k == l
  {
    hide Sound, Linked;
    SoundParts(h);
    if s in h.free {
      var i :| 0 <= i < |h.free| && h.free[i] == s;
      FreeNotInChains(h, i);
    } else {
      IndexedNotFree(h, h.nodes[s].order.id);
    }
    forall k, l | k in h.chains && l in h.chains && s in h.chains[k] && s in h.chains[l]
      ensures k == l
    {
      var i :| 0 <= i < |h.chains[k]| && h.chains[k][i] == s;
      Disjoint(h, k, i);
    }
  }

  /** Member `i` sits between its neighbours, `next` and `prev` undo each other, no slot repeats. */
  ghost predicate WellLinkedAt(nodes: Nodes, chain: Chain, i: nat)
    requires InBounds(|nodes|, chain) && i < |chain|
  {
    && (i == 0 <==> nodes[chain[i]].prev == NULL)
    && (i == |chain| - 1 <==> nodes[chain[i]].next == NULL)
    && (i < |chain| - 1 ==> nodes[chain[i]].next == chain[i + 1] && nodes[chain[i + 1]].prev == chain[i])
    && (forall j :: 0 <= j < |chain| && chain[j] == chain[i] ==> j == i)
  }

  ghost predicate EndsExact(level: PriceLevel, chain: Chain) {
    && chain != []
    && level.head == chain[0]
    && level.tail == chain[|chain| - 1]
    && level.count == |chain|
  }

  /** Every level is a well-formed list with exact ends and count; `qty` is the true sum while it fits. */
  lemma LevelWellLinked(h: Heap, k: Key)
    requires Sound(h) && k in h.chains
    ensures k in h.levels && EndsExact(h.levels[k], h.chains[k])
    ensures InBounds(|h.nodes|, h.chains[k])
    ensures forall i | 0 <= i < |h.chains[k]| :: WellLinkedAt(h.nodes, h.chains[k], i)
    ensures Total(Orders(h.nodes, h.chains[k])) < TWO64 ==> h.levels[k].qty == Total(Orders(h.nodes, h.chains[k]))
  {
    hide Sound, LevelSound, Linked, MembersOk, Total, Orders, EndsExact, WellLinkedAt, InBounds;
    SoundLevel(h, k);
    LinkedMeans(h.nodes, h.levels[k], h.chains[k]);
  }

  lemma LinkedMeans(nodes: Nodes, level: PriceLevel, chain: Chain)
    requires Linked(nodes, level, chain) && chain != []
    ensures InBounds(|nodes|, chain) && EndsExact(level, chain)
    ensures forall i | 0 <= i < |chain| :: WellLinkedAt(nodes, chain, i)
    ensures Total(Orders(nodes, chain)) < TWO64 ==> level.qty == Total(Orders(nodes, chain))
  {
    hide Total, Orders;
    LinkedMembers(nodes, level, chain);
    SmallWord(Total(Orders(nodes, chain)));
  }

  lemma SmallWord(t: nat)
    ensures t < TWO64 ==> t % TWO64 == t
  {
  }

  lemma LinkedMembers(nodes: Nodes, level: PriceLevel, chain: Chain)
    requires Shape(nodes, level, chain)
    ensures forall i | 0 <= i < |chain| :: WellLinkedAt(nodes, chain, i)
  {
  }
}
