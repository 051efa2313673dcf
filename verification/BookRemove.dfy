/** Removing an order, or changing the quantity of one, at the value level. */
module BookRemove {
  import opened Types
  import opened PriceBook
  import opened Sweep
  import opened Arenas
  import opened BookHeap

  function SetChain<V>(m: map<Key, V>, k: Key, chain: Chain, v: V): map<Key, V> {
    if chain == [] then m - {k} else m[k := v]
  }

  /** The orders are unmoved; links changed at most at `s` and along `chain`. */
  ghost predicate NodesRemoved(nodes: Nodes, nodes': Nodes, s: Slot, chain: Chain) {
    && |nodes'| == |nodes|
    && (forall t: Slot :: t < |nodes| ==> nodes'[t].order == nodes[t].order)
    && (forall t: Slot :: t < |nodes| && t != s && t !in chain ==> nodes'[t] == nodes[t])
  }

  ghost function RemoveHeap(h: Heap, k: Key, i: nat, nodes': Nodes, level': PriceLevel): Heap
    requires k in h.chains && i < |h.chains[k]| && InBounds(|h.nodes|, h.chains[k])
  {
    var s := h.chains[k][i];
    var chain' := Without(h.chains[k], i);
    Heap(nodes', [s] + h.free, SetChain(h.levels, k, chain', level'), SetChain(h.chains, k, chain', chain'),
         h.index - {h.nodes[s].order.id})
  }

  ghost predicate CanRemove(h: Heap, k: Key, i: nat, nodes': Nodes, level': PriceLevel) {
    && Sound(h) && k in h.chains && i < |h.chains[k]| && InBounds(|h.nodes|, h.chains[k])
    && NodesRemoved(h.nodes, nodes', h.chains[k][i], Without(h.chains[k], i))
    && Linked(nodes', level', Without(h.chains[k], i))
  }

  // ---------------------------------------------------------------- levels

  lemma MembersKept(nodes: Nodes, nodes': Nodes, index: Index, chain: Chain, k: Key, s: Slot, near: Chain)
    requires NodesRemoved(nodes, nodes', s, near) && s < |nodes| && Live(nodes, index, s)
    requires MembersOk(nodes, index, chain, k) && s !in chain
    ensures MembersOk(nodes', index - {nodes[s].order.id}, chain, k)
  {
    var index' := index - {nodes[s].order.id};
    forall i | 0 <= i < |chain|
      ensures KeyOf(nodes'[chain[i]].order) == k && Live(nodes', index', chain[i])
    {
      assert chain[i] in chain;
    }
  }

  lemma MembersWithout(nodes: Nodes, index: Index, chain: Chain, k: Key, i: nat)
    requires MembersOk(nodes, index, chain, k) && i < |chain|
    ensures MembersOk(nodes, index, Without(chain, i), k)
  {
    assert forall j :: 0 <= j < |chain| - 1 ==> Without(chain, i)[j] == chain[if j < i then j else j + 1];
  }

  lemma NotInWithout(chain: Chain, i: nat)
    requires NoDup(chain) && i < |chain|
    ensures chain[i] !in Without(chain, i)
  {
    assert forall j :: 0 <= j < |chain| - 1 ==> Without(chain, i)[j] == chain[if j < i then j else j + 1];
  }

  lemma WithoutSubset(chain: Chain, i: nat)
    requires i < |chain|
    ensures forall t | t in Without(chain, i) :: t in chain
    ensures forall t | t in chain && t != chain[i] :: t in Without(chain, i)
  {
    assert chain == chain[..i] + [chain[i]] + chain[i + 1..];
  }

  lemma RemovedOther(h: Heap, k: Key, i: nat, nodes': Nodes, level': PriceLevel, l: Key)
    requires CanRemove(h, k, i, nodes', level') && l in h.chains && l != k
    ensures l in h.levels
    ensures LevelSound(nodes', h.index - {h.nodes[h.chains[k][i]].order.id}, h.levels[l], h.chains[l], l)
  {
    hide Sound, Linked, MembersOk, Without;
    SoundLevel(h, l);
    Disjoint(h, k, i);
    var s := h.chains[k][i];
    MembersKept(h.nodes, nodes', h.index, h.chains[l], l, s, Without(h.chains[k], i));
    WithoutSubset(h.chains[k], i);
    forall j | 0 <= j < |h.chains[l]|
      ensures nodes'[h.chains[l][j]] == h.nodes[h.chains[l][j]]
    {
      Disjoint(h, l, j);
    }
    LinkedFrame(h.nodes, nodes', h.levels[l], h.chains[l]);
  }

  lemma RemovedHere(h: Heap, k: Key, i: nat, nodes': Nodes, level': PriceLevel)
    requires CanRemove(h, k, i, nodes', level') && Without(h.chains[k], i) != []
    ensures LevelSound(nodes', h.index - {h.nodes[h.chains[k][i]].order.id}, level', Without(h.chains[k], i), k)
  {
    var s := h.chains[k][i];
    var chain' := Without(h.chains[k], i);
    SoundLevel(h, k);
    assert NoDup(h.chains[k]) by { hide Sound; }
    hide Sound, Linked, MembersOk, NoDup, Without;
    Disjoint(h, k, i);
    MembersWithout(h.nodes, h.index, h.chains[k], k, i);
    NotInWithout(h.chains[k], i);
    MembersKept(h.nodes, nodes', h.index, chain', k, s, chain');
  }

  lemma RemovedKeys(h: Heap, k: Key, i: nat, nodes': Nodes, level': PriceLevel)
    requires CanRemove(h, k, i, nodes', level')
    ensures RemoveHeap(h, k, i, nodes', level').levels.Keys == RemoveHeap(h, k, i, nodes', level').chains.Keys
  {
    hide Sound, Linked, NodesRemoved, Without;
    SoundParts(h);
  }

  lemma RemovedLevelAt(h: Heap, k: Key, i: nat, nodes': Nodes, level': PriceLevel, l: Key)
    requires CanRemove(h, k, i, nodes', level') && l in RemoveHeap(h, k, i, nodes', level').chains
    ensures var h' := RemoveHeap(h, k, i, nodes', level');
            l in h'.levels && LevelSound(h'.nodes, h'.index, h'.levels[l], h'.chains[l], l)
  {
    hide Sound, Linked, NodesRemoved, LevelSound, Without;
    if l == k {
      RemovedHere(h, k, i, nodes', level');
    } else {
      RemovedOther(h, k, i, nodes', level', l);
    }
  }

  lemma RemovedLevelsSound(h: Heap, k: Key, i: nat, nodes': Nodes, level': PriceLevel)
    requires CanRemove(h, k, i, nodes', level')
    ensures LevelsSound(RemoveHeap(h, k, i, nodes', level'))
  {
    assert k in h.chains && i < |h.chains[k]| && InBounds(|h.nodes|, h.chains[k]);
    hide *;
    var h' := RemoveHeap(h, k, i, nodes', level');
    RemovedKeys(h, k, i, nodes', level');
    forall l | l in h'.chains
      ensures l in h'.levels && LevelSound(h'.nodes, h'.index, h'.levels[l], h'.chains[l], l)
    {
      RemovedLevelAt(h, k, i, nodes', level', l);
    }
    LevelsSoundIntro(h');
  }

  // ---------------------------------------------------------------- index and free chain

  lemma RemovedIndexSound(h: Heap, k: Key, i: nat, nodes': Nodes, level': PriceLevel)
    requires CanRemove(h, k, i, nodes', level')
    ensures IndexSound(RemoveHeap(h, k, i, nodes', level'))
  {
    hide Sound, Linked, Without;
    var s := h.chains[k][i];
    var h' := RemoveHeap(h, k, i, nodes', level');
    WithoutSubset(h.chains[k], i);
    Disjoint(h, k, i);
    forall id | id in h'.index
      ensures EntrySound(h'.nodes, h'.chains, id, h'.index[id])
    {
      IndexedNotFree(h, id);
      assert h.index[id] != s;
    }
  }

  lemma FreeRemoved(nodes: Nodes, nodes': Nodes, index: Index, free: Chain, s: Slot, near: Chain)
    requires FreeSound(nodes, index, free) && s < |nodes| && Live(nodes, index, s) && s !in free
    requires NodesRemoved(nodes, nodes', s, near)
    ensures FreeSound(nodes', index - {nodes[s].order.id}, [s] + free)
  {
    var id := nodes[s].order.id;
    var index' := index - {id};
    assert index'.Keys == index.Keys - {id};
    assert |index'| == |index| - 1;
    forall i | 0 <= i < |[s] + free|
      ensures !Live(nodes', index', ([s] + free)[i])
    {
      if i > 0 {
        assert !Live(nodes, index, free[i - 1]);
      }
    }
    forall t: Slot | t < |nodes'|
      ensures Live(nodes', index', t) || t in [s] + free
    {
      assert Live(nodes, index, t) || t in free;
    }
  }

  lemma RemoveSound(h: Heap, k: Key, i: nat, nodes': Nodes, level': PriceLevel)
    requires CanRemove(h, k, i, nodes', level')
    ensures Sound(RemoveHeap(h, k, i, nodes', level'))
  {
    hide LevelsSound, IndexSound, FreeSound, NodesRemoved, Linked, SetChain, Without;
    RemovedLevelsSound(h, k, i, nodes', level');
    RemovedIndexSound(h, k, i, nodes', level');
    Disjoint(h, k, i);
    FreeRemoved(h.nodes, nodes', h.index, h.free, h.chains[k][i], Without(h.chains[k], i));
  }

  // ---------------------------------------------------------------- abstraction

  lemma AbsLevelsRemoved(nodes': Nodes, chains: map<Key, Chain>, k: Key, chain': Chain, levels: Levels)
    requires levels.Keys == chains.Keys && k in chains
    requires forall l | l in chains && l != k ::
               InBounds(|nodes'|, chains[l]) && Orders(nodes', chains[l]) == levels[l]
    requires InBounds(|nodes'|, chain')
    ensures AbsLevels(nodes', SetChain(chains, k, chain', chain')) == SetLevel(levels, k, Orders(nodes', chain'))
  {
    assert |Orders(nodes', chain')| == |chain'|;
    hide Orders, InBounds;
  }

  lemma OrdersWithout(nodes: Nodes, nodes': Nodes, chain: Chain, i: nat)
    requires InBounds(|nodes|, chain) && i < |chain| && |nodes'| == |nodes|
    requires forall t: Slot :: t < |nodes| ==> nodes'[t].order == nodes[t].order
    ensures InBounds(|nodes'|, Without(chain, i))
    ensures Orders(nodes', Without(chain, i)) == Without(Orders(nodes, chain), i)
  {
  }

  lemma RemovedAbsLevels(h: Heap, k: Key, i: nat, nodes': Nodes, level': PriceLevel)
    requires CanRemove(h, k, i, nodes', level')
    ensures var levels := AbsLevels(h.nodes, h.chains);
            && k in levels && i < |levels[k]| && levels[k][i] == h.nodes[h.chains[k][i]].order
            && AbsLevels(nodes', RemoveHeap(h, k, i, nodes', level').chains)
               == SetLevel(levels, k, Without(levels[k], i))
  {
    var levels := AbsLevels(h.nodes, h.chains);
    hide Sound, Linked, AbsLevels, Without;
    AbsLevelsAt(h);
    forall l | l in h.chains
      ensures InBounds(|nodes'|, h.chains[l])
      ensures Orders(nodes', h.chains[l]) == levels[l]
    {
      OrdersFrame(h.nodes, nodes', h.chains[l]);
    }
    OrdersWithout(h.nodes, nodes', h.chains[k], i);
    assert levels[k] == Orders(h.nodes, h.chains[k]);
    hide Orders, NodesRemoved;
    AbsLevelsRemoved(nodes', h.chains, k, Without(h.chains[k], i), levels);
  }

  lemma RemovedAbsIndex(h: Heap, k: Key, i: nat, nodes': Nodes, level': PriceLevel)
    requires CanRemove(h, k, i, nodes', level')
    ensures var id := h.nodes[h.chains[k][i]].order.id;
            AbsIndex(nodes', h.index - {id}) == AbsIndex(h.nodes, h.index) - {id}
  {
    hide Sound, Linked, Without;
    AbsIndexAt(h);
  }

  /** What the removal means for the abstract book. */
  lemma RemoveAbs(h: Heap, k: Key, i: nat, nodes': Nodes, level': PriceLevel)
    requires CanRemove(h, k, i, nodes', level')
    ensures k in Abs(h).levels && i < |Abs(h).levels[k]|
    ensures Abs(RemoveHeap(h, k, i, nodes', level')) == RemoveOrder(Abs(h), k, i)
  {
    RemovedAbsLevels(h, k, i, nodes', level');
    RemovedAbsIndex(h, k, i, nodes', level');
    assert |nodes'| == |h.nodes|;
    hide CanRemove, AbsLevels, AbsIndex, SetLevel, Without;
  }

  // ---------------------------------------------------------------- changing a quantity

  function WithQuantity(node: OrderNode, q: U64): OrderNode {
    node.(order := node.order.(quantity := q))
  }

  /** The queue after `taken` left its first order, which stays even with nothing left. */
  function FrontLowered(level: seq<Order>, taken: nat): seq<Order> {
    if level != [] && taken <= level[0].quantity
    then level[0 := level[0].(quantity := level[0].quantity - taken)]
    else level
  }

  /** `level` with the quantity word adjusted for a member that lost `taken`. */
  function Adjusted(level: PriceLevel, taken: nat): PriceLevel {
    level.(qty := WrapSub(level.qty, taken))
  }

  ghost function UpdateHeap(h: Heap, k: Key, taken: nat): Heap
    requires k in h.chains && k in h.levels && h.chains[k] != [] && InBounds(|h.nodes|, h.chains[k])
    requires taken <= h.nodes[h.chains[k][0]].order.quantity
  {
    var s := h.chains[k][0];
    h.(nodes := h.nodes[s := WithQuantity(h.nodes[s], h.nodes[s].order.quantity - taken)],
       levels := h.levels[k := Adjusted(h.levels[k], taken)])
  }

  ghost predicate CanUpdate(h: Heap, k: Key, taken: nat) {
    && Sound(h) && k in h.chains && k in h.levels && h.chains[k] != [] && InBounds(|h.nodes|, h.chains[k])
    && taken <= h.nodes[h.chains[k][0]].order.quantity
  }

  /** Same links, same ids and keys. */
  ghost predicate SameFrame(nodes: Nodes, nodes': Nodes) {
    && |nodes'| == |nodes|
    && forall t: Slot :: t < |nodes| ==>
         && nodes'[t].prev == nodes[t].prev
         && nodes'[t].next == nodes[t].next
         && nodes'[t].order.id == nodes[t].order.id
         && KeyOf(nodes'[t].order) == KeyOf(nodes[t].order)
  }

  lemma UpdateFrame(h: Heap, k: Key, taken: nat)
    requires CanUpdate(h, k, taken)
    ensures SameFrame(h.nodes, UpdateHeap(h, k, taken).nodes)
  {
    hide Sound;
  }

  lemma FrameShape(nodes: Nodes, nodes': Nodes, level: PriceLevel, level': PriceLevel, chain: Chain)
    requires SameFrame(nodes, nodes') && Shape(nodes, level, chain)
    requires level'.head == level.head && level'.tail == level.tail && level'.count == level.count
    ensures Shape(nodes', level', chain)
  {
  }

  lemma FrameMembers(nodes: Nodes, nodes': Nodes, index: Index, chain: Chain, k: Key)
    requires SameFrame(nodes, nodes') && MembersOk(nodes, index, chain, k)
    ensures MembersOk(nodes', index, chain, k)
  {
  }

  lemma FrameFree(nodes: Nodes, nodes': Nodes, index: Index, free: Chain)
    requires SameFrame(nodes, nodes') && FreeSound(nodes, index, free)
    ensures FreeSound(nodes', index, free)
  {
    forall i | 0 <= i < |free|
      ensures !Live(nodes', index, free[i])
    {
      assert !Live(nodes, index, free[i]);
    }
    forall t: Slot | t < |nodes'|
      ensures Live(nodes', index, t) || t in free
    {
      assert Live(nodes, index, t) || t in free;
    }
  }

  lemma OrdersFrontUpdated(nodes: Nodes, chain: Chain, taken: nat)
    requires chain != [] && InBounds(|nodes|, chain) && NoDup(chain)
    requires taken <= nodes[chain[0]].order.quantity
    ensures var s := chain[0];
            Orders(nodes[s := WithQuantity(nodes[s], nodes[s].order.quantity - taken)], chain)
            == FrontLowered(Orders(nodes, chain), taken)
  {
  }

  lemma UpdatedQty(nodes: Nodes, level: PriceLevel, chain: Chain, taken: nat)
    requires Linked(nodes, level, chain) && chain != [] && taken <= nodes[chain[0]].order.quantity
    ensures var s := chain[0];
            QtyOk(nodes[s := WithQuantity(nodes[s], nodes[s].order.quantity - taken)], Adjusted(level, taken), chain)
  {
    hide Doubly, Total, Orders, WithQuantity, FrontLowered, WrapSub;
    OrdersFrontUpdated(nodes, chain, taken);
    LoweredTotal(Orders(nodes, chain), taken);
    WrapDifference(Total(Orders(nodes, chain)), taken);
  }

  lemma LoweredTotal(orders: seq<Order>, taken: nat)
    requires orders != [] && taken <= orders[0].quantity
    ensures Total(FrontLowered(orders, taken)) == Total(orders) - taken
  {
    var orders' := FrontLowered(orders, taken);
    assert orders'[1..] == orders[1..];
  }

  lemma UpdatedHere(h: Heap, k: Key, taken: nat)
    requires CanUpdate(h, k, taken)
    ensures var h' := UpdateHeap(h, k, taken);
            LevelSound(h'.nodes, h'.index, h'.levels[k], h'.chains[k], k)
  {
    hide Sound, Shape, QtyOk, MembersOk;
    SoundLevel(h, k);
    var h' := UpdateHeap(h, k, taken);
    UpdateFrame(h, k, taken);
    hide SameFrame;
    FrameShape(h.nodes, h'.nodes, h.levels[k], h'.levels[k], h.chains[k]);
    FrameMembers(h.nodes, h'.nodes, h.index, h.chains[k], k);
    UpdatedQty(h.nodes, h.levels[k], h.chains[k], taken);
  }

  lemma UpdatedOther(h: Heap, k: Key, taken: nat, l: Key)
    requires CanUpdate(h, k, taken) && l in h.chains && l != k
    ensures var h' := UpdateHeap(h, k, taken);
            l in h'.levels && LevelSound(h'.nodes, h'.index, h'.levels[l], h'.chains[l], l)
  {
    hide Sound, Linked, MembersOk, WithQuantity;
    SoundLevel(h, l);
    var h' := UpdateHeap(h, k, taken);
    UpdateFrame(h, k, taken);
    Disjoint(h, k, 0);
    forall j | 0 <= j < |h.chains[l]|
      ensures h'.nodes[h.chains[l][j]] == h.nodes[h.chains[l][j]]
    {
      assert h.chains[l][j] in h.chains[l];
    }
    hide SameFrame;
    FrameMembers(h.nodes, h'.nodes, h.index, h.chains[l], l);
    LinkedFrame(h.nodes, h'.nodes, h.levels[l], h.chains[l]);
  }

  lemma UpdatedLevelsSound(h: Heap, k: Key, taken: nat)
    requires CanUpdate(h, k, taken)
    ensures LevelsSound(UpdateHeap(h, k, taken))
  {
    hide Sound;
    var h' := UpdateHeap(h, k, taken);
    SoundParts(h);
    assert h'.levels.Keys == h'.chains.Keys;
    assert h'.chains == h.chains;
    hide *;
    forall l | l in h'.chains
      ensures l in h'.levels && LevelSound(h'.nodes, h'.index, h'.levels[l], h'.chains[l], l)
    {
      if l == k {
        UpdatedHere(h, k, taken);
      } else {
        UpdatedOther(h, k, taken, l);
      }
    }
    LevelsSoundIntro(h');
  }

  lemma UpdateSound(h: Heap, k: Key, taken: nat)
    requires CanUpdate(h, k, taken)
    ensures Sound(UpdateHeap(h, k, taken))
  {
    var h' := UpdateHeap(h, k, taken);
    hide LevelsSound, FreeSound, WithQuantity;
    UpdatedLevelsSound(h, k, taken);
    UpdateFrame(h, k, taken);
    FrameFree(h.nodes, h'.nodes, h.index, h.free);
  }

  /** What the change means for the abstract book. */
  lemma UpdateAbs(h: Heap, k: Key, taken: nat)
    requires CanUpdate(h, k, taken)
    ensures var b := Abs(h);
            && k in b.levels && b.levels[k] == Orders(h.nodes, h.chains[k])
            && Abs(UpdateHeap(h, k, taken)) == b.(levels := b.levels[k := FrontLowered(b.levels[k], taken)])
  {
    hide Sound, AbsLevels, AbsIndex, FrontLowered;
    AbsLevelsAt(h);
    UpdatedAbsLevels(h, k, taken);
    UpdatedAbsIndex(h, k, taken);
  }

  lemma UpdatedAbsLevels(h: Heap, k: Key, taken: nat)
    requires CanUpdate(h, k, taken)
    ensures var levels := AbsLevels(h.nodes, h.chains);
            && k in levels
            && AbsLevels(UpdateHeap(h, k, taken).nodes, h.chains) == levels[k := FrontLowered(levels[k], taken)]
  {
    hide Sound, AbsLevels, Linked, FrontLowered, WithQuantity;
    var h' := UpdateHeap(h, k, taken);
    var levels := AbsLevels(h.nodes, h.chains);
    AbsLevelsAt(h);
    SoundLevel(h, k);
    assert NoDup(h.chains[k]) by { NoDupOf(h, k); }
    OrdersFrontUpdated(h.nodes, h.chains[k], taken);
    Disjoint(h, k, 0);
    forall l | l in h.chains && l != k
      ensures InBounds(|h'.nodes|, h.chains[l]) && Orders(h'.nodes, h.chains[l]) == levels[l]
    {
      assert forall j :: 0 <= j < |h.chains[l]| ==> h.chains[l][j] in h.chains[l];
      OrdersFrame(h.nodes, h'.nodes, h.chains[l]);
    }
    hide Orders, NoDup;
    AbsLevelsRemoved(h'.nodes, h.chains, k, h.chains[k], levels);
    assert SetChain(h.chains, k, h.chains[k], h.chains[k]) == h.chains;
  }

  lemma NoDupOf(h: Heap, k: Key)
    requires Sound(h) && k in h.chains
    ensures NoDup(h.chains[k])
  {
    hide Sound;
    SoundLevel(h, k);
  }

  lemma UpdatedAbsIndex(h: Heap, k: Key, taken: nat)
    requires CanUpdate(h, k, taken)
    ensures AbsIndex(UpdateHeap(h, k, taken).nodes, h.index) == AbsIndex(h.nodes, h.index)
  {
    hide Sound, WithQuantity;
    var h' := UpdateHeap(h, k, taken);
    UpdateFrame(h, k, taken);
    AbsIndexAt(h);
    forall id | id in h.index
      ensures h.index[id] < |h'.nodes| && KeyOf(h'.nodes[h.index[id]].order) == KeyOf(h.nodes[h.index[id]].order)
    {
    }
  }
}
