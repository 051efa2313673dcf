/** Inserting an order at the value level: soundness is kept and the abstract book inserts. */
module BookInsert {
  import opened Types
  import opened PriceBook
  import opened Arenas
  import opened BookHeap

  function ChainAt(chains: map<Key, Chain>, k: Key): Chain {
    if k in chains then chains[k] else []
  }

  /** `nodes'` holds `o` in slot `s` and the other orders unmoved, relinked at most along `chain`. */
  ghost predicate NodesInserted(nodes: Nodes, nodes': Nodes, s: Slot, chain: Chain, o: Order) {
    && |nodes'| == |nodes|
    && s < |nodes|
    && nodes'[s].order == o
    && (forall t: Slot :: t < |nodes| && t != s ==> nodes'[t].order == nodes[t].order)
    && (forall t: Slot :: t < |nodes| && t != s && t !in chain ==> nodes'[t] == nodes[t])
  }

  ghost function InsertHeap(h: Heap, o: Order, nodes': Nodes, level': PriceLevel): Heap
    requires h.free != []
  {
    var s := h.free[0];
    var k := KeyOf(o);
    Heap(nodes', h.free[1..], h.levels[k := level'], h.chains[k := ChainAt(h.chains, k) + [s]],
         h.index[o.id := s])
  }

  ghost predicate CanInsert(h: Heap, o: Order, nodes': Nodes, level': PriceLevel) {
    && Sound(h) && h.free != [] && o.id !in h.index
    && NodesInserted(h.nodes, nodes', h.free[0], ChainAt(h.chains, KeyOf(o)), o)
    && Linked(nodes', level', ChainAt(h.chains, KeyOf(o)) + [h.free[0]])
  }

  // ---------------------------------------------------------------- levels

  lemma MembersKept(nodes: Nodes, nodes': Nodes, index: Index, chain: Chain, k: Key, s: Slot, near: Chain, o: Order)
    requires NodesInserted(nodes, nodes', s, near, o) && o.id !in index
    requires MembersOk(nodes, index, chain, k) && s !in chain
    ensures MembersOk(nodes', index[o.id := s], chain, k)
  {
    forall i | 0 <= i < |chain|
      ensures KeyOf(nodes'[chain[i]].order) == k && Live(nodes', index[o.id := s], chain[i])
    {
      assert chain[i] in chain;
    }
  }

  lemma InsertedOther(h: Heap, o: Order, nodes': Nodes, level': PriceLevel, l: Key)
    requires CanInsert(h, o, nodes', level') && l in h.chains && l != KeyOf(o)
    ensures l in h.levels
    ensures LevelSound(nodes', h.index[o.id := h.free[0]], h.levels[l], h.chains[l], l)
  {
    hide Sound, Linked, MembersOk;
    SoundLevel(h, l);
    FreeNotInChains(h, 0);
    MembersKept(h.nodes, nodes', h.index, h.chains[l], l, h.free[0], ChainAt(h.chains, KeyOf(o)), o);
    forall i | 0 <= i < |h.chains[l]|
      ensures nodes'[h.chains[l][i]] == h.nodes[h.chains[l][i]]
    {
      Disjoint(h, l, i);
    }
    LinkedFrame(h.nodes, nodes', h.levels[l], h.chains[l]);
  }

  lemma InsertedHere(h: Heap, o: Order, nodes': Nodes, level': PriceLevel)
    requires CanInsert(h, o, nodes', level')
    ensures var k := KeyOf(o);
            LevelSound(nodes', h.index[o.id := h.free[0]], level', ChainAt(h.chains, k) + [h.free[0]], k)
  {
    var k := KeyOf(o);
    var chain := ChainAt(h.chains, k);
    var s := h.free[0];
    hide Sound, Linked;
    SoundParts(h);
    assert MembersOk(nodes', h.index[o.id := s], chain, k) by {
      if k in h.chains {
        SoundLevel(h, k);
        FreeNotInChains(h, 0);
        hide MembersOk;
        MembersKept(h.nodes, nodes', h.index, chain, k, s, chain, o);
      }
    }
    hide MembersOk;
    MembersAppend(nodes', h.index[o.id := s], chain, k, s);
  }

  lemma MembersAppend(nodes: Nodes, index: Index, chain: Chain, k: Key, s: Slot)
    requires MembersOk(nodes, index, chain, k)
    requires s < |nodes| && KeyOf(nodes[s].order) == k && Live(nodes, index, s)
    ensures MembersOk(nodes, index, chain + [s], k)
  {
  }

  lemma InsertedKeys(h: Heap, o: Order, nodes': Nodes, level': PriceLevel)
    requires CanInsert(h, o, nodes', level')
    ensures InsertHeap(h, o, nodes', level').levels.Keys == InsertHeap(h, o, nodes', level').chains.Keys
  {
    hide Sound, Linked, NodesInserted;
    SoundParts(h);
  }

  lemma InsertedLevelAt(h: Heap, o: Order, nodes': Nodes, level': PriceLevel, l: Key)
    requires CanInsert(h, o, nodes', level') && l in InsertHeap(h, o, nodes', level').chains
    ensures var h' := InsertHeap(h, o, nodes', level');
            l in h'.levels && LevelSound(h'.nodes, h'.index, h'.levels[l], h'.chains[l], l)
  {
    hide Sound, Linked, NodesInserted, LevelSound;
    if l == KeyOf(o) {
      InsertedHere(h, o, nodes', level');
    } else {
      InsertedOther(h, o, nodes', level', l);
    }
  }

  lemma InsertedLevelsSound(h: Heap, o: Order, nodes': Nodes, level': PriceLevel)
    requires CanInsert(h, o, nodes', level')
    ensures LevelsSound(InsertHeap(h, o, nodes', level'))
  {
    assert h.free != [];
    hide *;
    var h' := InsertHeap(h, o, nodes', level');
    InsertedKeys(h, o, nodes', level');
    forall l | l in h'.chains
      ensures l in h'.levels && LevelSound(h'.nodes, h'.index, h'.levels[l], h'.chains[l], l)
    {
      InsertedLevelAt(h, o, nodes', level', l);
    }
    LevelsSoundIntro(h');
  }

  // ---------------------------------------------------------------- index and free chain

  lemma InsertedIndexSound(h: Heap, o: Order, nodes': Nodes, level': PriceLevel)
    requires CanInsert(h, o, nodes', level')
    ensures IndexSound(InsertHeap(h, o, nodes', level'))
  {
    var h' := InsertHeap(h, o, nodes', level');
    var s := h.free[0];
    hide Sound, Linked;
    forall id | id in h'.index
      ensures EntrySound(h'.nodes, h'.chains, id, h'.index[id])
    {
      if id == o.id {
        assert h'.chains[KeyOf(o)][|h'.chains[KeyOf(o)]| - 1] == s;
      } else {
        IndexedNotFree(h, id);
        var t := h.index[id];
        assert h.free[0] in h.free;
        EntryKept(h.nodes, nodes', h.chains, id, t, s, ChainAt(h.chains, KeyOf(o)), o);
      }
    }
  }

  lemma EntryKept(nodes: Nodes, nodes': Nodes, chains: map<Key, Chain>, id: OrderId, t: Slot, s: Slot,
                  near: Chain, o: Order)
    requires NodesInserted(nodes, nodes', s, near, o) && EntrySound(nodes, chains, id, t) && t != s
    ensures EntrySound(nodes', chains[KeyOf(o) := ChainAt(chains, KeyOf(o)) + [s]], id, t)
  {
    var chain := ChainAt(chains, KeyOf(o));
    if KeyOf(nodes[t].order) == KeyOf(o) {
      var i :| 0 <= i < |chain| && chain[i] == t;
      assert (chain + [s])[i] == t;
    }
  }

  lemma FreeInserted(nodes: Nodes, nodes': Nodes, index: Index, free: Chain, near: Chain, o: Order)
    requires FreeSound(nodes, index, free) && free != [] && o.id !in index
    requires NodesInserted(nodes, nodes', free[0], near, o)
    ensures FreeSound(nodes', index[o.id := free[0]], free[1..])
  {
    var s := free[0];
    var index' := index[o.id := s];
    forall i | 0 <= i < |free[1..]|
      ensures !Live(nodes', index', free[1..][i])
    {
      assert !Live(nodes, index, free[i + 1]);
      assert free[i + 1] != s;
    }
    StillCovered(nodes, nodes', index, free, near, o);
    MapGrows(index, o.id, s);
  }

  lemma StillCovered(nodes: Nodes, nodes': Nodes, index: Index, free: Chain, near: Chain, o: Order)
    requires FreeSound(nodes, index, free) && free != [] && o.id !in index
    requires NodesInserted(nodes, nodes', free[0], near, o)
    ensures forall t: Slot :: t < |nodes'| ==> Live(nodes', index[o.id := free[0]], t) || t in free[1..]
  {
    var s := free[0];
    forall t: Slot | t < |nodes'|
      ensures Live(nodes', index[o.id := s], t) || t in free[1..]
    {
      assert free == [s] + free[1..];
      assert Live(nodes, index, t) || t in free;
    }
  }

  lemma InsertSound(h: Heap, o: Order, nodes': Nodes, level': PriceLevel)
    requires CanInsert(h, o, nodes', level')
    ensures Sound(InsertHeap(h, o, nodes', level'))
  {
    hide LevelsSound, IndexSound, FreeSound, NodesInserted, Linked;
    InsertedLevelsSound(h, o, nodes', level');
    InsertedIndexSound(h, o, nodes', level');
    FreeInserted(h.nodes, nodes', h.index, h.free, ChainAt(h.chains, KeyOf(o)), o);
  }

  // ---------------------------------------------------------------- abstraction

  lemma OrdersInserted(h: Heap, o: Order, nodes': Nodes, level': PriceLevel, l: Key)
    requires CanInsert(h, o, nodes', level') && l in h.chains
    ensures InBounds(|h.nodes|, h.chains[l]) && |nodes'| == |h.nodes|
    ensures Orders(nodes', h.chains[l]) == Orders(h.nodes, h.chains[l])
  {
    hide Sound, Linked, MembersOk;
    SoundLevel(h, l);
    FreeNotInChains(h, 0);
    forall i | 0 <= i < |h.chains[l]|
      ensures nodes'[h.chains[l][i]].order == h.nodes[h.chains[l][i]].order
    {
      assert h.chains[l][i] in h.chains[l];
    }
    OrdersFrame(h.nodes, nodes', h.chains[l]);
  }

  lemma InsertedAbsLevels(h: Heap, o: Order, nodes': Nodes, level': PriceLevel)
    requires CanInsert(h, o, nodes', level')
    ensures var k := KeyOf(o);
            var levels := AbsLevels(h.nodes, h.chains);
            AbsLevels(nodes', h.chains[k := ChainAt(h.chains, k) + [h.free[0]]]) == levels[k := Get(levels, k) + [o]]
  {
    var k := KeyOf(o);
    var chain' := ChainAt(h.chains, k) + [h.free[0]];
    var levels := AbsLevels(h.nodes, h.chains);
    hide Sound, AbsLevels;
    AbsLevelsAt(h);
    assert InBounds(|nodes'|, chain');
    hide Linked;
    forall l | l in h.chains
      ensures InBounds(|nodes'|, h.chains[l])
      ensures Orders(nodes', h.chains[l]) == levels[l]
    {
      OrdersInserted(h, o, nodes', level', l);
    }
    assert nodes'[h.free[0]].order == o;
    hide CanInsert;
    assert Orders(nodes', chain') == Get(levels, k) + [o];
    AbsLevelsPut(nodes', h.chains, k, chain', levels);
  }

  lemma AbsLevelsPut(nodes': Nodes, chains: map<Key, Chain>, k: Key, chain': Chain, levels: Levels)
    requires levels.Keys == chains.Keys
    requires forall l | l in chains && l != k ::
               InBounds(|nodes'|, chains[l]) && Orders(nodes', chains[l]) == levels[l]
    requires InBounds(|nodes'|, chain')
    ensures AbsLevels(nodes', chains[k := chain']) == levels[k := Orders(nodes', chain')]
  {
    hide Orders, InBounds;
  }

  lemma InsertedAbsIndex(h: Heap, o: Order, nodes': Nodes, level': PriceLevel)
    requires CanInsert(h, o, nodes', level')
    ensures AbsIndex(nodes', h.index[o.id := h.free[0]]) == AbsIndex(h.nodes, h.index)[o.id := KeyOf(o)]
  {
    hide Sound, Linked;
    AbsIndexAt(h);
    forall id | id in h.index
      ensures h.index[id] < |nodes'| && nodes'[h.index[id]].order == h.nodes[h.index[id]].order
    {
      IndexedNotFree(h, id);
      assert h.free[0] in h.free;
    }
    hide CanInsert;
  }

  /** What the insertion means for the abstract book. */
  lemma InsertAbs(h: Heap, o: Order, nodes': Nodes, level': PriceLevel)
    requires CanInsert(h, o, nodes', level')
    ensures Insert(Abs(h), o) == Ok(Abs(InsertHeap(h, o, nodes', level')))
  {
    hide Sound, Linked, AbsLevels, AbsIndex;
    InsertedAbsLevels(h, o, nodes', level');
    InsertedAbsIndex(h, o, nodes', level');
    AbsIndexAt(h);
    SoundParts(h);
    assert |nodes'| == |h.nodes| && |h.index| < |h.nodes|;
  }
}
