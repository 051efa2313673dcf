/**
 The fixed arena of order nodes. Free slots form a chain through `next`; the slots of a price
 level form a doubly linked list. A ghost sequence of slots stands for each chain.
 */
module Arenas {
  import opened Types
  import opened Sweep
  import opened Conservation
  import Bits

  type Slot = U32

  const NULL: Slot := 0xFFFF_FFFF

  datatype OrderNode = OrderNode(order: Order, prev: Slot, next: Slot)

  const ZEROED_NODE := OrderNode(Order(0, 0, Bid, 0, 0, 0), NULL, NULL)

  /** `qty` is the sum of the members' quantities as an unchecked 64-bit word. */
  datatype PriceLevel = PriceLevel(head: Slot, tail: Slot, count: nat, qty: U64)

  const NEW_LEVEL := PriceLevel(NULL, NULL, 0, 0)

  function WrapAdd(a: U64, b: nat): U64 {
    (a + b) % TWO64
  }

  function WrapSub(a: U64, b: nat): U64 {
    (a - b) % TWO64
  }

  // ---------------------------------------------------------------- chains of slots

  function Link(chain: seq<Slot>, i: int): Slot {
    if 0 <= i < |chain| then chain[i] else NULL
  }

  ghost predicate InBounds(size: nat, chain: seq<Slot>) {
    size <= NULL && forall i :: 0 <= i < |chain| ==> chain[i] < size
  }

  /** The slots in order, as a new arena chains them. */
  ghost function AllSlots(capacity: U32): (r: seq<Slot>)
    ensures |r| == capacity && forall i :: 0 <= i < capacity ==> r[i] == i
  {
    seq(capacity, i requires 0 <= i < capacity => i)
  }

  ghost predicate NoDup(chain: seq<Slot>) {
    forall i, j :: 0 <= i < j < |chain| ==> chain[i] != chain[j]
  }

  ghost predicate Singly(nodes: seq<OrderNode>, chain: seq<Slot>) {
    && InBounds(|nodes|, chain)
    && forall i :: 0 <= i < |chain| ==> nodes[chain[i]].next == Link(chain, i + 1)
  }

  ghost predicate Doubly(nodes: seq<OrderNode>, chain: seq<Slot>) {
    && Singly(nodes, chain)
    && forall i :: 0 <= i < |chain| ==> nodes[chain[i]].prev == Link(chain, i - 1)
  }

  /** The orders along a chain. */
  ghost function Orders(nodes: seq<OrderNode>, chain: seq<Slot>): (r: seq<Order>)
    requires InBounds(|nodes|, chain)
    ensures |r| == |chain| && forall i :: 0 <= i < |chain| ==> r[i] == nodes[chain[i]].order
  {
    seq(|chain|, i requires 0 <= i < |chain| => nodes[chain[i]].order)
  }

  /** Head, tail and count describe the doubly linked list `chain`. */
  ghost predicate Shape(nodes: seq<OrderNode>, level: PriceLevel, chain: seq<Slot>) {
    && Doubly(nodes, chain)
    && NoDup(chain)
    && level.head == Link(chain, 0)
    && level.tail == Link(chain, |chain| - 1)
    && level.count == |chain|
  }

  ghost predicate QtyOk(nodes: seq<OrderNode>, level: PriceLevel, chain: seq<Slot>) {
    InBounds(|nodes|, chain) && level.qty == Total(Orders(nodes, chain)) % TWO64
  }

  ghost predicate Linked(nodes: seq<OrderNode>, level: PriceLevel, chain: seq<Slot>) {
    Shape(nodes, level, chain) && QtyOk(nodes, level, chain)
  }

  /** Only links changed, and only at `chain` and `slot`. */
  ghost predicate RelinksOnly(nodes: seq<OrderNode>, nodes': seq<OrderNode>, chain: seq<Slot>, slot: Slot) {
    && |nodes'| == |nodes|
    && (forall s: Slot :: s < |nodes| ==> nodes'[s].order == nodes[s].order)
    && (forall s: Slot :: s < |nodes| && s != slot && s !in chain ==> nodes'[s] == nodes[s])
  }

  // ---------------------------------------------------------------- relinking as values

  ghost function Pushed(nodes: seq<OrderNode>, chain: seq<Slot>, s: Slot): seq<OrderNode>
    requires InBounds(|nodes|, chain) && s < |nodes|
  {
    var last := Link(chain, |chain| - 1);
    var nodes1 := if chain == [] then nodes else nodes[last := nodes[last].(next := s)];
    nodes1[s := OrderNode(nodes[s].order, last, NULL)]
  }

  function WithNext(nodes: seq<OrderNode>, s: Slot, next: Slot): seq<OrderNode>
    requires s == NULL || s < |nodes|
  {
    if s == NULL then nodes else nodes[s := nodes[s].(next := next)]
  }

  function WithPrev(nodes: seq<OrderNode>, s: Slot, prev: Slot): seq<OrderNode>
    requires s == NULL || s < |nodes|
  {
    if s == NULL then nodes else nodes[s := nodes[s].(prev := prev)]
  }

  ghost function Unlinked(nodes: seq<OrderNode>, chain: seq<Slot>, i: nat): seq<OrderNode>
    requires InBounds(|nodes|, chain) && i < |chain|
  {
    var prev := Link(chain, i - 1);
    var next := Link(chain, i + 1);
    WithPrev(WithNext(nodes, prev, next), next, prev)
  }

  lemma PushedShape(nodes: seq<OrderNode>, level: PriceLevel, level': PriceLevel, chain: seq<Slot>, s: Slot)
    requires Shape(nodes, level, chain) && s < |nodes| && s !in chain
    requires level'.head == (if chain == [] then s else level.head)
    requires level'.tail == s && level'.count == level.count + 1
    ensures Shape(Pushed(nodes, chain, s), level', chain + [s])
  {
    hide Doubly, Singly, Pushed, NoDup, InBounds, Link, LinkedAt;
    DoublyInBounds(nodes, chain);
    PushedSize(nodes, chain, s);
    PushedEnds(nodes, chain, s);
    var nodes' := Pushed(nodes, chain, s);
    var chain' := chain + [s];
    forall i: nat | i < |chain'|
      ensures LinkedAt(nodes', chain', i)
    {
      PushedAt(nodes, chain, s, i);
    }
    DoublyIntro(nodes', chain');
  }

  lemma PushedSize(nodes: seq<OrderNode>, chain: seq<Slot>, s: Slot)
    requires InBounds(|nodes|, chain) && s < |nodes|
    ensures |Pushed(nodes, chain, s)| == |nodes| && InBounds(|nodes|, chain + [s])
  {
  }

  lemma PushedEnds(nodes: seq<OrderNode>, chain: seq<Slot>, s: Slot)
    requires NoDup(chain) && s !in chain
    ensures NoDup(chain + [s])
    ensures Link(chain + [s], 0) == (if chain == [] then s else Link(chain, 0)) && Link(chain + [s], |chain|) == s
  {
  }

  lemma PushedNode(nodes: seq<OrderNode>, chain: seq<Slot>, s: Slot, t: Slot)
    requires InBounds(|nodes|, chain) && s < |nodes| && t < |nodes|
    ensures var node := Pushed(nodes, chain, s)[t];
            && node.next == (if t == s then NULL else if chain != [] && t == chain[|chain| - 1] then s else nodes[t].next)
            && node.prev == (if t == s then Link(chain, |chain| - 1) else nodes[t].prev)
  {
  }

  lemma LinkPushed(chain: seq<Slot>, s: Slot, j: int)
    ensures Link(chain + [s], j) == if j == |chain| then s else Link(chain, j)
  {
  }

  lemma PushedAt(nodes: seq<OrderNode>, chain: seq<Slot>, s: Slot, i: nat)
    requires Doubly(nodes, chain) && NoDup(chain) && s < |nodes| && s !in chain && i <= |chain|
    ensures InBounds(|nodes|, chain) && LinkedAt(Pushed(nodes, chain, s), chain + [s], i)
  {
    hide Doubly, NoDup, Pushed, Link, InBounds;
    DoublyInBounds(nodes, chain);
    PushedSize(nodes, chain, s);
    LinkPushed(chain, s, i + 1);
    LinkPushed(chain, s, i - 1);
    if i == |chain| {
      PushedNode(nodes, chain, s, s);
      LinkBeyond(chain, i + 1);
    } else {
      assert LinkedAt(nodes, chain, i);
      PushedNode(nodes, chain, s, chain[i]);
      Distinct(chain, i, |chain| - 1);
    }
  }

  lemma LinkBeyond(chain: seq<Slot>, i: nat)
    requires i >= |chain|
    ensures Link(chain, i) == NULL
  {
  }

  lemma PushedRelinks(nodes: seq<OrderNode>, chain: seq<Slot>, s: Slot)
    requires InBounds(|nodes|, chain) && s < |nodes|
    ensures RelinksOnly(nodes, Pushed(nodes, chain, s), chain, s)
  {
  }

  lemma UnlinkedShape(nodes: seq<OrderNode>, level: PriceLevel, level': PriceLevel, chain: seq<Slot>, i: nat)
    requires Shape(nodes, level, chain) && i < |chain|
    requires level'.head == (if i == 0 then Link(chain, 1) else level.head)
    requires level'.tail == (if i + 1 == |chain| then Link(chain, i - 1) else level.tail)
    requires level'.count == level.count - 1
    ensures Shape(Unlinked(nodes, chain, i), level', Without(chain, i))
  {
    hide Doubly, NoDup;
    UnlinkedDoubly(nodes, chain, i);
    NoDupWithout(chain, i);
    LinkWithout(chain, i, 0);
    LinkWithout(chain, i, |chain| - 2);
    hide Link;
    assert |Without(chain, i)| == |chain| - 1;
  }

  lemma NoDupWithout(chain: seq<Slot>, i: nat)
    requires NoDup(chain) && i < |chain|
    ensures NoDup(Without(chain, i))
  {
    var chain' := Without(chain, i);
    assert forall j :: 0 <= j < |chain'| ==> chain'[j] == chain[if j < i then j else j + 1];
  }

  lemma UnlinkedDoubly(nodes: seq<OrderNode>, chain: seq<Slot>, i: nat)
    requires Doubly(nodes, chain) && NoDup(chain) && i < |chain|
    ensures Doubly(Unlinked(nodes, chain, i), Without(chain, i))
  {
    hide Unlinked, Without, Link, InBounds, NoDup, Singly, Doubly;
    DoublyInBounds(nodes, chain);
    InBoundsWithout(|nodes|, chain, i);
    UnlinkedSize(nodes, chain, i);
    var nodes' := Unlinked(nodes, chain, i);
    var chain' := Without(chain, i);
    forall j: nat | j < |chain'|
      ensures LinkedAt(nodes', chain', j)
    {
      UnlinkedDoublyAt(nodes, chain, i, j);
    }
    DoublyIntro(nodes', chain');
  }

  /** The node of member `j` points at its neighbours. */
  ghost predicate LinkedAt(nodes: seq<OrderNode>, chain: seq<Slot>, j: nat) {
    && j < |chain| && chain[j] < |nodes|
    && nodes[chain[j]].next == Link(chain, j + 1)
    && nodes[chain[j]].prev == Link(chain, j - 1)
  }

  lemma DoublyInBounds(nodes: seq<OrderNode>, chain: seq<Slot>)
    requires Doubly(nodes, chain)
    ensures InBounds(|nodes|, chain)
    ensures forall j: nat | j < |chain| :: LinkedAt(nodes, chain, j)
  {
  }

  lemma UnlinkedSize(nodes: seq<OrderNode>, chain: seq<Slot>, i: nat)
    requires InBounds(|nodes|, chain) && i < |chain|
    ensures |Unlinked(nodes, chain, i)| == |nodes|
  {
  }

  lemma InBoundsWithout(size: nat, chain: seq<Slot>, i: nat)
    requires InBounds(size, chain) && i < |chain|
    ensures InBounds(size, Without(chain, i))
  {
  }

  lemma WithoutAt(chain: seq<Slot>, i: nat, j: nat)
    requires i < |chain| && j < |chain| - 1
    ensures |Without(chain, i)| == |chain| - 1
    ensures Without(chain, i)[j] == chain[if j < i then j else j + 1]
  {
  }

  lemma UnlinkedDoublyAt(nodes: seq<OrderNode>, chain: seq<Slot>, i: nat, j: nat)
    requires Doubly(nodes, chain) && NoDup(chain) && i < |chain| && j < |Without(chain, i)|
    ensures InBounds(|nodes|, chain) && LinkedAt(Unlinked(nodes, chain, i), Without(chain, i), j)
  {
    hide Doubly, NoDup, Unlinked, Link, Without, InBounds;
    DoublyInBounds(nodes, chain);
    WithoutLength(chain, i);
    WithoutAt(chain, i, j);
    LinkWithout(chain, i, j + 1);
    LinkWithout(chain, i, j - 1);
    UnlinkedAt(nodes, chain, i, if j < i then j else j + 1);
  }

  lemma LinkWithout(chain: seq<Slot>, i: nat, j: int)
    requires i < |chain|
    ensures Link(Without(chain, i), j) == Link(chain, if j < i then j else j + 1)
  {
  }

  lemma DoublyIntro(nodes: seq<OrderNode>, chain: seq<Slot>)
    requires InBounds(|nodes|, chain)
    requires forall j: nat | j < |chain| :: LinkedAt(nodes, chain, j)
    ensures Doubly(nodes, chain)
  {
    forall j | 0 <= j < |chain|
      ensures nodes[chain[j]].next == Link(chain, j + 1) && nodes[chain[j]].prev == Link(chain, j - 1)
    {
      assert LinkedAt(nodes, chain, j);
    }
  }

  lemma Distinct(chain: seq<Slot>, i: nat, j: nat)
    requires NoDup(chain) && i < |chain| && j < |chain|
    ensures chain[i] == chain[j] <==> i == j
  {
  }

  lemma UnlinkedAt(nodes: seq<OrderNode>, chain: seq<Slot>, i: nat, j: nat)
    requires Doubly(nodes, chain) && NoDup(chain) && i < |chain| && j < |chain| && j != i
    ensures InBounds(|nodes|, chain) && chain[j] < |Unlinked(nodes, chain, i)|
    ensures var node := Unlinked(nodes, chain, i)[chain[j]];
            && node.next == Link(chain, if j + 1 == i then j + 2 else j + 1)
            && node.prev == Link(chain, if j == i + 1 then j - 2 else j - 1)
  {
    hide Doubly, NoDup, Unlinked, Link, InBounds;
    DoublyInBounds(nodes, chain);
    assert LinkedAt(nodes, chain, j);
    UnlinkedSize(nodes, chain, i);
    if i > 0 {
      Distinct(chain, j, i - 1);
    }
    if i + 1 < |chain| {
      Distinct(chain, j, i + 1);
    }
    UnlinkedNode(nodes, chain, i, chain[j]);
  }

  lemma UnlinkedNode(nodes: seq<OrderNode>, chain: seq<Slot>, i: nat, s: Slot)
    requires InBounds(|nodes|, chain) && i < |chain| && s < |nodes|
    ensures var node := Unlinked(nodes, chain, i)[s];
            && node.next == (if i > 0 && s == chain[i - 1] then Link(chain, i + 1) else nodes[s].next)
            && node.prev == (if i + 1 < |chain| && s == chain[i + 1] then Link(chain, i - 1) else nodes[s].prev)
  {
  }

  lemma UnlinkedRelinks(nodes: seq<OrderNode>, chain: seq<Slot>, i: nat)
    requires InBounds(|nodes|, chain) && NoDup(chain) && i < |chain|
    ensures RelinksOnly(nodes, Unlinked(nodes, chain, i), Without(chain, i), chain[i])
    ensures Unlinked(nodes, chain, i)[chain[i]] == nodes[chain[i]]
  {
    var chain' := Without(chain, i);
    if i > 0 {
      assert chain'[i - 1] == chain[i - 1];
    }
    if i + 1 < |chain| {
      assert chain'[i] == chain[i + 1];
    }
  }

  lemma PushedQty(nodes: seq<OrderNode>, nodes': seq<OrderNode>, level: PriceLevel, level': PriceLevel,
                  chain: seq<Slot>, s: Slot)
    requires QtyOk(nodes, level, chain) && s < |nodes| == |nodes'|
    requires forall t: Slot :: t < |nodes| ==> nodes'[t].order == nodes[t].order
    requires level'.qty == WrapAdd(level.qty, nodes[s].order.quantity)
    ensures QtyOk(nodes', level', chain + [s])
  {
    assert Orders(nodes', chain + [s]) == Orders(nodes, chain) + [nodes[s].order];
    hide Total, Orders;
    TotalAppend(Orders(nodes, chain), nodes[s].order);
    WrapSum(Total(Orders(nodes, chain)), nodes[s].order.quantity);
  }

  lemma UnlinkedQty(nodes: seq<OrderNode>, nodes': seq<OrderNode>, level: PriceLevel, level': PriceLevel,
                    chain: seq<Slot>, i: nat)
    requires QtyOk(nodes, level, chain) && i < |chain| && |nodes| == |nodes'|
    requires forall t: Slot :: t < |nodes| ==> nodes'[t].order == nodes[t].order
    requires level'.qty == WrapSub(level.qty, nodes[chain[i]].order.quantity)
    ensures QtyOk(nodes', level', Without(chain, i))
  {
    assert InBounds(|nodes'|, Without(chain, i));
    assert Orders(nodes', Without(chain, i)) == Without(Orders(nodes, chain), i);
    hide Total, Orders;
    TotalAround(Orders(nodes, chain), i);
    WrapDifference(Total(Orders(nodes, chain)), nodes[chain[i]].order.quantity);
  }

  lemma UnlinkedLinked(nodes: seq<OrderNode>, level: PriceLevel, level': PriceLevel, chain: seq<Slot>, i: nat)
    requires Linked(nodes, level, chain) && i < |chain|
    requires level'.head == (if i == 0 then Link(chain, 1) else Link(chain, 0))
    requires level'.tail == (if i + 1 == |chain| then Link(chain, i - 1) else Link(chain, |chain| - 1))
    requires level'.count == level.count - 1
    requires level'.qty == WrapSub(level.qty, nodes[chain[i]].order.quantity)
    ensures var nodes' := Unlinked(nodes, chain, i);
            && Linked(nodes', level', Without(chain, i))
            && RelinksOnly(nodes, nodes', Without(chain, i), chain[i])
            && nodes'[chain[i]] == nodes[chain[i]]
  {
    UnlinkedRelinks(nodes, chain, i);
    UnlinkedShape(nodes, level, level', chain, i);
    hide Shape, Unlinked, Without, QtyOk;
    UnlinkedQty(nodes, Unlinked(nodes, chain, i), level, level', chain, i);
  }

  lemma WrapSum(a: nat, b: nat)
    ensures WrapAdd(a % TWO64, b) == (a + b) % TWO64
  {
    Bits.WordShift(a % TWO64 + b, a / TWO64);
  }

  lemma WrapDifference(a: nat, b: nat)
    requires b <= a
    ensures WrapSub(a % TWO64, b) == (a - b) % TWO64
  {
    Bits.WordShift(a % TWO64 - b, a / TWO64);
  }

  lemma AllSlotsChained(nodes: seq<OrderNode>, capacity: U32)
    requires |nodes| == capacity
    requires forall j :: 0 <= j < capacity ==> nodes[j].next == if j + 1 < capacity then j + 1 else NULL
    ensures Singly(nodes, AllSlots(capacity)) && NoDup(AllSlots(capacity))
  {
  }

  lemma SinglyTail(nodes: seq<OrderNode>, chain: seq<Slot>, node: OrderNode)
    requires Singly(nodes, chain) && NoDup(chain) && chain != []
    ensures Singly(nodes[chain[0] := node], chain[1..]) && NoDup(chain[1..])
  {
  }

  lemma SinglyCons(nodes: seq<OrderNode>, chain: seq<Slot>, s: Slot)
    requires Singly(nodes, chain) && NoDup(chain) && s < |nodes| && s !in chain
    ensures Singly(nodes[s := nodes[s].(next := Link(chain, 0))], [s] + chain) && NoDup([s] + chain)
  {
  }

  class Arena {
    const storage: array<OrderNode>
    var freeHead: Slot
    var count: nat
    const capacity: U32
    ghost var free: seq<Slot>

    ghost predicate Valid()
      reads this, storage
    {
      && storage.Length == capacity
      && Singly(storage[..], free)
      && NoDup(free)
      && freeHead == Link(free, 0)
      && count + |free| == capacity
    }

    constructor (capacity: U32)
      ensures Valid() && fresh(storage)
      ensures this.capacity == capacity && count == 0
      ensures free == AllSlots(capacity)
    {
      this.capacity := capacity;
      storage := new OrderNode[capacity](i => ZEROED_NODE);
      freeHead := if capacity > 0 then 0 else NULL;
      count := 0;
      free := AllSlots(capacity);
      new;
      for i := 0 to capacity
        modifies storage
        invariant forall j :: 0 <= j < i ==> storage[j].next == if j + 1 < capacity then j + 1 else NULL
      {
        storage[i] := ZEROED_NODE.(next := if i + 1 < capacity then i + 1 else NULL);
      }
      AllSlotsChained(storage[..], capacity);
    }

    method Alloc(order: Order) returns (r: Option<Slot>)
      requires Valid()
      modifies this, storage
      ensures Valid()
      ensures r.None? <==> old(free) == []
      ensures r.None? ==> unchanged(this) && unchanged(storage)
      ensures r.Some? ==>
                && r.value == old(free)[0]
                && free == old(free)[1..]
                && count == old(count) + 1
                && storage[..] == old(storage[..])[r.value := OrderNode(order, NULL, NULL)]
    {
      if freeHead == NULL {
        return None;
      }
      var index := freeHead;
      freeHead := storage[index].next;
      storage[index] := OrderNode(order, NULL, NULL);
      count := count + 1;
      assert storage[..] == old(storage[..])[index := OrderNode(order, NULL, NULL)];
      SinglyTail(old(storage[..]), free, OrderNode(order, NULL, NULL));
      free := free[1..];
      r := Some(index);
    }

    method Dealloc(index: Slot)
      requires Valid()
      requires index < capacity && index !in free && count > 0
      modifies this, storage
      ensures Valid()
      ensures free == [index] + old(free)
      ensures count == old(count) - 1
      ensures storage[..] == old(storage[..])[index := old(storage[index]).(next := old(freeHead))]
    {
      storage[index] := storage[index].(next := freeHead);
      assert storage[..] == old(storage[..])[index := old(storage[index]).(next := old(freeHead))];
      SinglyCons(old(storage[..]), free, index);
      freeHead := index;
      count := count - 1;
      free := [index] + free;
    }

    /** Point the `next` of `s` at `next`, unless `s` is the null slot. */
    method SetNext(s: Slot, next: Slot)
      requires s == NULL || s < storage.Length <= NULL
      modifies storage
      ensures storage[..] == WithNext(old(storage[..]), s, next)
    {
      if s != NULL {
        storage[s] := storage[s].(next := next);
      }
    }

    method SetPrev(s: Slot, prev: Slot)
      requires s == NULL || s < storage.Length <= NULL
      modifies storage
      ensures storage[..] == WithPrev(old(storage[..]), s, prev)
    {
      if s != NULL {
        storage[s] := storage[s].(prev := prev);
      }
    }

    /** Queue `index` last. */
    method PushBack(level: PriceLevel, index: Slot, ghost chain: seq<Slot>) returns (level': PriceLevel)
      requires index < storage.Length && index !in chain
      requires Linked(storage[..], level, chain)
      modifies storage
      ensures Linked(storage[..], level', chain + [index])
      ensures RelinksOnly(old(storage[..]), storage[..], chain, index)
    {
      var quantity := storage[index].order.quantity;
      level' := level;
      if level.tail != NULL {
        var oldTail := level.tail;
        storage[oldTail] := storage[oldTail].(next := index);
        storage[index] := storage[index].(prev := oldTail);
      } else {
        level' := level'.(head := index);
        storage[index] := storage[index].(prev := NULL);
      }
      storage[index] := storage[index].(next := NULL);
      level' := level'.(tail := index, count := level.count + 1, qty := WrapAdd(level.qty, quantity));
      ghost var nodes := old(storage[..]);
      assert storage[..] == Pushed(nodes, chain, index);
      hide Shape, Pushed, RelinksOnly, QtyOk;
      PushedRelinks(nodes, chain, index);
      PushedShape(nodes, level, level', chain, index);
      PushedQty(nodes, storage[..], level, level', chain, index);
    }

    /** Unlink the front slot. */
    method PopFront(level: PriceLevel, ghost chain: seq<Slot>) returns (level': PriceLevel, r: Option<Slot>)
      requires Linked(storage[..], level, chain)
      modifies storage
      ensures r.None? <==> chain == []
      ensures r.None? ==> level' == level && storage[..] == old(storage[..])
      ensures r.Some? ==>
                && r.value == chain[0]
                && Linked(storage[..], level', chain[1..])
                && RelinksOnly(old(storage[..]), storage[..], chain[1..], r.value)
                && storage[r.value] == old(storage[r.value])
    {
      hide Linked, RelinksOnly, PoppedLevel, WithPrev, Link;
      ghost var nodes := storage[..];
      FrontLinks(nodes, level, chain);
      if level.head == NULL {
        return level, None;
      }
      var index := level.head;
      var node := storage[index];
      SetPrev(node.next, NULL);
      level' := PoppedLevel(level, node.next, node.order.quantity);
      PoppedLinked(nodes, level, chain);
      r := Some(index);
    }

    /** Make the neighbours of `index` point past it. */
    method Bypass(index: Slot, ghost level: PriceLevel, ghost chain: seq<Slot>, ghost i: nat)
      requires Linked(storage[..], level, chain)
      requires i < |chain| && chain[i] == index
      modifies storage
      ensures InBounds(storage.Length, chain)
      ensures storage[..] == Unlinked(old(storage[..]), chain, i)
    {
      LinksAt(storage[..], level, chain, i);
      hide Linked;
      var prev := storage[index].prev;
      var next := storage[index].next;
      SetNext(prev, next);
      SetPrev(next, prev);
    }

    /** Unlink the slot at position `i` of the chain. */
    method Remove(level: PriceLevel, index: Slot, ghost chain: seq<Slot>, ghost i: nat) returns (level': PriceLevel)
      requires Linked(storage[..], level, chain)
      requires i < |chain| && chain[i] == index
      modifies storage
      ensures Linked(storage[..], level', Without(chain, i))
      ensures RelinksOnly(old(storage[..]), storage[..], Without(chain, i), index)
      ensures storage[index] == old(storage[index])
    {
      hide Linked, Unlinked, Without, RelinksOnly, Link, RemovedLevel;
      ghost var nodes := storage[..];
      LinksAt(nodes, level, chain, i);
      var node := storage[index];
      Bypass(index, level, chain, i);
      level' := RemovedLevel(level, node.prev, node.next, node.order.quantity);
      RemovedLinked(nodes, level, chain, i);
    }
  }

  /** A level without its front slot: the head moves on, and the tail goes with the last slot. */
  function PoppedLevel(level: PriceLevel, next: Slot, quantity: U64): PriceLevel
    requires level.count > 0
  {
    PriceLevel(next, if next == NULL then NULL else level.tail, level.count - 1, WrapSub(level.qty, quantity))
  }

  /** A level without a slot between `prev` and `next`: the ends move only if the slot was one. */
  function RemovedLevel(level: PriceLevel, prev: Slot, next: Slot, quantity: U64): PriceLevel
    requires level.count > 0
  {
    PriceLevel(if prev == NULL then next else level.head, if next == NULL then prev else level.tail, level.count - 1,
               WrapSub(level.qty, quantity))
  }

  lemma LinkNull(size: nat, chain: seq<Slot>, i: int)
    requires InBounds(size, chain)
    ensures Link(chain, i) == NULL <==> i < 0 || i >= |chain|
    ensures Link(chain, i) == NULL || Link(chain, i) < size <= NULL
  {
  }

  /** What a level and its front slot look like. */
  lemma FrontLinks(nodes: seq<OrderNode>, level: PriceLevel, chain: seq<Slot>)
    requires Linked(nodes, level, chain)
    ensures level.head == NULL <==> chain == []
    ensures chain != [] ==>
              && level.head == chain[0] < |nodes| <= NULL && level.count > 0
              && nodes[chain[0]].next == Link(chain, 1)
              && (Link(chain, 1) == NULL || Link(chain, 1) < |nodes|)
  {
    hide Total, Orders, QtyOk;
    LinkNull(|nodes|, chain, 0);
    LinkNull(|nodes|, chain, 1);
  }

  lemma UnlinkedFront(nodes: seq<OrderNode>, chain: seq<Slot>)
    requires InBounds(|nodes|, chain) && chain != []
    ensures Link(chain, 1) == NULL || Link(chain, 1) < |nodes|
    ensures Unlinked(nodes, chain, 0) == WithPrev(nodes, Link(chain, 1), NULL)
    ensures Without(chain, 0) == chain[1..]
  {
  }

  lemma PoppedLinked(nodes: seq<OrderNode>, level: PriceLevel, chain: seq<Slot>)
    requires Linked(nodes, level, chain) && chain != []
    ensures InBounds(|nodes|, chain) && level.count > 0 && (Link(chain, 1) == NULL || Link(chain, 1) < |nodes|)
    ensures var nodes' := WithPrev(nodes, Link(chain, 1), NULL);
            && Linked(nodes', PoppedLevel(level, Link(chain, 1), nodes[chain[0]].order.quantity), chain[1..])
            && RelinksOnly(nodes, nodes', chain[1..], chain[0])
            && |nodes'| == |nodes| && nodes'[chain[0]] == nodes[chain[0]]
  {
    hide Linked, Unlinked, Without, RelinksOnly, Link, WrapSub, InBounds, WithPrev;
    LinksAt(nodes, level, chain, 0);
    LinkNull(|nodes|, chain, -1);
    LinkNull(|nodes|, chain, 1);
    UnlinkedFront(nodes, chain);
    UnlinkedSize(nodes, chain, 0);
    UnlinkedLinked(nodes, level, PoppedLevel(level, Link(chain, 1), nodes[chain[0]].order.quantity), chain, 0);
  }

  lemma RemovedLinked(nodes: seq<OrderNode>, level: PriceLevel, chain: seq<Slot>, i: nat)
    requires Linked(nodes, level, chain) && i < |chain|
    ensures InBounds(|nodes|, chain) && level.count > 0
    ensures var nodes' := Unlinked(nodes, chain, i);
            var level' := RemovedLevel(level, Link(chain, i - 1), Link(chain, i + 1), nodes[chain[i]].order.quantity);
            && Linked(nodes', level', Without(chain, i))
            && RelinksOnly(nodes, nodes', Without(chain, i), chain[i])
            && |nodes'| == |nodes| && nodes'[chain[i]] == nodes[chain[i]]
  {
    hide Linked, Unlinked, Without, RelinksOnly, Link, WrapSub, InBounds;
    LinksAt(nodes, level, chain, i);
    LinkNull(|nodes|, chain, i - 1);
    LinkNull(|nodes|, chain, i + 1);
    UnlinkedSize(nodes, chain, i);
    UnlinkedLinked(nodes, level, RemovedLevel(level, Link(chain, i - 1), Link(chain, i + 1), nodes[chain[i]].order.quantity),
                   chain, i);
  }

  /** What the fields of a linked slot and of its level are. */
  lemma LinksAt(nodes: seq<OrderNode>, level: PriceLevel, chain: seq<Slot>, i: nat)
    requires Linked(nodes, level, chain) && i < |chain|
    ensures InBounds(|nodes|, chain) && chain[i] < |nodes|
    ensures nodes[chain[i]].prev == Link(chain, i - 1) && nodes[chain[i]].next == Link(chain, i + 1)
    ensures level.head == Link(chain, 0) && level.tail == Link(chain, |chain| - 1)
    ensures level.count == |chain|
  {
    hide Total, Orders, QtyOk, Link;
  }
}
