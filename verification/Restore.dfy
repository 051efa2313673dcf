/**
 Rebuilding a book by inserting a listing in order, without matching: restoring the listing of
 a well-formed book into the same capacity succeeds and gives back the very same book.
 */
module Restore {
  import opened Types
  import opened PriceBook
  import opened FlatBook
  import opened Sweep
  import opened Refinement

  /** Insert the orders one after the other; the first error ends the restore. */
  function InsertAll(b: Book, orders: seq<Order>): Result<Book, BookError>
    decreases |orders|
  {
    if orders == [] then Ok(b)
    else match Insert(b, orders[0])
      case Err(e) => Err(e)
      case Ok(b') => InsertAll(b', orders[1..])
  }

  lemma {:induction false} InsertAllAppend(b: Book, orders: seq<Order>, o: Order)
    requires InsertAll(b, orders).Ok?
    ensures InsertAll(b, orders + [o]) == Insert(InsertAll(b, orders).value, o)
    decreases |orders|
  {
    if orders == [] {
      assert [o][1..] == [];
    } else {
      assert (orders + [o])[1..] == orders[1..] + [o];
      InsertAllAppend(Insert(b, orders[0]).value, orders[1..], o);
    }
  }

  lemma {:induction false} InsertAllFails(b: Book, orders: seq<Order>, o: Order)
    requires InsertAll(b, orders).Err?
    ensures InsertAll(b, orders + [o]) == InsertAll(b, orders)
    decreases |orders|
  {
    assert (orders + [o])[1..] == orders[1..] + [o];
    if Insert(b, orders[0]).Ok? {
      InsertAllFails(Insert(b, orders[0]).value, orders[1..], o);
    }
  }

  // ---------------------------------------------------------------- the listing is a flat book

  ghost predicate Keyed(levels: Levels) {
    forall k, i | k in levels && 0 <= i < |levels[k]| :: KeyOf(levels[k][i]) == k
  }

  lemma {:induction false} AtUniform(orders: seq<Order>, key: Key, k: Key)
    requires forall i :: 0 <= i < |orders| ==> KeyOf(orders[i]) == key
    ensures At(orders, k) == if k == key then orders else []
    decreases |orders|
  {
    if orders != [] {
      AtUniform(orders[1..], key, k);
    }
  }

  lemma {:induction false} AtQueue(levels: Levels, side: Side, k: Key)
    requires Keyed(levels)
    ensures At(Queue(levels, side), k) == if k.side == side then Get(levels, k) else []
    decreases |levels|
  {
    ExtremeIsKey(levels, side);
    match Extreme(Prices(levels, side), side)
    case None =>
      assert k in levels && k.side == side ==> k.price in Prices(levels, side);
    case Some(p) =>
      var best := Key(side, p);
      assert (levels - {best}).Keys == levels.Keys - {best};
      AtQueue(levels - {best}, side, k);
      AtConcat(levels[best], Queue(levels - {best}, side), k);
      AtUniform(levels[best], best, k);
  }

  lemma ListingSameLevels(b: Book)
    requires Consistent(b)
    ensures SameLevels(b.levels, Listing(b))
  {
    assert NoEmptyLevel(b.levels) && Keyed(b.levels) by {
      assert forall k | k in b.levels :: LevelOk(b.levels[k], k, b.index);
    }
    forall k: Key
      ensures At(Listing(b), k) == Get(b.levels, k)
    {
      hide Queue, At;
      AtQueue(b.levels, Ask, k);
      AtQueue(b.levels, Bid, k);
      AtConcat(Queue(b.levels, Ask), Queue(b.levels, Bid), k);
    }
  }

  // ---------------------------------------------------------------- its ids are distinct

  ghost predicate DistinctIds(flat: Flat) {
    forall i, j :: 0 <= i < j < |flat| ==> flat[i].id != flat[j].id
  }

  lemma AtPosition(b: Book, flat: Flat, i: nat)
    requires Consistent(b) && SameLevels(b.levels, flat) && i < |flat|
    ensures var k := KeyOf(flat[i]);
            var p := |At(flat[..i], k)|;
            && k in b.levels && p < |b.levels[k]| && b.levels[k][p] == flat[i]
            && flat[i].id in b.index && b.index[flat[i].id] == k
  {
    RemoveSameLevels(b.levels, flat, i);
    assert LevelOk(b.levels[KeyOf(flat[i])], KeyOf(flat[i]), b.index);
  }

  lemma AtGrows(flat: Flat, i: nat, j: nat)
    requires i < j < |flat|
    ensures |At(flat[..i], KeyOf(flat[i]))| < |At(flat[..j], KeyOf(flat[i]))|
  {
    assert flat[..j][..i] == flat[..i];
    AtSplit(flat[..j], i, KeyOf(flat[i]));
  }

  lemma ListingDistinct(b: Book, flat: Flat)
    requires Consistent(b) && SameLevels(b.levels, flat)
    ensures DistinctIds(flat)
  {
    forall i, j | 0 <= i < j < |flat|
      ensures flat[i].id != flat[j].id
    {
      hide At, Consistent, SameLevels;
      AtPosition(b, flat, i);
      AtPosition(b, flat, j);
      AtGrows(flat, i, j);
      assert LevelOk(b.levels[KeyOf(flat[i])], KeyOf(flat[i]), b.index) by { LevelIsOk(b, KeyOf(flat[i])); }
    }
  }

  lemma LevelIsOk(b: Book, k: Key)
    requires Consistent(b) && k in b.levels
    ensures LevelOk(b.levels[k], k, b.index)
  {
  }

  /** Distinct ids that are all indexed are at most as many as the index holds. */
  lemma {:induction false} DistinctCount(flat: Flat, ids: set<OrderId>)
    requires DistinctIds(flat) && forall i :: 0 <= i < |flat| ==> flat[i].id in ids
    ensures |flat| <= |ids|
    decreases |flat|
  {
    if flat != [] {
      var n := |flat| - 1;
      assert flat[n].id in ids;
      DistinctCount(flat[..n], ids - {flat[n].id});
    }
  }

  // ---------------------------------------------------------------- restoring

  /** A consistent book that holds exactly the orders of `flat`. */
  ghost predicate Holds(b: Book, flat: Flat) {
    Consistent(b) && SameLevels(b.levels, flat) && |flat| == |b.index|
  }

  lemma HoldsIds(b: Book, flat: Flat, id: OrderId)
    requires Holds(b, flat) && id in b.index
    ensures exists i :: 0 <= i < |flat| && flat[i].id == id
  {
    var k := b.index[id];
    assert Get(b.levels, k) == At(flat, k);
    var i := AtElements(flat, k, Position(b.levels[k], id));
  }

  lemma {:induction false} RestorePrefix(flat: Flat, capacity: nat, n: nat)
    requires DistinctIds(flat) && n <= |flat| <= capacity
    ensures InsertAll(Empty(capacity), flat[..n]).Ok?
    ensures Holds(InsertAll(Empty(capacity), flat[..n]).value, flat[..n])
    ensures InsertAll(Empty(capacity), flat[..n]).value.capacity == capacity
    decreases n
  {
    if n == 0 {
      EmptyHolds(capacity);
      assert flat[..0] == [];
    } else {
      var m := n - 1;
      RestorePrefix(flat, capacity, m);
      var b := InsertAll(Empty(capacity), flat[..m]).value;
      assert flat[..n] == flat[..m] + [flat[m]];
      InsertAllAppend(Empty(capacity), flat[..m], flat[m]);
      assert flat[m].id !in b.index by {
        if flat[m].id in b.index {
          HoldsIds(b, flat[..m], flat[m].id);
        }
      }
      HoldsInsert(b, flat[..m], flat[m]);
    }
  }

  lemma EmptyHolds(capacity: nat)
    ensures Holds(Empty(capacity), [])
  {
  }

  lemma HoldsInsert(b: Book, flat: Flat, o: Order)
    requires Holds(b, flat) && o.id !in b.index && |flat| < b.capacity
    ensures Insert(b, o).Ok? && Holds(Insert(b, o).value, flat + [o])
    ensures Insert(b, o).value.capacity == b.capacity
  {
    InsertConsistent(b, o);
    InsertSameLevels(b.levels, flat, o);
    hide Consistent, SameLevels;
  }

  /** The orders, with consistency, determine the book. */
  lemma SameLevelsUnique(b: Book, b': Book, flat: Flat)
    requires Consistent(b) && Consistent(b') && b.capacity == b'.capacity
    requires SameLevels(b.levels, flat) && SameLevels(b'.levels, flat)
    ensures b == b'
  {
    forall k: Key
      ensures k in b.levels <==> k in b'.levels
      ensures k in b.levels ==> b.levels[k] == b'.levels[k]
    {
      assert Get(b.levels, k) == At(flat, k) == Get(b'.levels, k);
    }
    assert b.levels == b'.levels;
    IndexUnique(b, b');
    IndexUnique(b', b);
    MapsEqual(b.index, b'.index);
  }

  lemma MapsEqual<K, V>(m: map<K, V>, n: map<K, V>)
    requires forall k | k in m :: k in n && n[k] == m[k]
    requires forall k | k in n :: k in m && m[k] == n[k]
    ensures m == n
  {
  }

  lemma IndexUnique(b: Book, b': Book)
    requires Consistent(b) && Consistent(b') && b.levels == b'.levels
    ensures forall id | id in b.index :: id in b'.index && b'.index[id] == b.index[id]
  {
    forall id | id in b.index
      ensures id in b'.index && b'.index[id] == b.index[id]
    {
      var k := b.index[id];
      assert LevelOk(b'.levels[k], k, b'.index);
      var i := Position(b.levels[k], id);
      assert b'.levels[k][i].id == id;
    }
  }

  /** Capture then restore is the identity on every consistent book, so on every reachable one. */
  lemma RestoreListing(b: Book)
    requires Consistent(b)
    ensures InsertAll(Empty(b.capacity), Listing(b)) == Ok(b)
  {
    hide Listing, InsertAll, SameLevels, DistinctIds, At;
    var flat := Listing(b);
    ListingSameLevels(b);
    ListingDistinct(b, flat);
    forall i | 0 <= i < |flat|
      ensures flat[i].id in b.index
    {
      AtPosition(b, flat, i);
    }
    DistinctCount(flat, b.index.Keys);
    RestorePrefix(flat, b.capacity, |flat|);
    assert flat[..|flat|] == flat;
    SameLevelsUnique(b, InsertAll(Empty(b.capacity), flat).value, flat);
  }
}
