/** Snapshots of the engine: capture, checksum, and the fallback from a bad file to an older one. */
module Snapshots {
  import opened Types
  import opened PriceBook
  import opened Sweep
  import opened Refinement
  import opened Laws
  import opened OrderBooks
  import opened MatchingEngines

  datatype Snapshot = Snapshot(
    walRecordCount: nat, orders: seq<Order>, bestBid: Option<Price>, bestAsk: Option<Price>, checksum: U32)

  /** The checksum over every other field, an arbitrary function. */
  type SnapshotSum = (nat, Option<Price>, Option<Price>, seq<Order>) -> U32

  predicate Verifies(sum: SnapshotSum, s: Snapshot) {
    s.checksum == sum(s.walRecordCount, s.bestBid, s.bestAsk, s.orders)
  }

  /** The snapshot of a book at a log position. */
  function Captured(sum: SnapshotSum, b: Book, n: nat): (s: Snapshot)
    ensures Verifies(sum, s)
  {
    var bid := BestPrice(b, Bid);
    var ask := BestPrice(b, Ask);
    Snapshot(n, Listing(b), bid, ask, sum(n, bid, ask, Listing(b)))
  }

  /** The best price of one side of a list of orders: the highest bid or the lowest ask. */
  ghost predicate BestOf(orders: seq<Order>, side: Side, best: Option<Price>) {
    match best
    case None => forall i :: 0 <= i < |orders| ==> orders[i].side != side
    case Some(p) =>
      && (exists i :: 0 <= i < |orders| && orders[i].side == side && orders[i].price == p)
      && (forall i :: 0 <= i < |orders| && orders[i].side == side ==>
            if side.Bid? then orders[i].price <= p else orders[i].price >= p)
  }

  /** A capture holds every order of the engine, their best prices, the position, and the checksum of these. */
  method Capture(sum: SnapshotSum, engine: MatchingEngine, n: nat) returns (s: Snapshot)
    requires engine.Valid()
    ensures s == Captured(sum, engine.Model(), n)
    ensures s.walRecordCount == n && s.orders == Listing(engine.Model())
    ensures BestOf(s.orders, Bid, s.bestBid) && BestOf(s.orders, Ask, s.bestAsk)
    ensures s.checksum == sum(n, s.bestBid, s.bestAsk, s.orders)
  {
    hide OrderBook.Valid, OrderBook.Model, BestPrice, Listing;
    var orders := engine.book.AllRestingOrders();
    BestsOf(engine.book);
    var bid, ask := engine.book.bestBid, engine.book.bestAsk;
    s := Snapshot(n, orders, bid, ask, sum(n, bid, ask, orders));
    ListingBest(engine.Model(), Bid);
    ListingBest(engine.Model(), Ask);
  }

  lemma ListingBest(b: Book, side: Side)
    requires Consistent(b)
    ensures BestOf(Listing(b), side, BestPrice(b, side))
  {
    hide Consistent, BestPrice, Queue;
    QueueBestFirst(b, b.levels, Bid);
    QueueBestFirst(b, b.levels, Ask);
    BestPriceIsBest(b, side);
    var listing := Listing(b);
    var asks := |Queue(b.levels, Ask)|;
    forall i | 0 <= i < |listing|
      ensures KeyOf(listing[i]) in b.levels
    {
      assert listing[i] == if i < asks then Queue(b.levels, Ask)[i] else Queue(b.levels, Bid)[i - asks];
    }
    if BestPrice(b, side).Some? {
      var i := BestListed(b, side, BestPrice(b, side).value);
      assert listing[i].side == side && listing[i].price == BestPrice(b, side).value;
    }
  }

  lemma BestListed(b: Book, side: Side, p: Price) returns (i: nat)
    requires Consistent(b) && BestPrice(b, side) == Some(p)
    ensures i < |Listing(b)| && KeyOf(Listing(b)[i]) == Key(side, p)
  {
    QueueSplits(b.levels, side);
    LevelKeyed(b, Key(side, p));
    LevelFilled(b, Key(side, p));
    i := if side.Ask? then 0 else |Queue(b.levels, Ask)|;
    assert Queue(b.levels, side)[0] == b.levels[Key(side, p)][0];
  }

  lemma LevelFilled(b: Book, k: Key)
    requires Consistent(b) && k in b.levels
    ensures b.levels[k] != []
  {
    assert LevelOk(b.levels[k], k, b.index);
  }

  /** A file in the snapshot directory either deserializes or does not. */
  datatype SnapshotFile = Unreadable | Readable(snapshot: Snapshot)

  predicate Usable(sum: SnapshotSum, f: SnapshotFile) {
    f.Readable? && Verifies(sum, f.snapshot)
  }

  /** The last usable file of a directory listing. */
  function Latest(sum: SnapshotSum, files: seq<SnapshotFile>): (r: Option<Snapshot>)
    ensures r.None? <==> forall i :: 0 <= i < |files| ==> !Usable(sum, files[i])
    ensures r.Some? ==>
              exists i :: 0 <= i < |files| && Usable(sum, files[i]) && files[i].snapshot == r.value
                          && forall j :: i < j < |files| ==> !Usable(sum, files[j])
  {
    if files == [] then None
    else
      var last := files[|files| - 1];
      if Usable(sum, last) then Some(last.snapshot) else Latest(sum, files[..|files| - 1])
  }

  /** A file that does not load, or whose checksum is not that of its contents. */
  ghost predicate Damaged(sum: SnapshotSum, f: SnapshotFile) {
    match f
    case Unreadable => true
    case Readable(s) => s.checksum != sum(s.walRecordCount, s.bestBid, s.bestAsk, s.orders)
  }

  /** File `i` holds `s`, undamaged, and every file after it is damaged. */
  ghost predicate Loaded(sum: SnapshotSum, files: seq<SnapshotFile>, i: nat, s: Snapshot)
    requires i < |files|
  {
    && files[i] == Readable(s)
    && s.checksum == sum(s.walRecordCount, s.bestBid, s.bestAsk, s.orders)
    && forall j :: i < j < |files| ==> Damaged(sum, files[j])
  }

  lemma LatestMeans(sum: SnapshotSum, files: seq<SnapshotFile>)
    ensures Latest(sum, files).None? <==> forall i :: 0 <= i < |files| ==> Damaged(sum, files[i])
    ensures Latest(sum, files).Some? ==> exists i :: 0 <= i < |files| && Loaded(sum, files, i, Latest(sum, files).value)
  {
    hide Latest;
    if Latest(sum, files).Some? {
      var s := Latest(sum, files).value;
      var i :| 0 <= i < |files| && Usable(sum, files[i]) && files[i].snapshot == s
               && forall j :: i < j < |files| ==> !Usable(sum, files[j]);
      assert Loaded(sum, files, i, s);
    }
  }

  /** Pop files off the sorted listing until a file loads and verifies. */
  method LoadLatest(sum: SnapshotSum, files: seq<SnapshotFile>) returns (r: Option<Snapshot>)
    ensures r == Latest(sum, files)
    ensures r.None? <==> forall i :: 0 <= i < |files| ==> Damaged(sum, files[i])
    ensures r.Some? ==> exists i :: 0 <= i < |files| && Loaded(sum, files, i, r.value)
  {
    LatestMeans(sum, files);
    var left := files;
    while left != []
      invariant Latest(sum, left) == Latest(sum, files)
      decreases |left|
    {
      var file := left[|left| - 1];
      left := left[..|left| - 1];
      if file.Readable? && Verifies(sum, file.snapshot) {
        return Some(file.snapshot);
      }
    }
    r := None;
  }
}
