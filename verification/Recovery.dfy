/** Recovery: the latest usable snapshot, then the log from its position. */
module Recovery {
  import opened Types
  import opened Bytes
  import opened Protocol
  import opened PriceBook
  import opened Restore
  import opened OrderBooks
  import opened MatchingEngines
  import opened WalFormat
  import opened WalLog
  import opened Wals
  import opened Snapshots

  datatype RecoveryError = SnapshotRefused(refusal: BookError) | LogRefused(fault: WalError)

  // ---------------------------------------------------------------- as values

  datatype Replayed = Replayed(book: Book, fault: Option<ProtocolError>)

  /** Decode and apply payloads until one does not decode. */
  function ReplayPayloads(b: Book, payloads: seq<Bytes>): Replayed
    requires Consistent(b)
    decreases |payloads|
  {
    if payloads == [] then Replayed(b, None)
    else match DecodeMessage(payloads[0])
      case Err(e) => Replayed(b, Some(e))
      case Ok(c) =>
        ApplyWF(b, c);
        ReplayPayloads(Apply(b, c).book, payloads[1..])
  }

  function Drop<T>(s: seq<T>, n: nat): seq<T> {
    if n <= |s| then s[n..] else []
  }

  datatype Recovered = Recovered(book: Book, payloads: seq<Bytes>) | Refused(error: RecoveryError)

  /** Inserting orders one by one keeps the book consistent. */
  lemma {:induction false} InsertAllConsistent(b: Book, orders: seq<Order>)
    requires Consistent(b)
    ensures InsertAll(b, orders).Ok? ==> Consistent(InsertAll(b, orders).value)
    decreases |orders|
  {
    hide Consistent, Insert;
    if orders != [] && Insert(b, orders[0]).Ok? {
      InsertConsistent(b, orders[0]);
      InsertAllConsistent(Insert(b, orders[0]).value, orders[1..]);
    }
  }

  ghost function RecoverModel(crc: Checksum, sum: SnapshotSum, files: seq<SnapshotFile>, file: Bytes, capacity: U32,
                              size: nat): Recovered
  {
    var payloads := ScanFrom(crc, Mapped(file, size), 0).payloads;
    match Latest(sum, files)
    case None => FinishRecovery(Empty(capacity), payloads, 0)
    case Some(s) =>
      match InsertAll(Empty(capacity), s.orders)
      case Err(e) => Refused(SnapshotRefused(e))
      case Ok(b) =>
        InsertAllConsistent(Empty(capacity), s.orders);
        FinishRecovery(b, payloads, s.walRecordCount)
  }

  ghost function FinishRecovery(b: Book, payloads: seq<Bytes>, start: nat): Recovered
    requires Consistent(b)
  {
    var r := ReplayPayloads(b, Drop(payloads, start));
    if r.fault.Some? then Refused(LogRefused(ProtocolFault(r.fault.value))) else Recovered(r.book, payloads)
  }

  // ---------------------------------------------------------------- as code

  /**
   Replay the records after `start`. On an open log the iterator cannot report corruption or
   truncation, so the branch of recovery that truncates the log is never taken.
   */
  method ReplayLog(engine: MatchingEngine, wal: Wal, start: nat) returns (fault: Option<WalError>)
    requires engine.Valid() && wal.Valid()
    modifies engine, engine.book, engine.book.arena, engine.book.arena.storage
    ensures engine.Valid() && Consistent(old(engine.Model()))
    ensures var r := ReplayPayloads(old(engine.Model()), Drop(wal.payloads, start));
            && engine.Model() == r.book
            && fault == (if r.fault.Some? then Some(ProtocolFault(r.fault.value)) else None)
  {
    hide OrderBook.Valid, OrderBook.Model, Consistent, Apply, ScanFrom, IterStep, DecodeMessage, ReplayPayloads;
    BestsOf(engine.book);
    ghost var payloads := wal.payloads;
    ghost var whole := ReplayPayloads(engine.Model(), Drop(payloads, start));
    var it := new WalIterator(wal.crc, wal.data, wal.writePos, start);
    assert payloads[0..] == payloads;
    fault := None;
    ghost var next := 0;
    while true
      invariant engine.Valid() && Consistent(engine.Model()) && fault.None?
      invariant it.crc == wal.crc && it.data == wal.data && it.endPos == wal.writePos && it.startRecord == start
      invariant next == it.currentRecord <= |payloads| && it.readPos <= it.endPos
      invariant ScanFrom(wal.crc, wal.data, it.readPos) == Scan(wal.writePos, payloads[next..])
      invariant ReplayPayloads(engine.Model(), Drop(payloads, Max(next, start))) == whole
      decreases |payloads| - next
    {
      IterLog(wal.crc, wal.data, it.readPos, wal.writePos, next, start, payloads);
      ghost var j := Max(next, start);
      ReplayStep(engine.Model(), payloads, j);
      var item := it.Next();
      if item.None? {
        break;
      }
      match item.value {
        case Err(e) =>
          assert e.ProtocolFault?;
          fault := Some(e);
          break;
        case Ok(entry) =>
          var response := engine.Execute(entry.cmd);
          next := j + 1;
      }
    }
  }

  /** One turn of the replay loop at payload `j`. */
  lemma ReplayStep(b: Book, payloads: seq<Bytes>, j: nat)
    requires Consistent(b)
    ensures j >= |payloads| ==> ReplayPayloads(b, Drop(payloads, j)) == Replayed(b, None)
    ensures j < |payloads| && DecodeMessage(payloads[j]).Err? ==>
              ReplayPayloads(b, Drop(payloads, j)) == Replayed(b, Some(DecodeMessage(payloads[j]).error))
    ensures j < |payloads| && DecodeMessage(payloads[j]).Ok? ==>
              var c := DecodeMessage(payloads[j]).value;
              && Consistent(Apply(b, c).book)
              && ReplayPayloads(b, Drop(payloads, j)) ==
                 ReplayPayloads(Apply(b, c).book, Drop(payloads, j + 1))
  {
    hide Consistent, Apply, DecodeMessage;
    if j < |payloads| {
      assert Drop(payloads, j)[1..] == Drop(payloads, j + 1);
      if DecodeMessage(payloads[j]).Ok? {
        ApplyWF(b, DecodeMessage(payloads[j]).value);
      }
    }
  }

  /** Rebuild the engine from the snapshot directory and the log, and open the log for appending. */
  method Recover(crc: Checksum, sum: SnapshotSum, files: seq<SnapshotFile>, file: Bytes, capacity: U32, size: nat)
    returns (engine: MatchingEngine?, wal: Wal?, error: Option<RecoveryError>)
    ensures match RecoverModel(crc, sum, files, file, capacity, size)
            case Refused(e) => error == Some(e)
            case Recovered(b, payloads) =>
              && error == None && engine != null && wal != null
              && fresh(engine) && fresh(engine.book) && fresh(engine.book.arena) && fresh(engine.book.arena.storage)
              && fresh(wal) && fresh(wal.encodeBuf)
              && engine.Valid() && engine.Model() == b
              && wal.Valid() && wal.crc == crc && wal.payloads == payloads
              && wal.data == Opened(crc, file, size) && wal.slack == 0
  {
    hide OrderBook.Valid, OrderBook.Model, Consistent, ScanFrom, ReplayPayloads, Latest, InsertAll, LogInv, Usable;
    var snapshot := LoadLatest(sum, files);
    engine, wal, error := null, null, None;
    var start := 0;
    match snapshot {
      case None => engine := new MatchingEngine(capacity);
      case Some(s) =>
        var refusal: Option<BookError>;
        engine, refusal := RestoreFromOrders(s.orders, capacity);
        if refusal.Some? {
          return null, null, Some(SnapshotRefused(refusal.value));
        }
        start := s.walRecordCount;
    }
    wal := new Wal.Open(crc, file, size);
    var fault := ReplayLog(engine, wal, start);
    if fault.Some? {
      error := Some(LogRefused(fault.value));
    }
  }
}
