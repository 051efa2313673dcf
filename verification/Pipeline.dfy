/** The client thread, the ring and the matching thread put together, from a stream of bytes to a book. */
module Pipeline {
  import opened Types
  import opened Bytes
  import opened Framing
  import opened PriceBook
  import opened Timestamps
  import opened WalLog
  import opened Snapshots
  import opened MatchingEngines
  import opened Reports
  import opened Gateway
  import R = Ring
  import RS = RingSafety

  /** The commands of a client's stream as they enter the ring. */
  function Arrived(stream: Bytes, clock: nat -> Timestamp): (r: seq<Command>)
    ensures |r| == |Frame(stream).commands|
  {
    var cmds := Frame(stream).commands;
    seq(|cmds|, i requires 0 <= i < |cmds| => Stamp(cmds[i], clock(i)))
  }

  /**
   One client served to the end. The client thread pushes what it frames; in some run of the ring
   it then sets the shutdown flag, and the matching thread exits, having popped and drained what
   it did. If every append succeeds, the book is the replay of the recovered log followed by
   exactly the complete messages of the stream, in order.
   */
  method ServeClient(cfg: CM.Config, files: seq<SnapshotFile>, size: nat, opens: bool, interval: nat, stream: Bytes,
                     clock: nat -> Timestamp, popped: seq<Command>, drained: seq<Command>, io: nat -> Io,
                     wal: Bytes, snapshots: map<nat, Snapshot>, ghost s: CM.State,
                     ghost run: seq<R.State<Command>>, ghost cap: nat, ghost i: nat, ghost j: nat)
    returns (pushed: seq<Command>, engine: MatchingEngine, out: Reporter, worker: Worker?, logged: seq<bool>,
             ghost start: Book)
    requires CM.Inv(cfg, s) && s.phase.Down? && s.disk == CM.Disk(wal, snapshots)
    requires CM.Lists(cfg.sum, files, snapshots)
    requires RS.IsRun(run, cap) && i < |run| && j < |run|
    requires run[i].producer.pc.PClosed? && run[i].pushed == Arrived(stream, clock)
    requires run[j].consumer.pc.CExited? && run[j].popped == popped + drained
    ensures pushed == Arrived(stream, clock) && engine.Valid() && WF(start) && engine.Model() == Replay(start, pushed)
    ensures Told(start, pushed, [], 0, out.sent, out.seqNum)
    ensures worker == null <==> !opens || s.phase.tail != []
    ensures worker == null ==> start == Empty(cfg.capacity)
    ensures worker != null ==>
              && SameBook(start, CM.Reference(cfg, s.log))
              && worker.Valid() && worker.engine == engine
              && |logged| == |pushed| && (AlwaysGrows(io) ==> AllLogged(logged))
              && worker.log == s.log + Logged(pushed, logged)
              && worker.wal.payloads == PayloadsOf(worker.log)
              && (AllLogged(logged) ==> SameBook(engine.Model(), CM.Reference(cfg, s.log + pushed)))
  {
    hide CM.Inv, CM.Lists, CM.Reference, SameBook, WF, Frame, Replay, Logged, AllLogged, PayloadsOf, RS.IsRun, AllEncodable, Told,
         OrderBooks.OrderBook.Valid, OrderBooks.OrderBook.Model, Wals.Wal.Valid;
    var end;
    pushed, end := HandleClient(stream, clock);
    assert pushed == Arrived(stream, clock);
    RS.ShutdownDrains(run, cap, i, j);
    SplitEncodable(popped, drained);
    engine, out, worker, logged, start := Serve(cfg, files, size, opens, interval, popped, drained, io, wal, snapshots, s);
    assert s.log + popped + drained == s.log + pushed;
  }

  lemma SplitEncodable(cs: seq<Command>, ds: seq<Command>)
    requires AllEncodable(cs + ds)
    ensures AllEncodable(cs) && AllEncodable(ds)
  {
    forall i | 0 <= i < |cs|
      ensures (cs + ds)[i] == cs[i]
    {
    }
    forall i | 0 <= i < |ds|
      ensures (cs + ds)[|cs| + i] == ds[i]
    {
    }
  }
}
