/** What the gateway publishes: one datagram per fill of an accepted add, numbered in sequence. */
module Reports {
  import opened Types
  import opened Bytes
  import opened Protocol
  import opened PriceBook
  import opened FlatBook
  import opened Refinement
  import opened Conservation
  import opened OrderBooks
  import opened MatchingEngines
  import Bits

  function SeqAfter(seqNum: U32, n: nat): U32 {
    (seqNum + n) % TWO32
  }

  /** The datagrams of a list of fills: numbered from the next sequence number, wrapping. */
  function Datagrams(fills: seq<Fill>, seqNum: U32, timestamp: Timestamp): (r: seq<Bytes>)
    ensures |r| == |fills|
  {
    seq(|fills|, i requires 0 <= i < |fills| => ReportBytes(ReportOf(fills[i], SeqAfter(seqNum, i + 1), timestamp)))
  }

  /** The fills a command reports: none when the add was refused, even if it traded first. */
  function Reported(c: Command, r: Response): seq<Fill> {
    if c.NewOrder? && r.Added? && r.add.Ok? then r.add.value.fills else []
  }

  function StampOf(c: Command): Timestamp {
    if c.NewOrder? then c.order.timestamp else 0
  }

  /**
   An add reports exactly its fills, unless it traded and was then refused as a duplicate: those
   fills are never reported.
   */
  lemma ReportedExactly(b: Book, o: Order)
    requires WF(b)
    ensures Reported(NewOrder(o), Apply(b, NewOrder(o)).response) == Add(b, o).fills <==>
            !(Collides(b, o) && CrossingMaker(b, o).Some?)
    ensures Reported(NewOrder(o), Apply(b, NewOrder(o)).response) == [] || !Collides(b, o)
  {
    hide Consistent, CrossingMaker, Collides, Insert, Match;
    DuplicateExactly(b, o);
    RefusedExactly(b, o);
    if MustRefuse(b, o) {
      RefusedAddUnchanged(b, o);
    } else {
      AddReports(b, o);
    }
  }

  lemma AddReports(b: Book, o: Order)
    requires Consistent(b) && Add(b, o).result.Ok?
    ensures Add(b, o).result.value.fills == Add(b, o).fills
  {
    hide Match, Insert;
  }

  /** The runs of `DuplicateAfterFills`: the fill happens and is not reported. */
  lemma UnreportedFill(resting: Order, maker: Order, taker: Order, capacity: nat)
    requires resting.side.Bid? && maker.side.Ask? && taker.side.Bid? && resting.quantity > 0
    requires taker.id == resting.id != maker.id && maker.traderId != taker.traderId
    requires resting.price < maker.price <= taker.price && taker.quantity > maker.quantity > 0
    requires capacity >= 2
    ensures WF(Empty(capacity))
    ensures var b := Replay(Empty(capacity), [NewOrder(resting), NewOrder(maker)]);
            && Add(b, taker).fills == [Fill(taker.id, maker.id, maker.price, maker.quantity, true)]
            && Reported(NewOrder(taker), Apply(b, NewOrder(taker)).response) == []
  {
    hide WF, Consistent, Refines, FlatReplay, FlatApply, Add, Replay;
    var cmds := [NewOrder(resting), NewOrder(maker)];
    EmptyAgrees(capacity);
    RunAgreesFrom(Empty(capacity), [], cmds);
    DuplicateAfterFills(resting, maker, taker, capacity);
    ApplyAgrees(Replay(Empty(capacity), cmds), [resting, maker], NewOrder(taker));
  }

  class Reporter {
    var seqNum: U32
    var sent: seq<Bytes>

    constructor ()
      ensures seqNum == 0 && sent == []
    {
      seqNum, sent := 0, [];
    }

    /** Hand one report per fill to the socket. */
    method Report(fills: seq<Fill>, timestamp: Timestamp)
      modifies this
      ensures sent == old(sent) + Datagrams(fills, old(seqNum), timestamp)
      ensures seqNum == SeqAfter(old(seqNum), |fills|)
    {
      hide ReportBytes, SeqAfter, Datagrams;
      ghost var before := sent;
      ghost var first := seqNum;
      ghost var all := Datagrams(fills, first, timestamp);
      SeqStart(first);
      var buf := new U8[EXECUTION_REPORT_SIZE](_ => 0);
      for i := 0 to |fills|
        invariant seqNum == SeqAfter(first, i)
        invariant sent == before + all[..i]
        invariant buf.Length == EXECUTION_REPORT_SIZE && fresh(buf)
      {
        SeqStep(first, i);
        DatagramAt(fills, first, timestamp, i);
        var next := (seqNum + 1) % TWO32;
        var encoded := EncodeExecutionReport(buf, next, fills[i], timestamp);
        WholeBuffer(buf[..], ReportOf(fills[i], next, timestamp));
        sent, seqNum := sent + [buf[..]], next;
        assert all[..i + 1] == all[..i] + [all[i]];
      }
      assert all[..|fills|] == all;
    }
  }

  // ---------------------------------------------------------------- whole runs

  /** Everything published while `cmds` are matched against `b`. */
  function Broadcast(b: Book, cmds: seq<Command>, seqNum: U32): seq<Bytes>
    requires Consistent(b)
  {
    if cmds == [] then []
    else
      var (front, c) := (cmds[..|cmds| - 1], cmds[|cmds| - 1]);
      var before := Broadcast(b, front, seqNum);
      before + Datagrams(Reported(c, Apply(Replay(b, front), c).response), SeqAfter(seqNum, |before|), StampOf(c))
  }

  /** Since it had published `sent0` up to number `seq0`, the reporter published exactly the reports of `cmds`. */
  ghost predicate Told(b: Book, cmds: seq<Command>, sent0: seq<Bytes>, seq0: U32, sent: seq<Bytes>, seqNum: U32)
    requires Consistent(b)
  {
    sent == sent0 + Broadcast(b, cmds, seq0) && seqNum == SeqAfter(seq0, |Broadcast(b, cmds, seq0)|)
  }

  lemma ToldNothing(b: Book, sent: seq<Bytes>, seqNum: U32)
    requires Consistent(b)
    ensures Told(b, [], sent, seqNum, sent, seqNum)
  {
    SeqStart(seqNum);
  }

  lemma ToldStep(b: Book, cmds: seq<Command>, c: Command, sent0: seq<Bytes>, seq0: U32, sent: seq<Bytes>, seqNum: U32,
                 sent': seq<Bytes>, seqNum': U32)
    requires Consistent(b) && Told(b, cmds, sent0, seq0, sent, seqNum)
    requires var fills := Reported(c, Apply(Replay(b, cmds), c).response);
             && sent' == sent + Datagrams(fills, seqNum, StampOf(c))
             && seqNum' == SeqAfter(seqNum, |fills|)
    ensures Told(b, cmds + [c], sent0, seq0, sent', seqNum')
  {
    hide Consistent, Apply, Datagrams, SeqAfter, Replay, Reported, Broadcast;
    BroadcastStep(b, cmds, c, seq0);
    SeqSum(seq0, |Broadcast(b, cmds, seq0)|, |Reported(c, Apply(Replay(b, cmds), c).response)|);
  }

  lemma BroadcastStep(b: Book, cmds: seq<Command>, c: Command, seqNum: U32)
    requires Consistent(b)
    ensures var before := Broadcast(b, cmds, seqNum);
            Broadcast(b, cmds + [c], seqNum) ==
            before + Datagrams(Reported(c, Apply(Replay(b, cmds), c).response), SeqAfter(seqNum, |before|), StampOf(c))
  {
    hide Consistent, Apply, Datagrams, SeqAfter, Replay, Reported;
    assert (cmds + [c])[..|cmds|] == cmds && (cmds + [c])[|cmds|] == c;
  }

  lemma SeqSum(first: U32, n: nat, m: nat)
    ensures SeqAfter(SeqAfter(first, n), m) == SeqAfter(first, n + m)
  {
    var q := (first + n) / TWO32;
    var x := (first + n) % TWO32 + m;
    Bits.DivUnique(first + n + m, TWO32, q + x / TWO32, x % TWO32);
  }

  /** Serve without a log: match and report. */
  method RunUnlogged(engine: MatchingEngine, out: Reporter, cmds: seq<Command>)
    requires engine.Valid()
    modifies engine, engine.book, engine.book.arena, engine.book.arena.storage, out
    ensures engine.Valid() && Consistent(old(engine.Model()))
    ensures engine.Model() == Replay(old(engine.Model()), cmds)
    ensures Told(old(engine.Model()), cmds, old(out.sent), old(out.seqNum), out.sent, out.seqNum)
  {
    hide Apply, Consistent, OrderBook.Valid, OrderBook.Model, Told, Reported, Replay, Datagrams, SeqAfter;
    BestsOf(engine.book);
    ghost var b := engine.Model();
    ToldNothing(b, out.sent, out.seqNum);
    RunNothing(b);
    assert cmds[..0] == [];
    for i := 0 to |cmds|
      invariant engine.Valid() && engine.Model() == Replay(b, cmds[..i])
      invariant Told(b, cmds[..i], old(out.sent), old(out.seqNum), out.sent, out.seqNum)
    {
      ghost var sent, seqNum := out.sent, out.seqNum;
      var response := engine.Execute(cmds[i]);
      out.Report(Reported(cmds[i], response), StampOf(cmds[i]));
      RunNext(b, cmds, i);
      ToldStep(b, cmds[..i], cmds[i], old(out.sent), old(out.seqNum), sent, seqNum, out.sent, out.seqNum);
      assert cmds[..i + 1] == cmds[..i] + [cmds[i]];
    }
    assert cmds[..|cmds|] == cmds;
  }

  lemma RunNothing(b: Book)
    requires Consistent(b)
    ensures Replay(b, []) == b
  {
  }

  // ---------------------------------------------------------------- single datagrams

  lemma WholeBuffer(buf: Bytes, r: ExecutionReport)
    requires |buf| == EXECUTION_REPORT_SIZE
    ensures ReportBytes(r) + buf[EXECUTION_REPORT_SIZE..] == ReportBytes(r)
  {
    hide ReportBytes;
    assert buf[EXECUTION_REPORT_SIZE..] == [];
  }

  lemma SeqStart(first: U32)
    ensures SeqAfter(first, 0) == first
  {
  }

  lemma DatagramAt(fills: seq<Fill>, first: U32, timestamp: Timestamp, i: nat)
    requires i < |fills|
    ensures Datagrams(fills, first, timestamp)[i] == ReportBytes(ReportOf(fills[i], SeqAfter(first, i + 1), timestamp))
  {
  }

  lemma SeqStep(first: U32, i: nat)
    ensures (SeqAfter(first, i) + 1) % TWO32 == SeqAfter(first, i + 1)
  {
  }

  /** Subscribers can read back every datagram. */
  lemma DatagramsDecode(fills: seq<Fill>, seqNum: U32, timestamp: Timestamp, i: nat)
    requires i < |fills|
    ensures DecodeExecutionReport(Datagrams(fills, seqNum, timestamp)[i]).Ok?
    ensures var r := DecodeExecutionReport(Datagrams(fills, seqNum, timestamp)[i]).value;
            && r.takerOrderId == fills[i].takerOrderId && r.makerOrderId == fills[i].makerOrderId
            && r.price == fills[i].price && r.quantity == fills[i].quantity
            && r.timestamp == timestamp && r.seqNum == (seqNum as int + i + 1) % 0x1_0000_0000
    ensures ReportMessage(Datagrams(fills, seqNum, timestamp)[i], SeqAfter(seqNum, i + 1), fills[i], timestamp)
  {
    hide ReportBytes, DecodeExecutionReport, ReportMessage;
    var r := ReportOf(fills[i], SeqAfter(seqNum, i + 1), timestamp);
    ReportRoundTrip(r, []);
    ReportFormat(fills[i], SeqAfter(seqNum, i + 1), timestamp);
    assert ReportBytes(r) + [] == ReportBytes(r);
  }

  /** What one command adds to the broadcast: a report of each fill of an accepted add, with the time of its order. */
  lemma BroadcastAdds(b: Book, cmds: seq<Command>, c: Command, seqNum: U32)
    requires Consistent(b)
    ensures var (before, a) := (Broadcast(b, cmds, seqNum), Apply(Replay(b, cmds), c));
            Broadcast(b, cmds + [c], seqNum) ==
            if c.NewOrder? && a.response.Added? && a.response.add.Ok?
            then before + Datagrams(a.response.add.value.fills, SeqAfter(seqNum, |before|), c.order.timestamp)
            else before
  {
    hide Consistent, Apply, SeqAfter, Replay, Broadcast;
    BroadcastStep(b, cmds, c, seqNum);
  }
}
