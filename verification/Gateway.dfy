/** The matching thread: log, match, report, snapshot, in the order of the gateway. */
module Gateway {
  import opened Types
  import opened Bytes
  import opened Protocol
  import opened Framing
  import opened PriceBook
  import opened OrderBooks
  import opened MatchingEngines
  import opened Timestamps
  import opened WalFormat
  import opened WalLog
  import opened Wals
  import opened Snapshots
  import opened Recovery
  import opened Reports
  import CM = CrashMachine

  class Worker {
    const cfg: CM.Config
    const engine: MatchingEngine
    const wal: Wal
    const interval: nat
    var snapshots: map<nat, Snapshot>
    var sinceSnapshot: nat
    const out: Reporter
    ghost var log: seq<Command>
    ghost var submitted: seq<Command>

    ghost predicate Valid()
      reads this, engine, engine.book, engine.book.arena, engine.book.arena.storage, wal
    {
      engine.Valid() && wal.Valid() && wal.crc == cfg.crc
    }

    /** This thread and its files as a state of the crash machine. */
    ghost function Machine(): CM.State
      reads this, engine, engine.book, engine.book.arena, engine.book.arena.storage, wal
    {
      CM.State(CM.Disk(wal.File(), snapshots), CM.Running(engine.Model(), wal.writePos, wal.recordCount),
               log, submitted)
    }

    constructor (cfg: CM.Config, engine: MatchingEngine, wal: Wal, interval: nat, snapshots: map<nat, Snapshot>,
                 ghost log: seq<Command>, ghost submitted: seq<Command>)
      requires engine.Valid() && wal.Valid() && wal.crc == cfg.crc
      ensures Valid() && this.cfg == cfg && this.engine == engine && this.wal == wal && this.interval == interval
      ensures this.snapshots == snapshots && this.log == log && this.submitted == submitted
      ensures sinceSnapshot == 0 && fresh(out) && out.seqNum == 0 && out.sent == []
    {
      hide OrderBook.Valid, OrderBook.Model, Wal.Valid;
      this.cfg, this.engine, this.wal, this.interval := cfg, engine, wal, interval;
      this.snapshots, this.log, this.submitted := snapshots, log, submitted;
      sinceSnapshot := 0;
      out := new Reporter();
    }

    /**
     Append to the log, then match, then report: one step of the crash machine. An append that
     fails is ignored, as is the fate of a datagram once it was handed to the socket.
     */
    method ProcessCommand(cmd: Command, grow: GrowIo) returns (logged: bool)
      requires Valid() && Encodable(cmd)
      modifies this`log, this`submitted, out, engine, engine.book, engine.book.arena, engine.book.arena.storage, wal,
               wal.encodeBuf
      ensures Valid() && Consistent(old(engine.Model()))
      ensures grow.Grows? ==> logged
      ensures Processes(cfg, old(Machine()), Machine(), cmd, logged)
      ensures var fills := Reported(cmd, Apply(old(engine.Model()), cmd).response);
              && out.sent == old(out.sent) + Datagrams(fills, old(out.seqNum), StampOf(cmd))
              && out.seqNum == SeqAfter(old(out.seqNum), |fills|)
    {
      hide OrderBook.Valid, OrderBook.Model, Wal.Valid, Wal.File, Consistent, Apply, Appended, RecordSize, Datagrams, Wrote,
           Resized, CommandBytes, RecordBytes;
      var n := wal.Append(cmd, grow);
      logged := n.Some?;
      if logged {
        log, submitted := log + [cmd], submitted + [cmd];
      }
      var response := engine.Execute(cmd);
      out.Report(Reported(cmd, response), StampOf(cmd));
    }

    /**
     One popped command: process it, and snapshot when the interval is reached. The interval
     starts anew even when the snapshot could not be saved.
     */
    method HandlePopped(cmd: Command, io: Io) returns (logged: bool)
      requires Valid() && Encodable(cmd)
      modifies this, out, engine, engine.book, engine.book.arena, engine.book.arena.storage, wal, wal.encodeBuf
      ensures Valid() && Consistent(old(engine.Model()))
      ensures io.grow.Grows? ==> logged
      ensures Handles(cfg, old(Machine()), Machine(), cmd, logged, old(sinceSnapshot) + 1 >= interval && io.saved)
      ensures var fills := Reported(cmd, Apply(old(engine.Model()), cmd).response);
              && out.sent == old(out.sent) + Datagrams(fills, old(out.seqNum), StampOf(cmd))
              && out.seqNum == SeqAfter(old(out.seqNum), |fills|)
      ensures sinceSnapshot == if old(sinceSnapshot) + 1 >= interval then 0 else old(sinceSnapshot) + 1
    {
      hide OrderBook.Valid, OrderBook.Model, Wal.Valid, Wal.File, Captured, Processes, Apply, Datagrams, Encodable, Consistent,
           Reported;
      logged := ProcessCommand(cmd, io.grow);
      ghost var mid := Machine();
      sinceSnapshot := sinceSnapshot + 1;
      if sinceSnapshot >= interval {
        var snap := Capture(cfg.sum, engine, wal.recordCount);
        if io.saved {
          snapshots := snapshots[wal.recordCount := snap];
        }
        sinceSnapshot := 0;
        assert io.saved ==> CM.TakeSnapshot(cfg, mid, Machine());
      }
    }

    /**
     The matching loop: the commands popped before the shutdown flag is seen, with snapshots, then
     the drain, without. Whatever fails, the engine is the replay of all those commands, all their
     reports go out and the log holds those whose append succeeded; if all did, the state stays good.
     */
    method MatchingLoop(popped: seq<Command>, drained: seq<Command>, io: nat -> Io) returns (logged: seq<bool>)
      requires Valid() && AllEncodable(popped) && AllEncodable(drained) && CM.Inv(cfg, Machine())
      modifies this, out, engine, engine.book, engine.book.arena, engine.book.arena.storage, wal, wal.encodeBuf
      ensures Valid() && Consistent(old(engine.Model()))
      ensures engine.Model() == Replay(old(engine.Model()), popped + drained)
      ensures Told(old(engine.Model()), popped + drained, old(out.sent), old(out.seqNum), out.sent, out.seqNum)
      ensures |logged| == |popped + drained| && (AlwaysGrows(io) ==> AllLogged(logged))
      ensures log == old(log) + Logged(popped + drained, logged)
      ensures submitted == old(submitted) + Logged(popped + drained, logged)
      ensures wal.payloads == PayloadsOf(log)
      ensures AllLogged(logged) ==> CM.Inv(cfg, Machine()) && SameBook(engine.Model(), CM.Reference(cfg, log))
      ensures var c := CadenceOf(old(sinceSnapshot), interval, old(wal.recordCount), io, logged[..|popped|]);
              sinceSnapshot == c.since && snapshots.Keys == old(snapshots.Keys) + c.saved
    {
      hide CadenceOf, Count, OnCadence, KeepsSnapshots, OrderBook.Valid, OrderBook.Model, Wal.Valid, Wal.File, CM.Inv, Processes, Handles, CM.Reference, SameBook, Apply,
           Consistent, Reported, Datagrams, SeqAfter, StampOf, Encodable, PayloadsOf, Replay, Logged, AllLogged, Done, LogInv, Told;
      BestsOf(engine.book);
      ghost var b := engine.Model();
      ghost var s0 := Machine();
      ghost var all := popped + drained;
      NothingDone(cfg, s0);
      ToldNothing(b, out.sent, out.seqNum);
      RunNothing(b);
      NoneLogged();
      CadenceStart(cfg, s0, old(sinceSnapshot), interval, io);
      assert all[..0] == [];
      logged := [];
      for i := 0 to |popped|
        invariant Valid() && |logged| == i && engine.Model() == Replay(b, all[..i])
        invariant Done(cfg, s0, Machine(), all[..i], logged)
        invariant Told(b, all[..i], old(out.sent), old(out.seqNum), out.sent, out.seqNum)
        invariant AlwaysGrows(io) ==> AllLogged(logged)
        invariant OnCadence(s0, Machine(), old(sinceSnapshot), sinceSnapshot, interval, io, logged)
      {
        ghost var s, sent, seqNum, since := Machine(), out.sent, out.seqNum, sinceSnapshot;
        ghost var due := sinceSnapshot + 1 >= interval && io(i).saved;
        var ok := HandlePopped(popped[i], io(i));
        assert all[..i + 1] == all[..i] + [popped[i]];
        HandledDone(cfg, s0, s, Machine(), all[..i], logged, popped[i], ok, due);
        ToldStep(b, all[..i], popped[i], old(out.sent), old(out.seqNum), sent, seqNum, out.sent, out.seqNum);
        HandledCadence(cfg, s0, s, Machine(), old(sinceSnapshot), since, interval, io, logged, popped[i], ok);
        logged := LogFlag(logged, ok);
        DoneMeans(cfg, s0, Machine(), all[..i + 1], logged);
      }
      var n := |popped|;
      ghost var atDrain := logged;
      DrainStarts(s0, Machine(), old(sinceSnapshot), sinceSnapshot, interval, io, logged);
      for i := 0 to |drained|
        invariant Valid() && |logged| == n + i && engine.Model() == Replay(b, all[..n + i])
        invariant Done(cfg, s0, Machine(), all[..n + i], logged)
        invariant Told(b, all[..n + i], old(out.sent), old(out.seqNum), out.sent, out.seqNum)
        invariant AlwaysGrows(io) ==> AllLogged(logged)
        invariant logged[..n] == atDrain
        invariant KeepsSnapshots(s0, Machine(), old(sinceSnapshot), sinceSnapshot, interval, io, atDrain)
      {
        ghost var s, sent, seqNum := Machine(), out.sent, out.seqNum;
        var ok := ProcessCommand(drained[i], io(n + i).grow);
        assert all[..n + i + 1] == all[..n + i] + [drained[i]];
        ProcessedDone(cfg, s0, s, Machine(), all[..n + i], logged, drained[i], ok);
        DrainKeeps(cfg, s0, s, Machine(), old(sinceSnapshot), sinceSnapshot, interval, io, atDrain, drained[i], ok);
        ToldStep(b, all[..n + i], drained[i], old(out.sent), old(out.seqNum), sent, seqNum, out.sent, out.seqNum);
        logged := LogFlag(logged, ok);
        DoneMeans(cfg, s0, Machine(), all[..n + i + 1], logged);
      }
      assert all[..n + |drained|] == all;
      DoneMeans(cfg, s0, Machine(), all, logged);
      CadenceMeans(s0, Machine(), old(sinceSnapshot), sinceSnapshot, interval, io, atDrain);
      LogIsHistory(wal, log);
    }
  }

  // ---------------------------------------------------------------- the loop as steps of the crash machine

  /** What the file system does for one command: growing the log, if it must grow, and saving a snapshot, if one is due. */
  datatype Io = Io(grow: GrowIo, saved: bool)

  ghost predicate AlwaysGrows(io: nat -> Io) {
    forall i: nat :: io(i).grow.Grows?
  }

  ghost predicate Processes(cfg: CM.Config, s: CM.State, s': CM.State, c: Command, logged: bool) {
    if logged then CM.Process(cfg, s, s', c) else CM.Unlogged(s, s', c)
  }

  ghost predicate Handles(cfg: CM.Config, s: CM.State, s': CM.State, c: Command, logged: bool, snapshot: bool) {
    exists mid ::
      && Processes(cfg, s, mid, c, logged)
      && if snapshot then CM.TakeSnapshot(cfg, mid, s') else s' == mid
  }

  // ---------------------------------------------------------------- snapshot cadence

  function Count(flags: seq<bool>): nat {
    if flags == [] then 0 else Count(flags[..|flags| - 1]) + if flags[|flags| - 1] then 1 else 0
  }

  /** Commands since the last snapshot was due, and the log positions of those saved. */
  datatype Cadence = Cadence(since: nat, saved: set<nat>)

  /** A snapshot is due after every `interval` commands, at the log position reached then. */
  function CadenceOf(since: nat, interval: nat, base: nat, io: nat -> Io, logged: seq<bool>): Cadence
    decreases |logged|
  {
    if logged == [] then Cadence(since, {})
    else
      var n := |logged| - 1;
      var c := CadenceOf(since, interval, base, io, logged[..n]);
      if c.since + 1 < interval then Cadence(c.since + 1, c.saved)
      else Cadence(0, if io(n).saved then c.saved + {base + Count(logged)} else c.saved)
  }

  ghost predicate KeepsSnapshots(s0: CM.State, s: CM.State, since0: nat, since: nat, interval: nat, io: nat -> Io,
                                 logged: seq<bool>)
  {
    && s0.phase.Running? && s.phase.Running?
    && var c := CadenceOf(since0, interval, s0.phase.recordCount, io, logged);
       since == c.since && s.disk.snapshots.Keys == s0.disk.snapshots.Keys + c.saved
  }

  ghost predicate OnCadence(s0: CM.State, s: CM.State, since0: nat, since: nat, interval: nat, io: nat -> Io,
                            logged: seq<bool>)
  {
    && KeepsSnapshots(s0, s, since0, since, interval, io, logged)
    && s.phase.recordCount == s0.phase.recordCount + Count(logged)
  }

  lemma CadenceStart(cfg: CM.Config, s: CM.State, since: nat, interval: nat, io: nat -> Io)
    requires s.phase.Running?
    ensures OnCadence(s, s, since, since, interval, io, [])
  {
    NothingAdded(s.disk.snapshots.Keys);
  }

  lemma DrainStarts(s0: CM.State, s: CM.State, since0: nat, since: nat, interval: nat, io: nat -> Io, logged: seq<bool>)
    requires OnCadence(s0, s, since0, since, interval, io, logged)
    ensures KeepsSnapshots(s0, s, since0, since, interval, io, logged)
  {
    hide KeepsSnapshots;
  }

  lemma DrainKeeps(cfg: CM.Config, s0: CM.State, s: CM.State, s': CM.State, since0: nat, since: nat, interval: nat,
                   io: nat -> Io, logged: seq<bool>, c: Command, ok: bool)
    requires KeepsSnapshots(s0, s, since0, since, interval, io, logged) && Processes(cfg, s, s', c, ok)
    ensures KeepsSnapshots(s0, s', since0, since, interval, io, logged)
  {
    hide Processes, CadenceOf;
    ProcessedKeeps(cfg, s, s', c, ok);
  }

  lemma CadenceMeans(s0: CM.State, s: CM.State, since0: nat, since: nat, interval: nat, io: nat -> Io, logged: seq<bool>)
    requires KeepsSnapshots(s0, s, since0, since, interval, io, logged)
    ensures s0.phase.Running?
    ensures var c := CadenceOf(since0, interval, s0.phase.recordCount, io, logged);
            since == c.since && s.disk.snapshots.Keys == s0.disk.snapshots.Keys + c.saved
  {
    hide CadenceOf;
  }

  lemma NothingAdded<T>(s: set<T>)
    ensures s + {} == s
  {
  }

  lemma KeyAdded<K, V>(m: map<K, V>, s: set<K>, t: set<K>, k: K, v: V)
    requires m.Keys == s + t
    ensures m[k := v].Keys == s + (t + {k})
  {
  }

  lemma HandledCadence(cfg: CM.Config, s0: CM.State, s: CM.State, s': CM.State, since0: nat, since: nat, interval: nat,
                       io: nat -> Io, logged: seq<bool>, c: Command, ok: bool)
    requires OnCadence(s0, s, since0, since, interval, io, logged)
    requires Handles(cfg, s, s', c, ok, since + 1 >= interval && io(|logged|).saved)
    ensures OnCadence(s0, s', since0, if since + 1 >= interval then 0 else since + 1, interval, io, logged + [ok])
  {
    hide CM.Process, CM.Unlogged, Captured;
    var snapshot := since + 1 >= interval && io(|logged|).saved;
    var mid :| Processes(cfg, s, mid, c, ok) && if snapshot then CM.TakeSnapshot(cfg, mid, s') else s' == mid;
    ProcessedKeeps(cfg, s, mid, c, ok);
    assert (logged + [ok])[..|logged|] == logged;
    if snapshot {
      var n := mid.phase.recordCount;
      var saved := CadenceOf(since0, interval, s0.phase.recordCount, io, logged).saved;
      KeyAdded(mid.disk.snapshots, s0.disk.snapshots.Keys, saved, n, s'.disk.snapshots[n]);
    }
  }

  /** Processing alone saves no snapshot and counts the record it logs. */
  lemma ProcessedKeeps(cfg: CM.Config, s: CM.State, s': CM.State, c: Command, ok: bool)
    requires Processes(cfg, s, s', c, ok)
    ensures s.phase.Running? && s'.phase.Running? && s'.disk.snapshots == s.disk.snapshots
    ensures s'.phase.recordCount == s.phase.recordCount + if ok then 1 else 0
  {
    hide Wrote, Resized, Apply, Consistent, CommandBytes, RecordBytes, RecordSize, Encodable;
  }

  // ---------------------------------------------------------------- what was logged

  /** The commands whose append succeeded. */
  function Logged(cmds: seq<Command>, logged: seq<bool>): seq<Command>
    requires |logged| == |cmds|
  {
    if cmds == [] then []
    else
      var n := |cmds| - 1;
      Logged(cmds[..n], logged[..n]) + if logged[n] then [cmds[n]] else []
  }

  ghost predicate AllLogged(logged: seq<bool>) {
    forall i :: 0 <= i < |logged| ==> logged[i]
  }

  function LogFlag(logged: seq<bool>, ok: bool): (r: seq<bool>)
    ensures r == logged + [ok] && (AllLogged(r) <==> AllLogged(logged) && ok)
  {
    assert (logged + [ok])[|logged|] == ok;
    assert forall i :: 0 <= i < |logged| ==> (logged + [ok])[i] == logged[i];
    logged + [ok]
  }

  lemma NoneLogged()
    ensures AllLogged([])
  {
  }

  /** If nothing failed, everything was logged. */
  lemma {:induction false} LoggedAll(cmds: seq<Command>, logged: seq<bool>)
    requires |logged| == |cmds| && AllLogged(logged)
    ensures Logged(cmds, logged) == cmds
    decreases |cmds|
  {
    if cmds != [] {
      LoggedAll(cmds[..|cmds| - 1], logged[..|cmds| - 1]);
    }
  }

  lemma LoggedStep(cmds: seq<Command>, logged: seq<bool>, c: Command, ok: bool)
    requires |logged| == |cmds|
    ensures Logged(cmds + [c], logged + [ok]) == Logged(cmds, logged) + if ok then [c] else []
  {
    assert (cmds + [c])[..|cmds|] == cmds && (logged + [ok])[..|cmds|] == logged;
  }

  /** `s` is `s0` after processing `cmds`. */
  ghost predicate Done(cfg: CM.Config, s0: CM.State, s: CM.State, cmds: seq<Command>, logged: seq<bool>)
    requires |logged| == |cmds|
  {
    && s0.phase.Running? && s.phase.Running? && Consistent(s0.phase.book)
    && s.phase.book == Replay(s0.phase.book, cmds)
    && s.log == s0.log + Logged(cmds, logged)
    && s.submitted == s0.submitted + Logged(cmds, logged)
    && LogInv(cfg.crc, s.disk.wal, s.phase.writePos, PayloadsOf(s.log))
    && (AllLogged(logged) ==> CM.Inv(cfg, s))
  }

  lemma NothingDone(cfg: CM.Config, s: CM.State)
    requires CM.Inv(cfg, s) && s.phase.Running?
    ensures Done(cfg, s, s, [], [])
  {
    hide SameBook, CM.Reference, CM.SnapshotOk, LogInv, Consistent, Uncrossed, AllEncodable;
  }

  lemma ProcessedDone(cfg: CM.Config, s0: CM.State, s: CM.State, s': CM.State, cmds: seq<Command>, logged: seq<bool>,
                      c: Command, ok: bool)
    requires |logged| == |cmds| && Done(cfg, s0, s, cmds, logged) && Processes(cfg, s, s', c, ok)
    ensures Done(cfg, s0, s', cmds + [c], LogFlag(logged, ok))
  {
    hide CM.Inv, LogInv, PayloadsOf, Replay, Logged, Consistent, Apply, CommandBytes, RecordBytes, RecordSize, Encodable, Wrote,
         SetLen, AllLogged;
    LoggedStep(cmds, logged, c, ok);
    RunAppend(s0.phase.book, cmds, c);
    if ok {
      PayloadsAppend(s.log, c);
      WroteInv(cfg.crc, s.disk.wal, s'.disk.wal, s.phase.writePos, PayloadsOf(s.log), CommandBytes(c));
      if AllLogged(logged) {
        CM.ProcessKeeps(cfg, s, s', c);
      }
    } else {
      ResizedInv(cfg.crc, s.disk.wal, s.phase.writePos, PayloadsOf(s.log), |s'.disk.wal|);
    }
  }

  lemma HandledDone(cfg: CM.Config, s0: CM.State, s: CM.State, s': CM.State, cmds: seq<Command>, logged: seq<bool>,
                    c: Command, ok: bool, snapshot: bool)
    requires |logged| == |cmds| && Done(cfg, s0, s, cmds, logged) && Handles(cfg, s, s', c, ok, snapshot)
    ensures Done(cfg, s0, s', cmds + [c], LogFlag(logged, ok))
  {
    hide Processes, CM.Inv, LogInv, PayloadsOf, Replay, Logged, Consistent, AllLogged, Captured;
    var mid :| Processes(cfg, s, mid, c, ok) && if snapshot then CM.TakeSnapshot(cfg, mid, s') else s' == mid;
    ProcessedDone(cfg, s0, s, mid, cmds, logged, c, ok);
    if snapshot && AllLogged(LogFlag(logged, ok)) {
      CM.SnapshotKeeps(cfg, mid, s');
    }
  }

  lemma DoneMeans(cfg: CM.Config, s0: CM.State, s: CM.State, cmds: seq<Command>, logged: seq<bool>)
    requires |logged| == |cmds| && Done(cfg, s0, s, cmds, logged)
    ensures s0.phase.Running? && s.phase.Running? && Consistent(s0.phase.book)
    ensures s.phase.book == Replay(s0.phase.book, cmds)
    ensures s.log == s0.log + Logged(cmds, logged) && s.submitted == s0.submitted + Logged(cmds, logged)
    ensures LogInv(cfg.crc, s.disk.wal, s.phase.writePos, PayloadsOf(s.log))
    ensures AllLogged(logged) ==> CM.Inv(cfg, s) && SameBook(s.phase.book, CM.Reference(cfg, s.log))
  {
    hide SameBook, CM.Reference, CM.SnapshotOk, LogInv, Consistent, Uncrossed, AllEncodable, Replay, Logged, AllLogged,
         PayloadsOf;
  }

  /** A log file determines its records. */
  lemma LogIsHistory(wal: Wal, log: seq<Command>)
    requires wal.Valid() && LogInv(wal.crc, wal.File(), wal.writePos, PayloadsOf(log))
    ensures wal.payloads == PayloadsOf(log)
  {
    hide ScanFrom, PayloadsOf, ZeroFrom;
    assert wal.File() == SetLen(wal.data, |wal.File()|);
    ResizedInv(wal.crc, wal.data, wal.writePos, wal.payloads, |wal.File()|);
  }

  // ---------------------------------------------------------------- from recovery to shutdown

  /**
   A whole life of the gateway, from any good state of the files: recover, run the matching loop,
   stop. When the files cannot be opened, or the last record of the log does not decode, the
   gateway serves from an empty book without a log. Either way the engine goes from the book it
   starts with through all commands, and reports go out for all of them.
   */
  method Serve(cfg: CM.Config, files: seq<SnapshotFile>, size: nat, opens: bool, interval: nat, popped: seq<Command>,
               drained: seq<Command>, io: nat -> Io, wal: Bytes, snapshots: map<nat, Snapshot>, ghost s: CM.State)
    returns (engine: MatchingEngine, out: Reporter, worker: Worker?, logged: seq<bool>, ghost start: Book)
    requires CM.Inv(cfg, s) && s.phase.Down? && s.disk == CM.Disk(wal, snapshots)
    requires CM.Lists(cfg.sum, files, snapshots) && AllEncodable(popped) && AllEncodable(drained)
    ensures engine.Valid() && WF(start) && engine.Model() == Replay(start, popped + drained)
    ensures Told(start, popped + drained, [], 0, out.sent, out.seqNum)
    ensures worker == null <==> !opens || s.phase.tail != []
    ensures worker == null ==> start == Empty(cfg.capacity)
    ensures worker != null ==>
              && SameBook(start, CM.Reference(cfg, s.log))
              && worker.Valid() && worker.cfg == cfg && worker.engine == engine && worker.out == out
              && |logged| == |popped + drained| && (AlwaysGrows(io) ==> AllLogged(logged))
              && worker.log == s.log + Logged(popped + drained, logged)
              && worker.submitted == s.submitted + Logged(popped + drained, logged)
              && worker.wal.payloads == PayloadsOf(worker.log)
              && (AllLogged(logged) ==>
                    && CM.Inv(cfg, worker.Machine())
                    && SameBook(engine.Model(), CM.Reference(cfg, s.log + popped + drained)))
  {
    hide OrderBook.Valid, OrderBook.Model, Wal.Valid, CM.Inv, CM.Reference, SameBook, Consistent, PayloadsOf, Replay, Logged,
         AllLogged, RecoverModel, CM.Lists, Usable, AllEncodable, Responses, Uncrossed, Opened, Told;
    CM.RecoveryCorrect(cfg, s, files, size);
    var recovered, log, error := null, null, None;
    if opens {
      recovered, log, error := Recover(cfg.crc, cfg.sum, files, wal, cfg.capacity, size);
    }
    if !opens || error.Some? {
      EmptyWF(cfg.capacity);
      start := Empty(cfg.capacity);
      engine := new MatchingEngine(cfg.capacity);
      out := new Reporter();
      worker, logged := null, [];
      RunUnlogged(engine, out, popped + drained);
      return;
    }
    engine, start := recovered, recovered.Model();
    worker := new Worker(cfg, engine, log, interval, snapshots, s.log, s.submitted);
    out := worker.out;
    WholeFile(log);
    Started(cfg, s, worker.Machine(), files, size, log);
    logged := worker.MatchingLoop(popped, drained, io);
    if AllLogged(logged) {
      LoggedAll(popped + drained, logged);
      assert s.log + (popped + drained) == s.log + popped + drained;
    }
  }

  lemma WholeFile(wal: Wal)
    requires wal.slack == 0
    ensures wal.File() == wal.data
  {
  }

  /** A recovered engine and its log are a running state reached by the recovery step. */
  lemma Started(cfg: CM.Config, s: CM.State, s': CM.State, files: seq<SnapshotFile>, size: nat, wal: Wal)
    requires CM.Inv(cfg, s) && s.phase.Down? && CM.Lists(cfg.sum, files, s.disk.snapshots)
    requires var r := RecoverModel(cfg.crc, cfg.sum, files, s.disk.wal, cfg.capacity, size);
             && r.Recovered? && s'.phase.Running? && s'.phase.book == r.book && wal.payloads == r.payloads
    requires wal.Valid() && wal.crc == cfg.crc && wal.data == Opened(cfg.crc, s.disk.wal, size)
    requires s'.disk == CM.Disk(wal.data, s.disk.snapshots) && s'.log == s.log && s'.submitted == s.submitted
    requires s'.phase.writePos == wal.writePos && s'.phase.recordCount == wal.recordCount
    ensures CM.Inv(cfg, s')
  {
    hide ScanFrom, CM.Inv, CM.Lists, Usable, RecoverModel, Opened, Mapped;
    OpenInv(cfg.crc, s.disk.wal, size);
    assert CM.Recovers(cfg, s, s', files, size);
    CM.RecoverKeeps(cfg, s, s', files, size);
  }
}
