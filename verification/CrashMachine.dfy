/**
 The durable system as a state machine: log a command, then match it; snapshot at any command
 boundary; crash at any point, also in the middle of an append or while the log is reopened;
 recover. Only process crashes are modelled: what reached the file stays there.
 */
module CrashMachine {
  import opened Types
  import opened Bytes
  import opened Protocol
  import opened Framing
  import opened PriceBook
  import opened Restore
  import opened Timestamps
  import opened WalFormat
  import opened WalLog
  import opened Snapshots
  import opened Recovery

  datatype Config = Config(crc: Checksum, sum: SnapshotSum, capacity: U32)

  /** The log file and the snapshot directory, by record position. */
  datatype Disk = Disk(wal: Bytes, snapshots: map<nat, Snapshot>)

  /** `tail`: the payload of a last record that does not decode, if a torn append left one. */
  datatype Phase = Down(tail: seq<Bytes>) | Running(book: Book, writePos: nat, recordCount: nat)

  /** History: `log` is the commands the file's records hold, `submitted` those they were written for. */
  datatype State = State(disk: Disk, phase: Phase, log: seq<Command>, submitted: seq<Command>)

  // ---------------------------------------------------------------- steps

  ghost predicate Init(s: State) {
    s == State(Disk([], map[]), Down([]), [], [])
  }

  /** Append the record, then match the command. */
  ghost predicate Process(cfg: Config, s: State, s': State, c: Command) {
    && s.phase.Running? && Encodable(c) && Consistent(s.phase.book)
    && Wrote(s.disk.wal, s.phase.writePos, RecordBytes(cfg.crc, CommandBytes(c)), s'.disk.wal)
    && s' == State(s.disk.(wal := s'.disk.wal),
                   Running(Apply(s.phase.book, c).book, s.phase.writePos + RecordSize(|CommandBytes(c)|),
                           s.phase.recordCount + 1),
                   s.log + [c], s.submitted + [c])
  }

  /** Match a command whose append failed, perhaps after the file was extended: the gateway ignores the error. */
  ghost predicate Unlogged(s: State, s': State, c: Command) {
    && s.phase.Running? && Consistent(s.phase.book)
    && Resized(s.disk.wal, s.phase.writePos, s'.disk.wal)
    && s' == s.(disk := s.disk.(wal := s'.disk.wal), phase := s.phase.(book := Apply(s.phase.book, c).book))
  }

  /** Save a snapshot under the record count of the log; saving is an atomic rename. */
  ghost predicate TakeSnapshot(cfg: Config, s: State, s': State) {
    && s.phase.Running?
    && var n := s.phase.recordCount;
       s' == s.(disk := s.disk.(snapshots := s.disk.snapshots[n := Captured(cfg.sum, s.phase.book, n)]))
  }

  ghost predicate Crash(s: State, s': State) {
    s.phase.Running? && s' == s.(phase := Down([]))
  }

  /**
   Crash while the record of `c` is written: any subset of its bytes reached the file. Should the
   checksum accept what is left, the record holds whatever its payload decodes to, if anything.
   */
  ghost predicate CrashAppending(cfg: Config, s: State, s': State, c: Command, torn: Bytes) {
    && s.phase.Running? && Encodable(c)
    && Torn(RecordBytes(cfg.crc, CommandBytes(c)), torn)
    && Wrote(s.disk.wal, s.phase.writePos, torn, s'.disk.wal)
    && var n := |CommandBytes(c)|;
       var disk := s.disk.(wal := s'.disk.wal);
       if !Accepted(cfg.crc, n, torn) then s' == State(disk, Down([]), s.log, s.submitted)
       else match DecodeMessage(torn[8..8 + n])
         case Ok(d) => s' == State(disk, Down([]), s.log + [d], s.submitted + [c])
         case Err(_) => s' == State(disk, Down([torn[8..8 + n]]), s.log, s.submitted + [c])
  }

  /** The tear lost nothing of the payload, or the checksum notices. */
  ghost predicate TearNoticed(cfg: Config, c: Command, torn: Bytes) {
    Accepted(cfg.crc, |CommandBytes(c)|, torn) ==> torn[8..8 + |CommandBytes(c)|] == CommandBytes(c)
  }

  /**
   `files` lists the snapshot directory in any order the names sort to. Files may be missing or
   damaged, as long as what loads and verifies is one of the saved snapshots.
   */
  ghost predicate Lists(sum: SnapshotSum, files: seq<SnapshotFile>, snapshots: map<nat, Snapshot>) {
    forall i :: 0 <= i < |files| && Usable(sum, files[i]) ==>
      exists k :: k in snapshots && snapshots[k] == files[i].snapshot
  }

  /** Recovery as the code computes it; a refusal leaves the system down, with the log opened or not. */
  ghost predicate Recovers(cfg: Config, s: State, s': State, files: seq<SnapshotFile>, size: nat) {
    && s.phase.Down? && Lists(cfg.sum, files, s.disk.snapshots)
    && match RecoverModel(cfg.crc, cfg.sum, files, s.disk.wal, cfg.capacity, size)
       case Refused(SnapshotRefused(_)) => s' == s
       case Refused(LogRefused(_)) => s' == s.(disk := s.disk.(wal := Opened(cfg.crc, s.disk.wal, size)))
       case Recovered(b, payloads) =>
         s' == State(s.disk.(wal := Opened(cfg.crc, s.disk.wal, size)),
                     Running(b, ScanFrom(cfg.crc, Mapped(s.disk.wal, size), 0).end, |payloads|),
                     s.log, s.submitted)
  }

  /** Crash while the log is reopened: after the file was extended, cut or extended again. */
  ghost predicate CrashOpening(cfg: Config, s: State, s': State, size: nat) {
    && s.phase.Down?
    && var mapped := Mapped(s.disk.wal, size);
       || s' == s.(disk := s.disk.(wal := mapped))
       || s' == s.(disk := s.disk.(wal := SetLen(mapped, ScanFrom(cfg.crc, mapped, 0).end)))
       || s' == s.(disk := s.disk.(wal := Opened(cfg.crc, s.disk.wal, size)))
  }

  ghost predicate Next(cfg: Config, s: State, s': State) {
    || (exists c :: Process(cfg, s, s', c))
    || TakeSnapshot(cfg, s, s')
    || Crash(s, s')
    || (exists c, torn :: CrashAppending(cfg, s, s', c, torn))
    || (exists size :: CrashOpening(cfg, s, s', size))
    || (exists files, size :: Recovers(cfg, s, s', files, size))
  }

  // ---------------------------------------------------------------- invariant

  /** A snapshot at position `k` is the capture of the book after the first `k` records. */
  ghost predicate SnapshotOk(cfg: Config, log: seq<Command>, k: nat, snap: Snapshot) {
    && k <= |log|
    && snap.walRecordCount == k
    && exists b :: SnapshotOf(cfg, log[..k], k, snap, b)
  }

  ghost predicate SnapshotOf(cfg: Config, prefix: seq<Command>, k: nat, snap: Snapshot, b: Book) {
    && WF(b) && b.capacity == cfg.capacity
    && snap == Captured(cfg.sum, b, k)
    && SameBook(b, Reference(cfg, prefix))
  }

  /** The book after replaying a log from the start. */
  ghost function Reference(cfg: Config, log: seq<Command>): (b: Book)
    ensures WF(b) && b.capacity == cfg.capacity
  {
    EmptyWF(cfg.capacity);
    Replay(Empty(cfg.capacity), log)
  }

  /** However the file is mapped, its valid records are these. */
  ghost predicate FileHolds(cfg: Config, file: Bytes, payloads: seq<Bytes>) {
    forall size: nat :: ScanFrom(cfg.crc, Mapped(file, size), 0).payloads == payloads
  }

  ghost predicate TailOk(tail: seq<Bytes>) {
    tail == [] || (|tail| == 1 && DecodeMessage(tail[0]).Err?)
  }

  ghost predicate PhaseOk(cfg: Config, s: State) {
    match s.phase
    case Down(tail) => TailOk(tail) && FileHolds(cfg, s.disk.wal, PayloadsOf(s.log) + tail)
    case Running(book, writePos, recordCount) =>
      && LogInv(cfg.crc, s.disk.wal, writePos, PayloadsOf(s.log))
      && recordCount == |s.log|
      && WF(book) && book.capacity == cfg.capacity
      && SameBook(book, Reference(cfg, s.log))
  }

  ghost predicate Inv(cfg: Config, s: State) {
    && AllEncodable(s.log)
    && (forall k | k in s.disk.snapshots :: SnapshotOk(cfg, s.log, k, s.disk.snapshots[k]))
    && PhaseOk(cfg, s)
  }

  // ---------------------------------------------------------------- helpers

  lemma InvHolds(cfg: Config, wal: Bytes, writePos: nat, payloads: seq<Bytes>)
    requires LogInv(cfg.crc, wal, writePos, payloads)
    ensures FileHolds(cfg, wal, payloads)
  {
    hide ScanFrom;
    forall size: nat
      ensures ScanFrom(cfg.crc, Mapped(wal, size), 0).payloads == payloads
    {
      ResizedInv(cfg.crc, wal, writePos, payloads, Max(|wal|, size));
    }
  }

  lemma SnapshotLater(cfg: Config, log: seq<Command>, c: Command, k: nat, snap: Snapshot)
    requires SnapshotOk(cfg, log, k, snap)
    ensures SnapshotOk(cfg, log + [c], k, snap)
  {
    hide SnapshotOf;
    assert (log + [c])[..k] == log[..k];
  }

  lemma ReferenceAppend(cfg: Config, log: seq<Command>, more: seq<Command>)
    ensures Reference(cfg, log + more) == Replay(Reference(cfg, log), more)
  {
    EmptyWF(cfg.capacity);
    ReplayAppend(Empty(cfg.capacity), log, more);
  }

  lemma ReferenceStep(cfg: Config, log: seq<Command>, c: Command)
    ensures Reference(cfg, log + [c]) == Apply(Reference(cfg, log), c).book
  {
    ReferenceAppend(cfg, log, [c]);
    hide Apply, Reference, Consistent;
    ApplyWF(Reference(cfg, log), c);
    assert [c][1..] == [];
  }

  lemma EncodableAppend(log: seq<Command>, c: Command)
    requires AllEncodable(log) && Encodable(c)
    ensures AllEncodable(log + [c])
  {
  }

  // ---------------------------------------------------------------- each step keeps the invariant

  lemma ProcessKeeps(cfg: Config, s: State, s': State, c: Command)
    requires Inv(cfg, s) && Process(cfg, s, s', c)
    ensures Inv(cfg, s')
  {
    hide SnapshotOk, LogInv, SameBook, Consistent, Uncrossed, Apply, Reference, PayloadsOf, Wrote, RecordSize, RecordBytes;
    EncodableAppend(s.log, c);
    PayloadsAppend(s.log, c);
    WroteInv(cfg.crc, s.disk.wal, s'.disk.wal, s.phase.writePos, PayloadsOf(s.log), CommandBytes(c));
    ReferenceStep(cfg, s.log, c);
    ApplyWF(s.phase.book, c);
    SameStep(s.phase.book, Reference(cfg, s.log), c);
    forall k | k in s.disk.snapshots
      ensures SnapshotOk(cfg, s'.log, k, s.disk.snapshots[k])
    {
      SnapshotLater(cfg, s.log, c, k, s.disk.snapshots[k]);
    }
  }

  lemma SameStep(b: Book, r: Book, c: Command)
    requires SameBook(b, r) && Consistent(b) && Consistent(r)
    ensures SameBook(Apply(b, c).book, Apply(r, c).book)
  {
    hide SameBook, Consistent, Apply;
    SameApply(b, r, c, c);
  }

  lemma SnapshotKeeps(cfg: Config, s: State, s': State)
    requires Inv(cfg, s) && TakeSnapshot(cfg, s, s')
    ensures Inv(cfg, s')
  {
    hide SnapshotOk, LogInv, SameBook, WF, Reference, PayloadsOf, Captured;
    var n := s.phase.recordCount;
    var snap := Captured(cfg.sum, s.phase.book, n);
    assert SnapshotOk(cfg, s.log, n, snap) by { NewSnapshotOk(cfg, s.log, s.phase.book); }
  }

  lemma NewSnapshotOk(cfg: Config, log: seq<Command>, book: Book)
    requires WF(book) && book.capacity == cfg.capacity && SameBook(book, Reference(cfg, log))
    ensures SnapshotOk(cfg, log, |log|, Captured(cfg.sum, book, |log|))
  {
    hide WF, SameBook, Reference;
    assert log[..|log|] == log;
    assert SnapshotOf(cfg, log[..|log|], |log|, Captured(cfg.sum, book, |log|), book);
  }

  lemma CrashKeeps(cfg: Config, s: State, s': State)
    requires Inv(cfg, s) && Crash(s, s')
    ensures Inv(cfg, s')
  {
    hide SnapshotOk, LogInv, SameBook, WF, Reference, PayloadsOf, FileHolds;
    InvHolds(cfg, s.disk.wal, s.phase.writePos, PayloadsOf(s.log));
    assert PayloadsOf(s.log) + [] == PayloadsOf(s.log);
  }

  /** A crash in the middle of an append keeps the invariant, whatever the checksum function is. */
  lemma TornKeeps(cfg: Config, s: State, s': State, c: Command, torn: Bytes)
    requires Inv(cfg, s) && CrashAppending(cfg, s, s', c, torn)
    ensures Inv(cfg, s')
  {
    hide SnapshotOk, LogInv, SameBook, WF, Reference, PayloadsOf, Torn, RecordBytes, Accepted, Wrote, FileHolds,
         DecodeMessage, CommandBytes, Encodable;
    TornHolds(cfg, s.disk.wal, s'.disk.wal, s.phase.writePos, PayloadsOf(s.log), c, torn);
    if Accepted(cfg.crc, |CommandBytes(c)|, torn) {
      TornPayload(cfg.crc, c, torn);
      var payload := torn[8..8 + |CommandBytes(c)|];
      if DecodeMessage(payload).Ok? {
        TornDecodes(c, payload);
        HistoryGrows(cfg, s, s', DecodeMessage(payload).value);
      }
    } else {
      assert PayloadsOf(s.log) + [] == PayloadsOf(s.log);
    }
  }

  lemma HistoryGrows(cfg: Config, s: State, s': State, d: Command)
    requires Inv(cfg, s) && Encodable(d) && s'.log == s.log + [d] && s'.disk.snapshots == s.disk.snapshots
    ensures AllEncodable(s'.log)
    ensures forall k | k in s'.disk.snapshots :: SnapshotOk(cfg, s'.log, k, s'.disk.snapshots[k])
    ensures PayloadsOf(s'.log) + [] == PayloadsOf(s.log) + [CommandBytes(d)]
  {
    hide SnapshotOk, PhaseOk, PayloadsOf, CommandBytes, Encodable;
    EncodableAppend(s.log, d);
    PayloadsAppend(s.log, d);
    forall k | k in s.disk.snapshots
      ensures SnapshotOk(cfg, s'.log, k, s.disk.snapshots[k])
    {
      SnapshotLater(cfg, s.log, d, k, s.disk.snapshots[k]);
    }
  }

  lemma OpeningKeeps(cfg: Config, s: State, s': State, size: nat)
    requires Inv(cfg, s) && CrashOpening(cfg, s, s', size)
    ensures Inv(cfg, s')
  {
    hide SnapshotOk, FileHolds, PayloadsOf, ScanFrom, Mapped, Opened, SetLen;
    StillMapped(cfg, s.disk.wal, PayloadsOf(s.log) + s.phase.tail, size);
    StillCut(cfg, s.disk.wal, PayloadsOf(s.log) + s.phase.tail, size);
  }

  lemma StillMapped(cfg: Config, file: Bytes, payloads: seq<Bytes>, size: nat)
    requires FileHolds(cfg, file, payloads)
    ensures FileHolds(cfg, Mapped(file, size), payloads)
  {
    hide ScanFrom;
    forall size': nat
      ensures ScanFrom(cfg.crc, Mapped(Mapped(file, size), size'), 0).payloads == payloads
    {
      assert Mapped(Mapped(file, size), size') == Mapped(file, Max(size, size'));
    }
  }

  lemma StillCut(cfg: Config, file: Bytes, payloads: seq<Bytes>, size: nat)
    requires FileHolds(cfg, file, payloads)
    ensures var mapped := Mapped(file, size);
            FileHolds(cfg, SetLen(mapped, ScanFrom(cfg.crc, mapped, 0).end), payloads)
    ensures FileHolds(cfg, Opened(cfg.crc, file, size), payloads)
  {
    hide ScanFrom;
    var mapped := Mapped(file, size);
    var end := ScanFrom(cfg.crc, mapped, 0).end;
    CutInv(cfg.crc, mapped, SetLen(mapped, end));
    OpenInv(cfg.crc, file, size);
    assert ScanFrom(cfg.crc, mapped, 0).payloads == payloads;
    InvHolds(cfg, SetLen(mapped, end), end, payloads);
    InvHolds(cfg, Opened(cfg.crc, file, size), end, payloads);
  }

  lemma TornHolds(cfg: Config, wal: Bytes, wal': Bytes, writePos: nat, payloads: seq<Bytes>, c: Command, torn: Bytes)
    requires LogInv(cfg.crc, wal, writePos, payloads)
    requires Torn(RecordBytes(cfg.crc, CommandBytes(c)), torn) && Wrote(wal, writePos, torn, wal')
    ensures |torn| >= 8 + |CommandBytes(c)|
    ensures var n := |CommandBytes(c)|;
            FileHolds(cfg, wal', if Accepted(cfg.crc, n, torn) then payloads + [torn[8..8 + n]] else payloads)
  {
    hide LogInv, Torn, RecordBytes, Accepted, Wrote, ScanFrom, Mapped;
    var n := |CommandBytes(c)|;
    assert n < 256;
    TornPayload(cfg.crc, c, torn);
    var payloads' := if Accepted(cfg.crc, n, torn) then payloads + [torn[8..8 + n]] else payloads;
    forall size: nat
      ensures ScanFrom(cfg.crc, Mapped(wal', size), 0).payloads == payloads'
    {
      TornReopen(cfg.crc, wal, wal', writePos, payloads, CommandBytes(c), torn, size);
    }
  }

  lemma TornPayload(crc: Checksum, c: Command, torn: Bytes)
    requires Torn(RecordBytes(crc, CommandBytes(c)), torn)
    ensures |torn| >= 8 + |CommandBytes(c)| && Torn(CommandBytes(c), torn[8..8 + |CommandBytes(c)|])
  {
    hide CommandBytes;
    var n := |CommandBytes(c)|;
    RecordFields(crc, CommandBytes(c));
    hide RecordBytes, Torn;
    TornSize(RecordBytes(crc, CommandBytes(c)), torn);
    TornSlice(RecordBytes(crc, CommandBytes(c)), torn, 8, 8 + n);
  }

  /** What is left of a torn command is, if it decodes, exactly the encoding of what it decodes to. */
  lemma TornDecodes(c: Command, payload: Bytes)
    requires Torn(CommandBytes(c), payload) && DecodeMessage(payload).Ok?
    ensures CommandBytes(DecodeMessage(payload).value) == payload && Encodable(DecodeMessage(payload).value)
  {
    DecodeEncode(payload);
    TornNormalized(c, payload);
  }

  lemma TornNormalized(c: Command, payload: Bytes)
    requires Torn(CommandBytes(c), payload) && payload[0] in {MSG_NEW_ORDER, MSG_CANCEL_ORDER}
    ensures |payload| == if payload[0] == MSG_NEW_ORDER then 40 else 16
    ensures Normalized(payload) == payload
  {
    hide U64Bytes, I64Bytes;
  }

  // ---------------------------------------------------------------- recovery

  /** Replaying the payloads of a log is applying its commands without their timestamps. */
  lemma {:induction false} ReplayDecodes(b: Book, log: seq<Command>, tail: seq<Bytes>)
    requires Consistent(b) && AllEncodable(log)
    ensures ReplayPayloads(b, PayloadsOf(log) + tail) == ReplayPayloads(Replay(b, UnstampAll(log)), tail)
    decreases |log|
  {
    hide Consistent, Apply, CommandBytes, DecodeMessage, Encodable;
    if log == [] {
      assert PayloadsOf(log) + tail == tail;
    } else {
      assert CommandBytes(log[0]) + [] == CommandBytes(log[0]);
      CommandRoundTrip(log[0], []);
      ApplyWF(b, Unstamped(log[0]));
      assert (PayloadsOf(log) + tail)[1..] == PayloadsOf(log[1..]) + tail;
      assert UnstampAll(log)[1..] == UnstampAll(log[1..]);
      ReplayDecodes(Apply(b, Unstamped(log[0])).book, log[1..], tail);
    }
  }

  /** A tail that does not decode stops the replay with an error; no tail, no error. */
  lemma ReplayTail(b: Book, tail: seq<Bytes>)
    requires Consistent(b) && TailOk(tail)
    ensures ReplayPayloads(b, tail).book == b
    ensures ReplayPayloads(b, tail).fault.None? <==> tail == []
  {
  }

  lemma UnstampSame(log: seq<Command>)
    ensures SameCommands(UnstampAll(log), log)
  {
  }

  /** From a book equal to the reference after `k` records, replaying the rest gives the whole. */
  lemma ReplayRest(cfg: Config, b: Book, log: seq<Command>, tail: seq<Bytes>, k: nat)
    requires Consistent(b) && k <= |log| && AllEncodable(log) && TailOk(tail)
    requires SameBook(b, Reference(cfg, log[..k]))
    ensures var r := ReplayPayloads(b, Drop(PayloadsOf(log) + tail, k));
            && (r.fault.None? <==> tail == [])
            && r.book == Replay(b, UnstampAll(log[k..]))
    ensures SameBook(Replay(b, UnstampAll(log[k..])), Reference(cfg, log))
  {
    hide Consistent, SameBook, Reference, ReplayPayloads, Encodable, CommandBytes, TailOk;
    assert AllEncodable(log[k..]);
    assert Drop(PayloadsOf(log) + tail, k) == PayloadsOf(log[k..]) + tail;
    ReplayDecodes(b, log[k..], tail);
    ReplayTail(Replay(b, UnstampAll(log[k..])), tail);
    assert log == log[..k] + log[k..];
    ReferenceAppend(cfg, log[..k], log[k..]);
    UnstampSame(log[k..]);
    hide Replay, Responses, UnstampAll, PayloadsOf;
    SameReplay(b, Reference(cfg, log[..k]), UnstampAll(log[k..]), log[k..]);
  }

  /** Every usable file of a reachable directory is a good snapshot. */
  lemma UsableOk(cfg: Config, s: State, files: seq<SnapshotFile>, i: nat)
    requires Inv(cfg, s) && Lists(cfg.sum, files, s.disk.snapshots) && i < |files| && Usable(cfg.sum, files[i])
    ensures exists k :: k in s.disk.snapshots && s.disk.snapshots[k] == files[i].snapshot
                        && SnapshotOk(cfg, s.log, k, files[i].snapshot)
  {
    hide PhaseOk, SnapshotOk, AllEncodable;
    var k :| k in s.disk.snapshots && s.disk.snapshots[k] == files[i].snapshot;
  }

  /**
   Recovery rebuilds, up to timestamps, the replay of every recovered record, whichever snapshot
   it starts from; it refuses exactly when the last record does not decode.
   */
  lemma RecoveryCorrect(cfg: Config, s: State, files: seq<SnapshotFile>, size: nat)
    requires Inv(cfg, s) && s.phase.Down? && Lists(cfg.sum, files, s.disk.snapshots)
    ensures Rebuilds(cfg, s.log, s.phase.tail, RecoverModel(cfg.crc, cfg.sum, files, s.disk.wal, cfg.capacity, size))
  {
    hide WF, Consistent, SameBook, Reference, ScanFrom, PayloadsOf, SnapshotOk, Latest, InsertAll, AllEncodable,
         Lists, Rebuilds, TailOk;
    forall i | 0 <= i < |files| && Usable(cfg.sum, files[i])
      {
      UsableOk(cfg, s, files, i);
    }
    var tail := s.phase.tail;
    assert ScanFrom(cfg.crc, Mapped(s.disk.wal, size), 0).payloads == PayloadsOf(s.log) + tail;
    match Latest(cfg.sum, files)
    case None => FromNothing(cfg, s.log, tail);
    case Some(snap) =>
      var i :| 0 <= i < |files| && Usable(cfg.sum, files[i]) && files[i].snapshot == snap;
      UsableOk(cfg, s, files, i);
      var k :| k in s.disk.snapshots && s.disk.snapshots[k] == snap && SnapshotOk(cfg, s.log, k, snap);
      FromSnapshot(cfg, s.log, tail, k, snap);
  }

  /** The outcome of recovering a log of these commands with this tail. */
  ghost predicate Rebuilds(cfg: Config, log: seq<Command>, tail: seq<Bytes>, r: Recovered) {
    match r
    case Refused(e) => tail != [] && e.LogRefused?
    case Recovered(book, payloads) =>
      && tail == [] && payloads == PayloadsOf(log)
      && WF(book) && book.capacity == cfg.capacity
      && SameBook(book, Reference(cfg, log))
  }

  lemma FromBook(cfg: Config, b: Book, log: seq<Command>, tail: seq<Bytes>, k: nat)
    requires WF(b) && b.capacity == cfg.capacity && k <= |log| && AllEncodable(log) && TailOk(tail)
    requires SameBook(b, Reference(cfg, log[..k]))
    ensures Rebuilds(cfg, log, tail, FinishRecovery(b, PayloadsOf(log) + tail, k))
  {
    hide Consistent, Uncrossed, SameBook, Reference, ReplayPayloads, AllEncodable, PayloadsOf, TailOk, UnstampAll, Drop;
    ReplayRest(cfg, b, log, tail, k);
    if tail == [] {
      assert PayloadsOf(log) + tail == PayloadsOf(log);
    }
  }

  lemma FromNothing(cfg: Config, log: seq<Command>, tail: seq<Bytes>)
    requires AllEncodable(log) && TailOk(tail)
    ensures WF(Empty(cfg.capacity))
    ensures Rebuilds(cfg, log, tail, FinishRecovery(Empty(cfg.capacity), PayloadsOf(log) + tail, 0))
  {
    EmptyWF(cfg.capacity);
    assert log[..0] == [];
    assert SameBook(Empty(cfg.capacity), Reference(cfg, log[..0]));
    hide WF, SameBook, Reference, AllEncodable, PayloadsOf, Rebuilds, FinishRecovery, TailOk;
    FromBook(cfg, Empty(cfg.capacity), log, tail, 0);
  }

  lemma FromSnapshot(cfg: Config, log: seq<Command>, tail: seq<Bytes>, k: nat, snap: Snapshot)
    requires AllEncodable(log) && SnapshotOk(cfg, log, k, snap) && TailOk(tail)
    ensures InsertAll(Empty(cfg.capacity), snap.orders).Ok?
    ensures Consistent(InsertAll(Empty(cfg.capacity), snap.orders).value)
    ensures snap.walRecordCount == k
    ensures Rebuilds(cfg, log, tail,
                     FinishRecovery(InsertAll(Empty(cfg.capacity), snap.orders).value, PayloadsOf(log) + tail, k))
  {
    hide Consistent, Uncrossed, SameBook, Reference, InsertAll, AllEncodable, PayloadsOf, Rebuilds, FinishRecovery, TailOk;
    var b :| SnapshotOf(cfg, log[..k], k, snap, b);
    RestoreListing(b);
    FromBook(cfg, b, log, tail, k);
  }

  lemma RecoverKeeps(cfg: Config, s: State, s': State, files: seq<SnapshotFile>, size: nat)
    requires Inv(cfg, s) && Recovers(cfg, s, s', files, size)
    ensures Inv(cfg, s') && (s'.phase.Running? <==> s.phase.tail == [])
    ensures s'.log == s.log && s'.submitted == s.submitted && (s'.phase.Down? ==> s'.phase == s.phase)
  {
    hide SnapshotOk, LogInv, SameBook, WF, Reference, PayloadsOf, RecoverModel, ScanFrom, Opened, Mapped, Usable, TailOk,
         AllEncodable;
    RecoveryCorrect(cfg, s, files, size);
    OpenInv(cfg.crc, s.disk.wal, size);
    assert ScanFrom(cfg.crc, Mapped(s.disk.wal, size), 0).payloads == PayloadsOf(s.log) + s.phase.tail;
    StillCut(cfg, s.disk.wal, PayloadsOf(s.log) + s.phase.tail, size);
    if s.phase.tail == [] {
      assert PayloadsOf(s.log) + s.phase.tail == PayloadsOf(s.log);
    }
  }

  // ---------------------------------------------------------------- ignored errors

  /**
   A failed append keeps the invariant exactly when its command is harmless: when it finds, in the
   book it is matched against, nothing to change.
   */
  lemma UnloggedExactly(cfg: Config, s: State, s': State, c: Command)
    requires Inv(cfg, s) && Unlogged(s, s', c)
    ensures Inv(cfg, s') <==> Harmless(s.phase.book, c)
  {
    hide SnapshotOk, LogInv, SameBook, Consistent, Uncrossed, Apply, Reference, PayloadsOf, AllEncodable, Harmless, SetLen;
    var (b, b') := (s.phase.book, s'.phase.book);
    var r := Reference(cfg, s.log);
    ApplyWF(b, c);
    HarmlessExactly(b, c);
    ResizedInv(cfg.crc, s.disk.wal, s.phase.writePos, PayloadsOf(s.log), |s'.disk.wal|);
    SameBookSymmetric(b, r);
    if SameBook(b', r) {
      SameBookTransitive(b', r, b);
    }
    if SameBook(b', b) {
      SameBookTransitive(b', b, r);
    }
  }

  /** The first start: an empty directory recovers to an empty book. */
  lemma FirstStart(cfg: Config) returns (run: seq<State>)
    ensures IsRun(cfg, run) && |run| == 2
    ensures run[1] == State(Disk([], map[]), Running(Empty(cfg.capacity), 0, 0), [], [])
  {
    var s := State(Disk([], map[]), Down([]), [], []);
    var s' := State(Disk([], map[]), Running(Empty(cfg.capacity), 0, 0), [], []);
    EmptyWF(cfg.capacity);
    ZerosStop(cfg.crc, [], 0);
    assert Mapped([], 0) == [] == Opened(cfg.crc, [], 0);
    assert Recovers(cfg, s, s', [], 0);
    run := [s, s'];
  }

  /** A run, and an ignored append after it, that together lose a resting order: the book has it, the log does not. */
  lemma UnloggedHarms(cfg: Config, o: Order) returns (run: seq<State>, s': State)
    requires cfg.capacity > 0 && o.quantity > 0
    ensures IsRun(cfg, run) && Unlogged(run[|run| - 1], s', NewOrder(o)) && !Inv(cfg, s')
    ensures s'.log == [] && o.id in s'.phase.book.index
  {
    run := FirstStart(cfg);
    var s := run[1];
    EmptyWF(cfg.capacity);
    RunsAreSafe(cfg, run, 1);
    s' := s.(phase := s.phase.(book := Apply(s.phase.book, NewOrder(o)).book));
    EmptyRests(cfg.capacity, o);
    assert Unlogged(s, s', NewOrder(o));
    hide Inv, IsRun, Unlogged, Apply, Harmless;
    UnloggedExactly(cfg, s, s', NewOrder(o));
  }

  lemma EmptyRests(capacity: nat, o: Order)
    requires capacity > 0 && o.quantity > 0
    ensures WF(Empty(capacity)) && !Harmless(Empty(capacity), NewOrder(o))
    ensures o.id in Apply(Empty(capacity), NewOrder(o)).book.index
  {
    EmptyWF(capacity);
  }

  // ---------------------------------------------------------------- runs

  lemma InitInv(cfg: Config, s: State)
    requires Init(s)
    ensures Inv(cfg, s)
  {
    forall size: nat
      ensures ScanFrom(cfg.crc, Mapped([], size), 0).payloads == PayloadsOf([]) + []
    {
      ZerosStop(cfg.crc, Mapped([], size), 0);
    }
  }

  lemma NextKeeps(cfg: Config, s: State, s': State)
    requires Inv(cfg, s) && Next(cfg, s, s')
    ensures Inv(cfg, s')
  {
    hide Inv, Process, TakeSnapshot, Crash, CrashAppending, CrashOpening, Recovers;
    if c :| Process(cfg, s, s', c) {
      ProcessKeeps(cfg, s, s', c);
    } else if TakeSnapshot(cfg, s, s') {
      SnapshotKeeps(cfg, s, s');
    } else if Crash(s, s') {
      CrashKeeps(cfg, s, s');
    } else if c, torn :| CrashAppending(cfg, s, s', c, torn) {
      TornKeeps(cfg, s, s', c, torn);
    } else if size :| CrashOpening(cfg, s, s', size) {
      OpeningKeeps(cfg, s, s', size);
    } else {
      var files, size :| Recovers(cfg, s, s', files, size);
      RecoverKeeps(cfg, s, s', files, size);
    }
  }

  ghost predicate IsRun(cfg: Config, run: seq<State>) {
    && run != [] && Init(run[0])
    && forall i :: 0 <= i < |run| - 1 ==> Next(cfg, run[i], run[i + 1])
  }

  /**
   Over every run, whatever the checksum function is: each stored snapshot lies within the log
   and holds the book after its position, and the live engine is the replay of the whole log, up
   to timestamps.
   */
  lemma {:induction false} RunsAreSafe(cfg: Config, run: seq<State>, i: nat)
    requires IsRun(cfg, run) && i < |run|
    ensures Inv(cfg, run[i])
    decreases i
  {
    hide Inv, Next, Init;
    if i == 0 {
      InitInv(cfg, run[0]);
    } else {
      RunsAreSafe(cfg, run, i - 1);
      assert Next(cfg, run[i - 1], run[i - 1 + 1]);
      NextKeeps(cfg, run[i - 1], run[i]);
    }
  }

  /** After any run that left the system down, recovery returns the replay of what was recovered, or refuses. */
  lemma RunRecovers(cfg: Config, run: seq<State>, files: seq<SnapshotFile>, size: nat)
    requires IsRun(cfg, run)
    requires var s := run[|run| - 1]; s.phase.Down? && Lists(cfg.sum, files, s.disk.snapshots)
    ensures var s := run[|run| - 1];
            && Rebuilds(cfg, s.log, s.phase.tail,
                        RecoverModel(cfg.crc, cfg.sum, files, s.disk.wal, cfg.capacity, size))
            && forall k | k in s.disk.snapshots :: k <= |s.log|
  {
    var s := run[|run| - 1];
    RunsAreSafe(cfg, run, |run| - 1);
    assert forall k | k in s.disk.snapshots :: k <= |s.log|;
    hide IsRun, Inv, Rebuilds, Lists, RecoverModel;
    RecoveryCorrect(cfg, s, files, size);
  }

  // ---------------------------------------------------------------- what was submitted

  /** The records are those of the submitted commands, up to timestamps. */
  ghost predicate Faithful(s: State) {
    SameCommands(s.log, s.submitted) && (s.phase.Down? ==> s.phase.tail == [])
  }

  /** Commands with the same bytes differ at most in their timestamps. */
  lemma SameBytes(c: Command, d: Command)
    requires Encodable(c) && Encodable(d)
    ensures SameCommand(c, d) <==> CommandBytes(c) == CommandBytes(d)
  {
    hide CommandBytes, DecodeMessage;
    CommandRoundTrip(c, []);
    CommandRoundTrip(d, []);
    if SameCommand(c, d) {
      BytesIgnoreTimestamp(c, d);
    }
  }

  lemma BytesIgnoreTimestamp(c: Command, d: Command)
    requires SameCommand(c, d)
    ensures CommandBytes(c) == CommandBytes(d)
  {
    hide U64Bytes, I64Bytes, Zeros;
  }

  lemma SameAppend(cs: seq<Command>, ds: seq<Command>, c: Command, d: Command)
    requires SameCommands(cs, ds)
    ensures SameCommands(cs + [c], ds + [d]) <==> SameCommand(c, d)
  {
    if SameCommands(cs + [c], ds + [d]) {
      assert SameCommand((cs + [c])[|cs|], (ds + [d])[|cs|]);
    }
  }

  /** A torn append keeps the records faithful exactly when the checksum notices a loss in the payload. */
  lemma TearExactly(cfg: Config, s: State, s': State, c: Command, torn: Bytes)
    requires Faithful(s) && CrashAppending(cfg, s, s', c, torn)
    ensures Faithful(s') <==> TearNoticed(cfg, c, torn)
  {
    hide Torn, RecordBytes, Accepted, Wrote, DecodeMessage, CommandBytes, Encodable, SameCommand, SameCommands;
    if Accepted(cfg.crc, |CommandBytes(c)|, torn) {
      TornPayload(cfg.crc, c, torn);
      var payload := torn[8..8 + |CommandBytes(c)|];
      assert CommandBytes(c) + [] == CommandBytes(c);
      CommandRoundTrip(c, []);
      if DecodeMessage(payload).Ok? {
        var d := DecodeMessage(payload).value;
        TornDecodes(c, payload);
        SameBytes(d, c);
        SameAppend(s.log, s.submitted, d, c);
      }
    }
  }

  /** Every torn append of the run is noticed: a property of the run, not of the checksum function. */
  ghost predicate TearsNoticed(cfg: Config, run: seq<State>) {
    forall i, c, torn :: 0 <= i < |run| - 1 && CrashAppending(cfg, run[i], run[i + 1], c, torn) ==>
      TearNoticed(cfg, c, torn)
  }

  lemma NextFaithful(cfg: Config, s: State, s': State)
    requires Inv(cfg, s) && Next(cfg, s, s') && Faithful(s)
    requires forall c, torn :: CrashAppending(cfg, s, s', c, torn) ==> TearNoticed(cfg, c, torn)
    ensures Faithful(s')
  {
    hide Inv, CrashAppending, Recovers, TearNoticed, CommandBytes, RecordSize, RecordBytes, Wrote, Apply, Captured, Opened, Mapped,
         ScanFrom, Encodable;
    if c :| Process(cfg, s, s', c) {
      SameAppend(s.log, s.submitted, c, c);
    } else if TakeSnapshot(cfg, s, s') {
    } else if Crash(s, s') {
    } else if c, torn :| CrashAppending(cfg, s, s', c, torn) {
      hide Faithful;
      TearExactly(cfg, s, s', c, torn);
    } else if size :| CrashOpening(cfg, s, s', size) {
    } else {
      var files, size :| Recovers(cfg, s, s', files, size);
      RecoverKeeps(cfg, s, s', files, size);
    }
  }

  /** On a run whose torn appends are all noticed, the log is the submitted commands throughout. */
  lemma {:induction false} RunsAreFaithful(cfg: Config, run: seq<State>, i: nat)
    requires IsRun(cfg, run) && TearsNoticed(cfg, run) && i < |run|
    ensures Faithful(run[i])
    decreases i
  {
    hide Inv, Next, CrashAppending, TearNoticed, Faithful;
    if i == 0 {
      InitFaithful(run[0]);
    } else {
      RunsAreFaithful(cfg, run, i - 1);
      RunsAreSafe(cfg, run, i - 1);
      assert Next(cfg, run[i - 1], run[i - 1 + 1]);
      forall c, torn | CrashAppending(cfg, run[i - 1], run[i], c, torn)
        ensures TearNoticed(cfg, c, torn)
      {
        assert CrashAppending(cfg, run[i - 1], run[i - 1 + 1], c, torn);
      }
      NextFaithful(cfg, run[i - 1], run[i]);
    }
  }

  lemma InitFaithful(s: State)
    requires Init(s)
    ensures Faithful(s)
  {
  }

  /** After such a run recovery succeeds and returns the replay of the submitted commands. */
  lemma RunRecoversSubmitted(cfg: Config, run: seq<State>, files: seq<SnapshotFile>, size: nat)
    requires IsRun(cfg, run) && TearsNoticed(cfg, run)
    requires var s := run[|run| - 1]; s.phase.Down? && Lists(cfg.sum, files, s.disk.snapshots)
    ensures var r := RecoverModel(cfg.crc, cfg.sum, files, run[|run| - 1].disk.wal, cfg.capacity, size);
            r.Recovered? && SameBook(r.book, Reference(cfg, run[|run| - 1].submitted))
  {
    hide Next, Init, TearsNoticed, Lists, RecoverModel, SameBook, WF, Reference, PayloadsOf;
    var s := run[|run| - 1];
    RunsAreFaithful(cfg, run, |run| - 1);
    RunRecovers(cfg, run, files, size);
    var book := RecoverModel(cfg.crc, cfg.sum, files, s.disk.wal, cfg.capacity, size).book;
    SameReference(cfg, s.log, s.submitted);
    SameBookTransitive(book, Reference(cfg, s.log), Reference(cfg, s.submitted));
  }

  lemma SameReference(cfg: Config, log: seq<Command>, submitted: seq<Command>)
    requires SameCommands(log, submitted)
    ensures SameBook(Reference(cfg, log), Reference(cfg, submitted))
  {
    EmptyWF(cfg.capacity);
    assert SameBook(Empty(cfg.capacity), Empty(cfg.capacity));
    hide SameBook, Consistent, Replay, SameCommands;
    SameReplay(Empty(cfg.capacity), Empty(cfg.capacity), log, submitted);
  }

  /** A checksum that rejects every torn record makes every run one of those. */
  lemma RejectingNotices(cfg: Config, run: seq<State>)
    requires RejectsTorn(cfg.crc)
    ensures TearsNoticed(cfg, run)
  {
    hide Torn, RecordBytes, Accepted, CommandBytes, Wrote;
  }
}
