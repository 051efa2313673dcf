/** The write-ahead log object: a mapped file, an append position and a record count. */
module Wals {
  import opened Types
  import opened Bytes
  import opened Protocol
  import opened WalFormat
  import opened WalLog
  import opened Framing

  /** Walk the records from offset 0 until the first thing that is not one. */
  method ScanRecords(crc: Checksum, data: Bytes) returns (end: nat, count: nat)
    ensures end == ScanFrom(crc, data, 0).end && count == |ScanFrom(crc, data, 0).payloads|
  {
    hide ValidAt, PayloadAt, NextPos;
    end, count := 0, 0;
    while ValidAt(crc, data, end)
      invariant end <= |data|
      invariant ScanFrom(crc, data, 0).end == ScanFrom(crc, data, end).end
      invariant |ScanFrom(crc, data, 0).payloads| == count + |ScanFrom(crc, data, end).payloads|
      decreases |data| - end
    {
      end := NextPos(crc, data, end);
      count := count + 1;
    }
  }

  /** What the file system does when the log must grow: it grows, cannot be extended, or cannot be mapped again. */
  datatype GrowIo = Grows | CannotExtend | CannotMap

  class Wal {
    const crc: Checksum
    const encodeBuf: array<U8>
    var data: Bytes
    var writePos: nat
    var mappedSize: nat
    var recordCount: nat
    var slack: nat
    ghost var payloads: seq<Bytes>

    ghost predicate Valid()
      reads this
    {
      && encodeBuf.Length == NEW_ORDER_SIZE
      && mappedSize == |data|
      && recordCount == |payloads|
      && LogInv(crc, data, writePos, payloads)
    }

    /** The file: the mapped bytes, and zeros it was extended by when it could not be mapped again. */
    ghost function File(): Bytes
      reads this
    {
      data + Zeros(slack)
    }

    /** Open a file of any content: its valid records stay, everything after them is zeroed. */
    constructor Open(crc: Checksum, file: Bytes, initialSize: nat)
      ensures Valid() && fresh(encodeBuf) && this.crc == crc
      ensures data == Opened(crc, file, initialSize) && slack == 0
      ensures mappedSize == if |file| < initialSize then initialSize else |file|
      ensures payloads == ScanFrom(crc, Mapped(file, initialSize), 0).payloads
    {
      hide ScanFrom, LogInv;
      var mapped := Mapped(file, initialSize);
      var end, count := ScanRecords(crc, mapped);
      OpenInv(crc, file, initialSize);
      this.crc := crc;
      encodeBuf := new U8[NEW_ORDER_SIZE](_ => 0);
      data := SetLen(SetLen(mapped, end), |mapped|);
      writePos, mappedSize, recordCount, slack := end, |mapped|, count, 0;
      payloads := ScanFrom(crc, mapped, 0).payloads;
    }

    /**
     Make room by doubling. When the file cannot be extended nothing happens; when it was extended
     but cannot be mapped again, the old mapping stays.
     */
    method EnsureCapacity(needed: nat, io: GrowIo) returns (ok: bool)
      requires Valid()
      modifies this
      ensures Valid()
      ensures writePos == old(writePos) && recordCount == old(recordCount) && payloads == old(payloads)
      ensures ok <==> io.Grows? || writePos + needed <= |old(data)|
      ensures ok ==> data == Grown(old(data), writePos, needed)
      ensures ok && writePos + needed > |old(data)| ==>
                |data| == if 2 * |old(data)| > writePos + needed then 2 * |old(data)| else writePos + needed
      ensures ok ==> slack == if writePos + needed <= |old(data)| then old(slack) else 0
      ensures !ok ==> data == old(data)
      ensures !ok ==> slack == if io.CannotMap? then Max(2 * |data|, writePos + needed) - |data| else old(slack)
    {
      hide LogInv;
      GrownInv(crc, data, writePos, payloads, needed);
      if writePos + needed <= mappedSize {
        return true;
      }
      var newSize := Max(mappedSize * 2, writePos + needed);
      if io.CannotExtend? {
        return false;
      }
      if io.CannotMap? {
        slack := newSize - |data|;
        return false;
      }
      data := SetLen(data, newSize);
      mappedSize, slack := newSize, 0;
      ok := true;
    }

    /** Append one command; returns its 1-based record number, or nothing when there is no room. */
    method Append(cmd: Command, io: GrowIo) returns (n: Option<nat>)
      requires Valid()
      modifies this, encodeBuf
      ensures Valid()
      ensures n.Some? <==> io.Grows? || old(writePos) + RecordSize(|CommandBytes(cmd)|) <= |old(data)|
      ensures n.Some? ==>
                && n.value == recordCount == old(recordCount) + 1
                && payloads == old(payloads) + [CommandBytes(cmd)]
                && writePos == old(writePos) + RecordSize(|CommandBytes(cmd)|)
                && data == Appended(crc, old(data), old(writePos), CommandBytes(cmd))
                && Wrote(old(File()), old(writePos), RecordBytes(crc, CommandBytes(cmd)), File())
      ensures n.None? ==>
                && data == old(data) && writePos == old(writePos) && recordCount == old(recordCount)
                && payloads == old(payloads) && Resized(old(File()), writePos, File())
    {
      hide LogInv, NewOrderBytes, CancelOrderBytes, RecordSize, RecordBytes, Grown, Wrote, Resized, Written, Zeros;
      AppendInv(crc, data, writePos, payloads, CommandBytes(cmd));
      WithinData(crc, data, writePos, payloads);
      var payload := EncodePayload(encodeBuf, cmd);
      var recordSize := RecordSize(|payload|);
      var ok := EnsureCapacity(recordSize, io);
      if !ok {
        SlackResized(data, writePos, old(slack), slack);
        return None;
      }
      SlackWritten(old(data), writePos, old(slack), slack, RecordBytes(crc, payload));
      data := Written(data, writePos, RecordBytes(crc, payload));
      writePos := writePos + recordSize;
      recordCount := recordCount + 1;
      payloads := payloads + [payload];
      n := Some(recordCount);
    }

    /**
     Zero everything from `offset` to the end of the log. Nothing is checked: the log stays valid
     exactly when `offset` is the boundary after the first `count` records.
     */
    method TruncateTo(offset: nat, count: nat)
      requires Valid()
      modifies this
      ensures data == Truncated(old(data), offset, old(writePos)) && mappedSize == old(mappedSize)
      ensures |data| == |old(data)|
      ensures forall i :: 0 <= i < |data| ==> data[i] == if offset <= i < old(writePos) then 0 else old(data)[i]
      ensures writePos == offset && recordCount == count
      ensures Valid() <==> count <= old(recordCount) && offset == Boundary(crc, old(data), 0, count)
      ensures Valid() ==> payloads == old(payloads)[..count]
    {
      assert writePos <= |data|;
      hide LogInv, Boundary;
      TruncateExactly(crc, data, writePos, payloads, offset, count);
      if count <= recordCount && offset == Boundary(crc, data, 0, count) {
        TruncateInv(crc, data, writePos, payloads, count);
      }
      data := Truncated(data, offset, writePos);
      writePos := offset;
      recordCount := count;
      payloads := if count <= |payloads| then payloads[..count] else payloads;
    }
  }

  lemma WithinData(crc: Checksum, data: Bytes, end: nat, payloads: seq<Bytes>)
    requires LogInv(crc, data, end, payloads)
    ensures end <= |data|
  {
  }

  lemma SlackResized(data: Bytes, end: nat, slack: nat, slack': nat)
    requires end <= |data|
    ensures Resized(data + Zeros(slack), end, data + Zeros(slack'))
  {
  }

  /** Writing into the mapping, grown or not, is writing into the file. */
  lemma SlackWritten(data: Bytes, pos: nat, slack: nat, slack': nat, rec: Bytes)
    requires pos <= |data| && slack' == if pos + |rec| <= |data| then slack else 0
    ensures Wrote(data + Zeros(slack), pos, rec, Written(Grown(data, pos, |rec|), pos, rec) + Zeros(slack'))
  {
    var file := data + Zeros(slack);
    var grown := Grown(data, pos, |rec|);
    var n := |grown| + slack';
    assert SetLen(file, n) == grown + Zeros(slack');
    assert Written(grown + Zeros(slack'), pos, rec) == Written(grown, pos, rec) + Zeros(slack');
    assert WroteAt(file, pos, rec, Written(grown, pos, rec) + Zeros(slack'), n);
  }

  /** Encode a command into the reused buffer and take the payload off its front. */
  method EncodePayload(buf: array<U8>, cmd: Command) returns (payload: Bytes)
    requires buf.Length == NEW_ORDER_SIZE
    modifies buf
    ensures payload == CommandBytes(cmd)
  {
    hide NewOrderBytes, CancelOrderBytes;
    match cmd {
      case NewOrder(o) =>
        var r := EncodeNewOrder(buf, o);
        payload := buf[..][..r.value];
      case CancelOrder(id) =>
        var r := EncodeCancelOrder(buf, id);
        payload := buf[..][..r.value];
    }
  }

  // ---------------------------------------------------------------- iterating

  datatype WalError =
    | ProtocolFault(error: ProtocolError)
    | Corruption(offset: nat)
    | TruncatedRecord(offset: nat)

  datatype Item = Item(record: nat, cmd: Command)

  /** What one call of `next` yields, and where it leaves the iterator. */
  datatype Step = Step(item: Option<Result<Item, WalError>>, readPos: nat, current: nat)

  function IterStep(crc: Checksum, data: Bytes, pos: nat, end: nat, current: nat, start: nat): Step
    requires end <= |data|
    decreases if pos <= end then end - pos else 0
  {
    if pos + HEADER_SIZE > end then Step(None, pos, current)
    else
      var len := LenAt(data, pos);
      if len == 0 then Step(None, pos, current)
      else if pos + RecordSize(len) > end then Step(Some(Err(TruncatedRecord(pos))), pos, current)
      else if !ValidAt(crc, data, pos) then Step(Some(Err(Corruption(pos))), pos, current)
      else if current + 1 <= start then IterStep(crc, data, NextPos(crc, data, pos), end, current + 1, start)
      else
        var item := match DecodeMessage(PayloadAt(crc, data, pos))
                    case Ok(c) => Ok(Item(current + 1, c))
                    case Err(e) => Err(ProtocolFault(e));
        Step(Some(item), NextPos(crc, data, pos), current + 1)
  }

  class WalIterator {
    const crc: Checksum
    const data: Bytes
    const endPos: nat
    const startRecord: nat
    var readPos: nat
    var currentRecord: nat

    constructor (crc: Checksum, data: Bytes, endPos: nat, startRecord: nat)
      ensures this.crc == crc && this.data == data && this.endPos == endPos && this.startRecord == startRecord
      ensures readPos == 0 && currentRecord == 0
    {
      this.crc, this.data, this.endPos, this.startRecord := crc, data, endPos, startRecord;
      readPos, currentRecord := 0, 0;
    }

    /** Skip to the first record past the start, check it and decode it. */
    method Next() returns (item: Option<Result<Item, WalError>>)
      requires endPos <= |data|
      modifies this
      ensures Step(item, readPos, currentRecord) ==
              IterStep(crc, data, old(readPos), endPos, old(currentRecord), startRecord)
    {
      hide ValidAt, PayloadAt, NextPos, DecodeMessage, LenAt, RecordSize;
      item := None;
      while readPos + HEADER_SIZE <= endPos
        invariant item.None?
        invariant IterStep(crc, data, readPos, endPos, currentRecord, startRecord) ==
                  IterStep(crc, data, old(readPos), endPos, old(currentRecord), startRecord)
        decreases endPos - readPos
      {
        var len := LenAt(data, readPos);
        if len == 0 {
          return None;
        }
        if readPos + RecordSize(len) > endPos {
          return Some(Err(TruncatedRecord(readPos)));
        }
        if !ValidAt(crc, data, readPos) {
          return Some(Err(Corruption(readPos)));
        }
        var payload := PayloadAt(crc, data, readPos);
        readPos := NextPos(crc, data, readPos);
        currentRecord := currentRecord + 1;
        if currentRecord <= startRecord {
          continue;
        }
        match DecodeMessage(payload) {
          case Ok(c) => return Some(Ok(Item(currentRecord, c)));
          case Err(e) => return Some(Err(ProtocolFault(e)));
        }
      }
    }
  }

  /**
   On a log that satisfies the invariant the iterator never reports corruption or truncation:
   from record `m` on it yields exactly the decoded payloads at or after the start.
   */
  lemma {:induction false} IterLog(crc: Checksum, data: Bytes, pos: nat, end: nat, m: nat, start: nat, payloads: seq<Bytes>)
    requires end <= |data| && m <= |payloads| && pos <= end
    requires ScanFrom(crc, data, pos) == Scan(end, payloads[m..])
    ensures var j := Max(m, start);
            var step := IterStep(crc, data, pos, end, m, start);
            if j >= |payloads| then step.item == None
            else
              && step.item == Some(match DecodeMessage(payloads[j])
                                   case Ok(c) => Ok(Item(j + 1, c))
                                   case Err(e) => Err(ProtocolFault(e)))
              && step.current == j + 1 && step.readPos <= end
              && ScanFrom(crc, data, step.readPos) == Scan(end, payloads[j + 1..])
    decreases |payloads| - m
  {
    hide PayloadAt, NextPos, DecodeMessage, RecordSize, ScanFrom, LenAt, ValidAt;
    if m < |payloads| {
      ScanHead(crc, data, pos, payloads[m..], end);
      assert payloads[m..][1..] == payloads[m + 1..];
      if m + 1 <= start {
        IterLog(crc, data, NextPos(crc, data, pos), end, m + 1, start, payloads);
      }
    } else {
      ScanNothing(crc, data, pos, end);
    }
  }

  lemma ScanNothing(crc: Checksum, data: Bytes, pos: nat, end: nat)
    requires ScanFrom(crc, data, pos) == Scan(end, [])
    ensures pos == end
  {
  }

  lemma ScanHead(crc: Checksum, data: Bytes, pos: nat, rest: seq<Bytes>, end: nat)
    requires rest != [] && ScanFrom(crc, data, pos) == Scan(end, rest)
    ensures ValidAt(crc, data, pos) && NextPos(crc, data, pos) <= end
    ensures LenAt(data, pos) != 0 && pos + RecordSize(LenAt(data, pos)) <= end
    ensures PayloadAt(crc, data, pos) == rest[0]
    ensures ScanFrom(crc, data, NextPos(crc, data, pos)) == Scan(end, rest[1..])
  {
  }

  /**
   No resurrection: open any file, append commands, reopen, and read on from where the appends
   began. The log is the valid prefix of the original followed by exactly the new records.
   */
  method OpenAppendReopen(crc: Checksum, file: Bytes, size: nat, cmds: seq<Command>, size': nat)
    returns (count: nat, replayed: seq<Command>, reopened: Wal)
    requires AllEncodable(cmds)
    ensures reopened.Valid()
    ensures count == |ScanFrom(crc, Mapped(file, size), 0).payloads|
    ensures reopened.payloads == ScanFrom(crc, Mapped(file, size), 0).payloads + PayloadsOf(cmds)
    ensures replayed == UnstampAll(cmds)
  {
    hide ScanFrom, Opened, Mapped, LogInv, DecodeMessage, CommandBytes, IterStep, PayloadsOf, UnstampAll, Appended,
         RecordBytes, RecordSize, Wrote, Resized, AllEncodable, Wal.File;
    var wal := new Wal.Open(crc, file, size);
    ghost var before := wal.payloads;
    count := wal.recordCount;
    assert before + PayloadsOf([]) == before && cmds[..0] == [];
    for i := 0 to |cmds|
      invariant fresh(wal) && fresh(wal.encodeBuf) && wal.Valid() && wal.crc == crc
      invariant wal.payloads == before + PayloadsOf(cmds[..i])
    {
      var n := wal.Append(cmds[i], Grows);
      assert cmds[..i + 1] == cmds[..i] + [cmds[i]];
      PayloadsAppend(cmds[..i], cmds[i]);
      ConcatAssoc(before, PayloadsOf(cmds[..i]), [CommandBytes(cmds[i])]);
    }
    assert cmds[..|cmds|] == cmds;
    MappedLog(crc, wal.data, wal.writePos, wal.payloads, size');
    reopened := new Wal.Open(crc, wal.data, size');
    replayed := ReadFrom(reopened, count, before, cmds);
  }

  /** Mapping a good log again finds the same records. */
  lemma MappedLog(crc: Checksum, data: Bytes, end: nat, payloads: seq<Bytes>, size: nat)
    requires LogInv(crc, data, end, payloads)
    ensures ScanFrom(crc, Mapped(data, size), 0).payloads == payloads
  {
    hide ScanFrom;
    ResizedInv(crc, data, end, payloads, Max(|data|, size));
  }

  lemma ValidScan(wal: Wal)
    requires wal.Valid()
    ensures ScanFrom(wal.crc, wal.data, 0) == Scan(wal.writePos, wal.payloads[0..]) && wal.writePos <= |wal.data|
  {
    hide ScanFrom;
    assert wal.payloads[0..] == wal.payloads;
  }

  /** Read every record after the first `start`. */
  method ReadFrom(wal: Wal, start: nat, ghost before: seq<Bytes>, ghost cmds: seq<Command>) returns (read: seq<Command>)
    requires wal.Valid() && AllEncodable(cmds)
    requires wal.payloads == before + PayloadsOf(cmds) && start == |before|
    ensures read == UnstampAll(cmds)
  {
    hide ScanFrom, IterStep, DecodeMessage, LogInv, UnstampAll, AllEncodable, PayloadsOf, Wal.Valid;
    ghost var payloads := wal.payloads;
    ghost var all := UnstampAll(cmds);
    ValidScan(wal);
    var it := new WalIterator(wal.crc, wal.data, wal.writePos, start);
    read := [];
    ghost var next := 0;
    while true
      invariant it.crc == wal.crc && it.data == wal.data && it.endPos == wal.writePos && it.startRecord == start
      invariant next == it.currentRecord <= |payloads| && it.readPos <= it.endPos
      invariant ScanFrom(wal.crc, wal.data, it.readPos) == Scan(wal.writePos, payloads[next..])
      invariant |read| == Max(next, start) - start <= |all| && read == all[..|read|]
      decreases |payloads| - next
    {
      IterLog(wal.crc, wal.data, it.readPos, wal.writePos, next, start, payloads);
      ghost var j := Max(next, start);
      if j < |payloads| {
        PayloadDecodes(before, cmds, j);
      }
      var item := it.Next();
      if item.None? {
        break;
      }
      assert item.value.Ok?;
      read := read + [item.value.value.cmd];
      next := j + 1;
    }
    assert all[..|all|] == all;
  }

  lemma PayloadDecodes(before: seq<Bytes>, cmds: seq<Command>, j: nat)
    requires AllEncodable(cmds) && |before| <= j < |before| + |cmds|
    ensures DecodeMessage((before + PayloadsOf(cmds))[j]) == Ok(UnstampAll(cmds)[j - |before|])
  {
    hide DecodeMessage, CommandBytes;
    var c := cmds[j - |before|];
    assert CommandBytes(c) + [] == CommandBytes(c);
    CommandRoundTrip(c, []);
  }
}
