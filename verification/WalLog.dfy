/**
 What opening, appending, growing, truncating and crashing do to the bytes of the log, and the
 invariant they keep: every byte past the end is zero and a rescan finds exactly the log.
 */
module WalLog {
  import opened Types
  import opened Bytes
  import opened Protocol
  import opened WalFormat

  ghost predicate LogInv(crc: Checksum, data: Bytes, end: nat, payloads: seq<Bytes>) {
    && end <= |data|
    && ZeroFrom(data, end)
    && ScanFrom(crc, data, 0) == Scan(end, payloads)
  }

  /** Truncate or zero-extend a file. */
  function SetLen(file: Bytes, n: nat): (r: Bytes)
    ensures |r| == n && forall i :: 0 <= i < n ==> r[i] == if i < |file| then file[i] else 0
  {
    if n <= |file| then file[..n] else file + Zeros(n - |file|)
  }

  function Max(a: nat, b: nat): nat {
    if a > b then a else b
  }

  /** The payloads under which commands are logged. */
  function PayloadsOf(log: seq<Command>): (r: seq<Bytes>)
    ensures |r| == |log|
  {
    seq(|log|, i requires 0 <= i < |log| => CommandBytes(log[i]))
  }

  lemma PayloadsAppend(log: seq<Command>, c: Command)
    ensures PayloadsOf(log + [c]) == PayloadsOf(log) + [CommandBytes(c)]
  {
  }

  // ---------------------------------------------------------------- opening

  /** The file as mapped before it is scanned. */
  function Mapped(file: Bytes, initialSize: nat): Bytes {
    SetLen(file, Max(|file|, initialSize))
  }

  /** The file after its scan discarded everything past the valid log. */
  function Opened(crc: Checksum, file: Bytes, initialSize: nat): Bytes {
    var mapped := Mapped(file, initialSize);
    SetLen(SetLen(mapped, ScanFrom(crc, mapped, 0).end), |mapped|)
  }

  /** A log followed only by zeros satisfies the invariant. */
  lemma CutInv(crc: Checksum, data: Bytes, data': Bytes)
    requires var end := ScanFrom(crc, data, 0).end;
             end <= |data'| && data'[..end] == data[..end] && ZeroFrom(data', end)
    ensures LogInv(crc, data', ScanFrom(crc, data, 0).end, ScanFrom(crc, data, 0).payloads)
  {
    hide ScanFrom, ZeroFrom;
    var s := ScanFrom(crc, data, 0);
    ScanAgrees(crc, data, data', 0);
    ZerosStop(crc, data', s.end);
    assert s.payloads + [] == s.payloads;
  }

  /** For any file, opening keeps exactly the valid records of the zero-extended file. */
  lemma OpenInv(crc: Checksum, file: Bytes, initialSize: nat)
    ensures var s := ScanFrom(crc, Mapped(file, initialSize), 0);
            LogInv(crc, Opened(crc, file, initialSize), s.end, s.payloads)
  {
    hide ScanFrom;
    CutInv(crc, Mapped(file, initialSize), Opened(crc, file, initialSize));
  }

  /** Cutting or zero-extending a log behind its end leaves its records alone. */
  lemma ResizedInv(crc: Checksum, data: Bytes, end: nat, payloads: seq<Bytes>, n: nat)
    requires LogInv(crc, data, end, payloads) && n >= end
    ensures LogInv(crc, SetLen(data, n), end, payloads)
  {
    hide ScanFrom;
    CutInv(crc, data, SetLen(data, n));
  }

  // ---------------------------------------------------------------- appending

  /** Doubling growth, as far as the record needs it. */
  function Grown(data: Bytes, pos: nat, needed: nat): (r: Bytes)
    ensures |r| >= |data| && |r| >= pos + needed
  {
    if pos + needed <= |data| then data else SetLen(data, Max(2 * |data|, pos + needed))
  }

  function Written(data: Bytes, pos: nat, rec: Bytes): (r: Bytes)
    requires pos + |rec| <= |data|
    ensures |r| == |data|
    ensures forall i :: 0 <= i < |data| ==> r[i] == if pos <= i < pos + |rec| then rec[i - pos] else data[i]
  {
    data[..pos] + rec + data[pos + |rec|..]
  }

  function Appended(crc: Checksum, data: Bytes, pos: nat, payload: Bytes): Bytes
    requires |payload| < TWO32
  {
    Written(Grown(data, pos, RecordSize(|payload|)), pos, RecordBytes(crc, payload))
  }

  /** `file'` is `file`, resized to some length that has room, with `bytes` written at `pos`. */
  ghost predicate Wrote(file: Bytes, pos: nat, bytes: Bytes, file': Bytes) {
    exists n: nat :: WroteAt(file, pos, bytes, file', n)
  }

  ghost predicate WroteAt(file: Bytes, pos: nat, bytes: Bytes, file': Bytes, n: nat) {
    pos + |bytes| <= n && file' == Written(SetLen(file, n), pos, bytes)
  }

  /** `file'` is `file` resized to some length that keeps the log. */
  ghost predicate Resized(file: Bytes, pos: nat, file': Bytes) {
    pos <= |file'| && file' == SetLen(file, |file'|)
  }

  lemma GrownInv(crc: Checksum, data: Bytes, end: nat, payloads: seq<Bytes>, needed: nat)
    requires LogInv(crc, data, end, payloads)
    ensures LogInv(crc, Grown(data, end, needed), end, payloads)
  {
    hide LogInv;
    var n := |Grown(data, end, needed)|;
    if end + needed > |data| {
      ResizedInv(crc, data, end, payloads, n);
    }
  }

  /** Writing in the zeroed tail leaves the records before it and zeros after it. */
  lemma WrittenTail(data: Bytes, pos: nat, rec: Bytes)
    requires pos + |rec| <= |data| && ZeroFrom(data, pos)
    ensures var data' := Written(data, pos, rec);
            && |data'| == |data| && data'[..pos] == data[..pos] && data'[pos..pos + |rec|] == rec
            && ZeroFrom(data', pos + |rec|)
  {
  }

  /** Appending adds exactly one record. */
  lemma AppendInv(crc: Checksum, data: Bytes, end: nat, payloads: seq<Bytes>, payload: Bytes)
    requires LogInv(crc, data, end, payloads) && 0 < |payload| < TWO32
    ensures LogInv(crc, Appended(crc, data, end, payload), end + RecordSize(|payload|), payloads + [payload])
  {
    hide Grown, Written, RecordBytes, LogInv, RecordSize;
    var rec := RecordBytes(crc, payload);
    GrownInv(crc, data, end, payloads, |rec|);
    WrittenInv(crc, Grown(data, end, |rec|), end, payloads, payload);
  }

  lemma WrittenInv(crc: Checksum, data: Bytes, end: nat, payloads: seq<Bytes>, payload: Bytes)
    requires LogInv(crc, data, end, payloads) && 0 < |payload| < TWO32
    requires end + |RecordBytes(crc, payload)| <= |data|
    ensures LogInv(crc, Written(data, end, RecordBytes(crc, payload)), end + RecordSize(|payload|), payloads + [payload])
  {
    hide Written, RecordBytes, ZeroFrom, RecordSize, ScanFrom;
    var rec := RecordBytes(crc, payload);
    WrittenTail(data, end, rec);
    AppendedScan(crc, data, Written(data, end, rec), end, payloads, payload);
  }

  /** The same, however long the file is made for it. */
  lemma WroteInv(crc: Checksum, file: Bytes, file': Bytes, end: nat, payloads: seq<Bytes>, payload: Bytes)
    requires LogInv(crc, file, end, payloads) && 0 < |payload| < TWO32
    requires Wrote(file, end, RecordBytes(crc, payload), file')
    ensures LogInv(crc, file', end + RecordSize(|payload|), payloads + [payload])
  {
    hide Written, RecordBytes, LogInv, RecordSize, SetLen;
    var n: nat :| WroteAt(file, end, RecordBytes(crc, payload), file', n);
    ResizedInv(crc, file, end, payloads, n);
    WrittenInv(crc, SetLen(file, n), end, payloads, payload);
  }

  lemma AppendedScan(crc: Checksum, data: Bytes, data': Bytes, end: nat, payloads: seq<Bytes>, payload: Bytes)
    requires LogInv(crc, data, end, payloads) && 0 < |payload| < TWO32
    requires end + |RecordBytes(crc, payload)| <= |data'| && data'[..end] == data[..end]
    requires data'[end..end + |RecordBytes(crc, payload)|] == RecordBytes(crc, payload)
    requires ZeroFrom(data', end + |RecordBytes(crc, payload)|)
    ensures LogInv(crc, data', end + |RecordBytes(crc, payload)|, payloads + [payload])
  {
    hide ZeroFrom, RecordBytes, ValidAt, NextPos, PayloadAt, ScanFrom;
    RecordValid(crc, payload, data', end);
    ZerosStop(crc, data', end + |RecordBytes(crc, payload)|);
    ScanAgrees(crc, data, data', 0);
    LastRecord(crc, data', end, end + |RecordBytes(crc, payload)|);
  }

  // ---------------------------------------------------------------- torn appends

  /** Some bytes of `full` were written over zeros, the others were not. */
  ghost predicate Torn(full: Bytes, torn: Bytes) {
    |torn| == |full| && forall i :: 0 <= i < |full| ==> torn[i] == full[i] || torn[i] == 0
  }

  /** A short length survives a tear or vanishes. */
  lemma TornLength(n: nat, torn: Bytes)
    requires n < 256 && Torn(U32Bytes(n), torn)
    ensures BytesU32(torn) == n || BytesU32(torn) == 0
  {
    assert LE(0, 3) == [0, 0, 0] by { assert LE(0, 2) == [0, 0]; }
    assert U32Bytes(n) == [n, 0, 0, 0];
    assert FromLE(torn[1..]) == 0 by { ZeroWord(torn[1..]); }
    assert FromLE(torn) == torn[0];
  }

  lemma TornSize(full: Bytes, torn: Bytes)
    requires Torn(full, torn)
    ensures |torn| == |full|
  {
  }

  lemma TornSlice(full: Bytes, torn: Bytes, a: nat, b: nat)
    requires Torn(full, torn) && a <= b <= |full|
    ensures Torn(full[a..b], torn[a..b])
  {
  }

  /** Enough of the record survived the tear for the scan to accept it. */
  predicate Accepted(crc: Checksum, n: nat, torn: Bytes) {
    && |torn| >= 8 + n
    && BytesU32(torn[0..4]) != 0
    && BytesU32(torn[4..8]) == crc(torn[8..8 + n])
  }

  /** A torn record at the end of the log scans as no record or as one record of the same size. */
  lemma TornScan(crc: Checksum, data': Bytes, end: nat, payload: Bytes, torn: Bytes)
    requires 0 < |payload| < 256
    requires Torn(RecordBytes(crc, payload), torn)
    requires end + |torn| <= |data'| && data'[end..end + |torn|] == torn && ZeroFrom(data', end + |torn|)
    ensures |torn| >= 8 + |payload|
    ensures ScanFrom(crc, data', end) ==
            if Accepted(crc, |payload|, torn) then Scan(end + |torn|, [torn[8..8 + |payload|]]) else Scan(end, [])
  {
    var n := |payload|;
    RecordFields(crc, payload);
    TornSlice(RecordBytes(crc, payload), torn, 0, 4);
    TornLength(n, torn[0..4]);
    hide Torn, RecordBytes, ZeroFrom, U32Bytes, BytesU32, ScanFrom;
    TornFields(data', end, torn, n);
    TornCase(crc, data', end, torn, n);
  }

  lemma TornFields(data': Bytes, end: nat, torn: Bytes, n: nat)
    requires end + |torn| <= |data'| && data'[end..end + |torn|] == torn && 8 + n <= |torn|
    ensures data'[end..end + 4] == torn[0..4]
    ensures data'[end + 4..end + 8] == torn[4..8]
    ensures data'[end + 8..end + 8 + n] == torn[8..8 + n]
  {
    SliceOfSlice(data', end, end + |torn|, 0, 4);
    SliceOfSlice(data', end, end + |torn|, 4, 8);
    SliceOfSlice(data', end, end + |torn|, 8, 8 + n);
  }

  lemma TornValid(crc: Checksum, data': Bytes, end: nat, torn: Bytes, n: nat)
    requires 0 < n < 256 && |torn| == RecordSize(n) && 8 + n <= |torn| && end + |torn| <= |data'|
    requires data'[end..end + 4] == torn[0..4]
    requires data'[end + 4..end + 8] == torn[4..8]
    requires data'[end + 8..end + 8 + n] == torn[8..8 + n]
    requires BytesU32(torn[0..4]) == n || BytesU32(torn[0..4]) == 0
    ensures ValidAt(crc, data', end) <==> Accepted(crc, n, torn)
    ensures ValidAt(crc, data', end) ==>
              NextPos(crc, data', end) == end + |torn| && PayloadAt(crc, data', end) == torn[8..8 + n]
  {
    hide BytesU32, RecordSize;
    if BytesU32(torn[0..4]) == n {
      hide ValidAt, NextPos, PayloadAt;
      KnownFields(crc, data', end, n, torn[4..8], torn[8..8 + n]);
    }
  }

  lemma TornCase(crc: Checksum, data': Bytes, end: nat, torn: Bytes, n: nat)
    requires 0 < n < 256 && |torn| == RecordSize(n) && 8 + n <= |torn|
    requires end + |torn| <= |data'| && ZeroFrom(data', end + |torn|)
    requires data'[end..end + 4] == torn[0..4]
    requires data'[end + 4..end + 8] == torn[4..8]
    requires data'[end + 8..end + 8 + n] == torn[8..8 + n]
    requires BytesU32(torn[0..4]) == n || BytesU32(torn[0..4]) == 0
    ensures ScanFrom(crc, data', end) ==
            if Accepted(crc, n, torn) then Scan(end + |torn|, [torn[8..8 + n]]) else Scan(end, [])
  {
    hide ZeroFrom, BytesU32, RecordSize, Accepted, ValidAt, NextPos, PayloadAt, ScanFrom;
    TornValid(crc, data', end, torn, n);
    NoRecord(crc, data', end);
    if ValidAt(crc, data', end) {
      ZerosStop(crc, data', end + |torn|);
      LastRecord(crc, data', end, end + |torn|);
    }
  }

  /**
   Reopening after a torn append keeps every earlier record and finds at most one more, whatever
   the checksum function is and however long the file was made.
   */
  lemma TornReopen(crc: Checksum, data: Bytes, file: Bytes, end: nat, payloads: seq<Bytes>, payload: Bytes, torn: Bytes,
                   size: nat)
    requires LogInv(crc, data, end, payloads) && 0 < |payload| < 256
    requires Torn(RecordBytes(crc, payload), torn) && Wrote(data, end, torn, file)
    ensures |torn| == RecordSize(|payload|) >= 8 + |payload|
    ensures ScanFrom(crc, Mapped(file, size), 0) ==
            if Accepted(crc, |payload|, torn) then Scan(end + |torn|, payloads + [torn[8..8 + |payload|]])
            else Scan(end, payloads)
  {
    hide Written, RecordBytes, Torn, ScanFrom, RecordSize, Accepted, ZeroFrom, SetLen;
    TornSize(RecordBytes(crc, payload), torn);
    var n: nat :| WroteAt(data, end, torn, file, n);
    var grown := SetLen(data, n);
    ResizedInv(crc, data, end, payloads, n);
    WrittenTail(grown, end, torn);
    var mapped := Mapped(file, size);
    MappedKeeps(file, size, end, torn);
    ScanAgrees(crc, grown, mapped, 0);
    TornScan(crc, mapped, end, payload, torn);
    assert payloads + [] == payloads;
  }

  lemma MappedKeeps(file: Bytes, size: nat, end: nat, rec: Bytes)
    requires end + |rec| <= |file| && file[end..end + |rec|] == rec && ZeroFrom(file, end + |rec|)
    ensures var mapped := Mapped(file, size);
            && |mapped| >= |file| && mapped[..end] == file[..end]
            && mapped[end..end + |rec|] == rec && ZeroFrom(mapped, end + |rec|)
  {
  }

  /** The checksum tells a torn record of a command from the whole one. */
  ghost predicate RejectsTorn(crc: Checksum) {
    forall c: Command, torn: Bytes |
      Torn(RecordBytes(crc, CommandBytes(c)), torn) && Accepted(crc, |CommandBytes(c)|, torn) ::
      torn[8..8 + |CommandBytes(c)|] == CommandBytes(c)
  }

  function NonZero(bs: Bytes): (n: nat)
    ensures n <= |bs|
  {
    if bs == [] then 0 else (if bs[0] == 0 then 0 else 1) + NonZero(bs[1..])
  }

  lemma {:induction false} TornLosesBytes(full: Bytes, torn: Bytes)
    requires Torn(full, torn)
    ensures NonZero(torn) <= NonZero(full)
    ensures torn != full ==> NonZero(torn) < NonZero(full)
    decreases |full|
  {
    if full != [] {
      TornLosesBytes(full[1..], torn[1..]);
      assert full == [full[0]] + full[1..] && torn == [torn[0]] + torn[1..];
    }
  }

  /** A checksum that rejects every torn record exists: one more than the number of non-zero bytes. */
  function CountingChecksum(bs: Bytes): U32 {
    if NonZero(bs) + 1 < TWO32 then NonZero(bs) + 1 else 0
  }

  lemma CountingRejectsTorn()
    ensures RejectsTorn(CountingChecksum)
  {
    var crc := CountingChecksum;
    forall c: Command, torn: Bytes |
      Torn(RecordBytes(crc, CommandBytes(c)), torn) && Accepted(crc, |CommandBytes(c)|, torn)
      ensures torn[8..8 + |CommandBytes(c)|] == CommandBytes(c)
    {
      CountingRejects(CommandBytes(c), torn);
    }
  }

  lemma CountingRejects(payload: Bytes, torn: Bytes)
    requires |payload| < 100
    requires Torn(RecordBytes(CountingChecksum, payload), torn) && Accepted(CountingChecksum, |payload|, torn)
    ensures torn[8..8 + |payload|] == payload
  {
    var full := RecordBytes(CountingChecksum, payload);
    var n := |payload|;
    RecordFields(CountingChecksum, payload);
    TornSlice(full, torn, 4, 8);
    TornSlice(full, torn, 8, 8 + n);
    hide RecordBytes, Torn, U32Bytes, BytesU32;
    TornLength(CountingChecksum(payload), torn[4..8]);
    TornLosesBytes(payload, torn[8..8 + n]);
  }

  // ---------------------------------------------------------------- truncating

  /** Byte offset just past the first `m` records. */
  function Boundary(crc: Checksum, data: Bytes, pos: nat, m: nat): (r: nat)
    ensures pos <= r
    decreases m
  {
    if m == 0 || !ValidAt(crc, data, pos) then pos else Boundary(crc, data, NextPos(crc, data, pos), m - 1)
  }

  /** Zero the bytes from `offset` to the old end, if there are any. */
  function Truncated(data: Bytes, offset: nat, end: nat): (r: Bytes)
    requires end <= |data|
    ensures |r| == |data|
    ensures forall i :: 0 <= i < |data| ==> r[i] == if offset <= i < end then 0 else data[i]
  {
    if offset < end then data[..offset] + Zeros(end - offset) + data[end..] else data
  }

  lemma {:induction false} BoundaryScan(crc: Checksum, data: Bytes, data': Bytes, pos: nat, m: nat)
    requires pos <= |data| && m <= |ScanFrom(crc, data, pos).payloads|
    requires var b := Boundary(crc, data, pos, m);
             b <= |data'| && b <= |data| && data'[..b] == data[..b] && ZeroFrom(data', b)
    ensures ScanFrom(crc, data', pos) ==
            Scan(Boundary(crc, data, pos, m), ScanFrom(crc, data, pos).payloads[..m])
    decreases m
  {
    hide ScanFrom, Boundary, ValidAt, PayloadAt, NextPos, ZeroFrom;
    BoundarySteps(crc, data, pos, m);
    if m == 0 {
      ZerosStop(crc, data', pos);
    } else {
      var next := NextPos(crc, data, pos);
      PrefixSlice(data, data', Boundary(crc, data, pos, m), pos, next);
      ValidAgrees(crc, data, data', pos);
      BoundaryScan(crc, data, data', next, m - 1);
      BoundarySteps(crc, data', pos, 0);
      ConsTake(PayloadAt(crc, data, pos), ScanFrom(crc, data, next).payloads, m);
    }
  }

  lemma BoundarySteps(crc: Checksum, data: Bytes, pos: nat, m: nat)
    requires m <= |ScanFrom(crc, data, pos).payloads|
    ensures m == 0 ==> Boundary(crc, data, pos, m) == pos
    ensures m > 0 ==> ValidAt(crc, data, pos)
    ensures ValidAt(crc, data, pos) ==>
              var rest := ScanFrom(crc, data, NextPos(crc, data, pos));
              && ScanFrom(crc, data, pos) == Scan(rest.end, [PayloadAt(crc, data, pos)] + rest.payloads)
              && (m > 0 ==> Boundary(crc, data, pos, m) == Boundary(crc, data, NextPos(crc, data, pos), m - 1))
  {
    hide ValidAt, PayloadAt, NextPos;
  }

  lemma ConsTake<T>(x: T, xs: seq<T>, m: nat)
    requires 0 < m <= |xs| + 1
    ensures ([x] + xs)[..m] == [x] + xs[..m - 1]
  {
  }

  lemma {:induction false} BoundaryBound(crc: Checksum, data: Bytes, pos: nat, m: nat)
    requires pos <= |data|
    ensures Boundary(crc, data, pos, m) <= ScanFrom(crc, data, pos).end
    decreases m
  {
    hide ValidAt, NextPos, PayloadAt;
    if m > 0 && ValidAt(crc, data, pos) {
      BoundaryBound(crc, data, NextPos(crc, data, pos), m - 1);
    }
  }

  /** Truncating at a record boundary leaves exactly the records before it. */
  lemma TruncateInv(crc: Checksum, data: Bytes, end: nat, payloads: seq<Bytes>, m: nat)
    requires LogInv(crc, data, end, payloads) && m <= |payloads|
    ensures Boundary(crc, data, 0, m) <= end
    ensures LogInv(crc, Truncated(data, Boundary(crc, data, 0, m), end), Boundary(crc, data, 0, m), payloads[..m])
  {
    BoundaryBound(crc, data, 0, m);
    hide ScanFrom, Boundary;
    BoundaryScan(crc, data, Truncated(data, Boundary(crc, data, 0, m), end), 0, m);
  }

  /** A scan of the truncated file that ends at `offset` ended at a record boundary. */
  lemma {:induction false} BoundaryFound(crc: Checksum, data: Bytes, data': Bytes, pos: nat, offset: nat)
    requires pos <= offset <= ScanFrom(crc, data, pos).end <= |data| == |data'|
    requires data'[..offset] == data[..offset]
    requires ScanFrom(crc, data', pos).end == offset
    ensures var m := |ScanFrom(crc, data', pos).payloads|;
            m <= |ScanFrom(crc, data, pos).payloads| && offset == Boundary(crc, data, pos, m)
    decreases offset - pos
  {
    hide ScanFrom, Boundary, ValidAt, PayloadAt, NextPos;
    BoundarySteps(crc, data, pos, 0);
    BoundarySteps(crc, data', pos, 0);
    NoRecord(crc, data, pos);
    NoRecord(crc, data', pos);
    if offset > pos {
      var next := NextPos(crc, data, pos);
      if next <= offset {
        PrefixSlice(data, data', offset, pos, next);
        ValidAgrees(crc, data, data', pos);
        BoundaryFound(crc, data, data', next, offset);
        BoundarySteps(crc, data, pos, |ScanFrom(crc, data', pos).payloads|);
      } else {
        CutRecord(crc, data, data', pos, offset);
      }
    }
  }

  /** Inside a record there is no boundary. */
  lemma CutRecord(crc: Checksum, data: Bytes, data': Bytes, pos: nat, offset: nat)
    requires ValidAt(crc, data, pos) && pos < offset < NextPos(crc, data, pos)
    requires |data'| == |data| && data'[..offset] == data[..offset]
    ensures ScanFrom(crc, data', pos).end != offset
  {
    hide PayloadAt;
    if ValidAt(crc, data', pos) {
      var next := NextPos(crc, data', pos);
      RecordSizeIs(LenAt(data', pos));
      if offset >= pos + 4 {
        PrefixSlice(data, data', offset, pos, pos + 4);
      }
      assert next > offset;
    }
  }

  /** Truncation keeps the log invariant exactly at the record boundary of the count it is given. */
  lemma TruncateExactly(crc: Checksum, data: Bytes, end: nat, payloads: seq<Bytes>, offset: nat, count: nat)
    requires LogInv(crc, data, end, payloads)
    ensures (exists ps :: |ps| == count && LogInv(crc, Truncated(data, offset, end), offset, ps)) <==>
            count <= |payloads| && offset == Boundary(crc, data, 0, count)
  {
    assert end <= |data|;
    hide ScanFrom, Boundary, LogInv;
    if count <= |payloads| && offset == Boundary(crc, data, 0, count) {
      TruncateInv(crc, data, end, payloads, count);
      assert LogInv(crc, Truncated(data, offset, end), offset, payloads[..count]);
    }
    if ps :| |ps| == count && LogInv(crc, Truncated(data, offset, end), offset, ps) {
      TruncatedAt(crc, data, end, payloads, offset, ps);
    }
  }

  lemma TruncatedAt(crc: Checksum, data: Bytes, end: nat, payloads: seq<Bytes>, offset: nat, ps: seq<Bytes>)
    requires LogInv(crc, data, end, payloads) && LogInv(crc, Truncated(data, offset, end), offset, ps)
    ensures |ps| <= |payloads| && offset == Boundary(crc, data, 0, |ps|)
  {
    hide ScanFrom, Boundary, ZeroFrom;
    BoundaryFound(crc, data, Truncated(data, offset, end), 0, offset);
  }
}
