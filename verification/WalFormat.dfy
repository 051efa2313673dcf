/**
 The log as bytes: records of a length, a checksum and a padded payload, walked from the start
 until the first thing that is not a valid record. The checksum is an arbitrary function.
 */
module WalFormat {
  import opened Types
  import opened Bytes
  import opened Bits

  const HEADER_SIZE: nat := 8

  type Checksum = Bytes -> U32

  function RecordSize(payloadLen: nat): nat {
    AlignUp(HEADER_SIZE + payloadLen)
  }

  lemma RecordSizeIs(payloadLen: nat)
    requires payloadLen < TWO32
    ensures HEADER_SIZE + payloadLen <= RecordSize(payloadLen) < HEADER_SIZE + payloadLen + 8
  {
    AlignUpIs(HEADER_SIZE + payloadLen);
  }

  // ---------------------------------------------------------------- scanning

  /** The length word at `pos`. */
  function LenAt(data: Bytes, pos: nat): U32
    requires pos + HEADER_SIZE <= |data|
  {
    BytesU32(data[pos..pos + 4])
  }

  function CrcAt(data: Bytes, pos: nat): U32
    requires pos + HEADER_SIZE <= |data|
  {
    BytesU32(data[pos + 4..pos + 8])
  }

  /** A whole record with a matching checksum starts at `pos` and ends within the file. */
  predicate ValidAt(crc: Checksum, data: Bytes, pos: nat)
    ensures ValidAt(crc, data, pos) ==>
              && pos + HEADER_SIZE <= |data|
              && pos + HEADER_SIZE + LenAt(data, pos) <= pos + RecordSize(LenAt(data, pos)) <= |data|
  {
    && pos + HEADER_SIZE <= |data|
    && var len := LenAt(data, pos);
       && len != 0
       && pos + RecordSize(len) <= |data|
       && (RecordSizeIs(len); CrcAt(data, pos) == crc(data[pos + HEADER_SIZE..pos + HEADER_SIZE + len]))
  }

  function PayloadAt(crc: Checksum, data: Bytes, pos: nat): Bytes
    requires ValidAt(crc, data, pos)
  {
    data[pos + HEADER_SIZE..pos + HEADER_SIZE + LenAt(data, pos)]
  }

  function NextPos(crc: Checksum, data: Bytes, pos: nat): (next: nat)
    requires ValidAt(crc, data, pos)
    ensures pos < next <= |data|
  {
    pos + RecordSize(LenAt(data, pos))
  }

  /** End of the valid log from `pos`, and the payloads before it. */
  datatype Scan = Scan(end: nat, payloads: seq<Bytes>)

  function ScanFrom(crc: Checksum, data: Bytes, pos: nat): (s: Scan)
    ensures pos <= s.end && (pos <= |data| ==> s.end <= |data|)
    decreases if pos <= |data| then |data| - pos else 0
  {
    if ValidAt(crc, data, pos) then
      var rest := ScanFrom(crc, data, NextPos(crc, data, pos));
      Scan(rest.end, [PayloadAt(crc, data, pos)] + rest.payloads)
    else Scan(pos, [])
  }

  /** Records depend only on their own bytes and on fitting in the file. */
  lemma ValidAgrees(crc: Checksum, data: Bytes, data': Bytes, pos: nat)
    requires ValidAt(crc, data, pos)
    requires NextPos(crc, data, pos) <= |data'|
    requires data'[pos..NextPos(crc, data, pos)] == data[pos..NextPos(crc, data, pos)]
    ensures ValidAt(crc, data', pos)
    ensures NextPos(crc, data', pos) == NextPos(crc, data, pos)
    ensures PayloadAt(crc, data', pos) == PayloadAt(crc, data, pos)
  {
    var next := NextPos(crc, data, pos);
    var len: nat := LenAt(data, pos);
    SameSlice(data, data', pos, next, 0, 4);
    SameSlice(data, data', pos, next, 4, 8);
    SameSlice(data, data', pos, next, 8, 8 + len);
  }

  lemma SameSlice(data: Bytes, data': Bytes, a: nat, b: nat, c: nat, d: nat)
    requires a <= b <= |data| && b <= |data'| && data'[a..b] == data[a..b]
    requires c <= d <= b - a
    ensures data'[a + c..a + d] == data[a + c..a + d]
  {
    SliceOfSlice(data, a, b, c, d);
    SliceOfSlice(data', a, b, c, d);
  }

  /** A file that repeats the valid log of another scans the same log, then goes on from its end. */
  lemma {:induction false} ScanAgrees(crc: Checksum, data: Bytes, data': Bytes, pos: nat)
    requires pos <= |data|
    requires var end := ScanFrom(crc, data, pos).end;
             end <= |data'| && data'[..end] == data[..end]
    ensures var s := ScanFrom(crc, data, pos);
            var t := ScanFrom(crc, data', s.end);
            ScanFrom(crc, data', pos) == Scan(t.end, s.payloads + t.payloads)
    decreases |data| - pos
  {
    hide ValidAt, PayloadAt, NextPos;
    if ValidAt(crc, data, pos) {
      var next := NextPos(crc, data, pos);
      PrefixSlice(data, data', ScanFrom(crc, data, pos).end, pos, next);
      ValidAgrees(crc, data, data', pos);
      ScanAgrees(crc, data, data', next);
      var s := ScanFrom(crc, data, next);
      var t := ScanFrom(crc, data', s.end);
      ConcatAssoc([PayloadAt(crc, data, pos)], s.payloads, t.payloads);
    } else {
      ConcatEmpty(ScanFrom(crc, data', pos).payloads);
    }
  }

  lemma PrefixSlice(data: Bytes, data': Bytes, end: nat, a: nat, b: nat)
    requires end <= |data| && end <= |data'| && data'[..end] == data[..end] && a <= b <= end
    ensures data'[a..b] == data[a..b]
  {
    assert data'[a..b] == data'[..end][a..b];
    assert data[a..b] == data[..end][a..b];
  }

  lemma ConcatAssoc<T>(xs: seq<T>, ys: seq<T>, zs: seq<T>)
    ensures xs + (ys + zs) == xs + ys + zs
  {
  }

  lemma ConcatEmpty<T>(xs: seq<T>)
    ensures [] + xs == xs
  {
  }

  ghost predicate ZeroFrom(data: Bytes, pos: nat) {
    forall i :: pos <= i < |data| ==> data[i] == 0
  }

  /** Nothing is valid in the zeroed tail. */
  lemma ZerosStop(crc: Checksum, data: Bytes, pos: nat)
    requires ZeroFrom(data, pos)
    ensures ScanFrom(crc, data, pos) == Scan(pos, [])
  {
    if pos + HEADER_SIZE <= |data| {
      ZeroWord(data[pos..pos + 4]);
    }
  }

  // ---------------------------------------------------------------- encoded records

  /** A record as appended. */
  function RecordBytes(crc: Checksum, payload: Bytes): (r: Bytes)
    requires |payload| < TWO32
    ensures |r| == RecordSize(|payload|)
  {
    RecordSizeIs(|payload|);
    U32Bytes(|payload|) + U32Bytes(crc(payload)) + payload
    + Zeros(RecordSize(|payload|) - HEADER_SIZE - |payload|)
  }

  /** A record whose three fields are known. */
  lemma KnownFields(crc: Checksum, data: Bytes, pos: nat, n: nat, sum: Bytes, payload: Bytes)
    requires 0 < n < TWO32 && |sum| == 4 && |payload| == n && pos + RecordSize(n) <= |data|
    requires pos + HEADER_SIZE + n <= |data|
    requires BytesU32(data[pos..pos + 4]) == n
    requires data[pos + 4..pos + 8] == sum && data[pos + 8..pos + 8 + n] == payload
    ensures ValidAt(crc, data, pos) <==> BytesU32(sum) == crc(payload)
    ensures ValidAt(crc, data, pos) ==>
              NextPos(crc, data, pos) == pos + RecordSize(n) && PayloadAt(crc, data, pos) == payload
  {
    hide BytesU32, RecordSize;
  }

  lemma NoRecord(crc: Checksum, data: Bytes, pos: nat)
    ensures !ValidAt(crc, data, pos) ==> ScanFrom(crc, data, pos) == Scan(pos, [])
  {
  }

  /** A record with nothing valid after it. */
  lemma LastRecord(crc: Checksum, data: Bytes, pos: nat, next: nat)
    requires ValidAt(crc, data, pos) && NextPos(crc, data, pos) == next
    requires ScanFrom(crc, data, next) == Scan(next, [])
    ensures ScanFrom(crc, data, pos) == Scan(next, [PayloadAt(crc, data, pos)])
  {
    hide ValidAt, NextPos, PayloadAt;
    var payload := PayloadAt(crc, data, pos);
    assert [payload] + [] == [payload];
  }

  /** An appended record scans as itself. */
  lemma RecordValid(crc: Checksum, payload: Bytes, data: Bytes, pos: nat)
    requires 0 < |payload| < TWO32
    requires pos + |RecordBytes(crc, payload)| <= |data|
    requires data[pos..pos + |RecordBytes(crc, payload)|] == RecordBytes(crc, payload)
    ensures ValidAt(crc, data, pos)
    ensures NextPos(crc, data, pos) == pos + |RecordBytes(crc, payload)|
    ensures PayloadAt(crc, data, pos) == payload
  {
    RecordSizeIs(|payload|);
    var rec := RecordBytes(crc, payload);
    var n := |payload|;
    RecordFields(crc, payload);
    hide RecordBytes, U32Bytes, BytesU32, RecordSize, ValidAt, NextPos, PayloadAt;
    SliceOfSlice(data, pos, pos + |rec|, 0, 4);
    SliceOfSlice(data, pos, pos + |rec|, 4, 8);
    SliceOfSlice(data, pos, pos + |rec|, 8, 8 + n);
    U32RoundTrip(n);
    U32RoundTrip(crc(payload));
    KnownFields(crc, data, pos, n, U32Bytes(crc(payload)), payload);
  }

  lemma RecordFields(crc: Checksum, payload: Bytes)
    requires |payload| < TWO32
    ensures HEADER_SIZE + |payload| <= |RecordBytes(crc, payload)|
    ensures RecordBytes(crc, payload)[0..4] == U32Bytes(|payload|)
    ensures RecordBytes(crc, payload)[4..8] == U32Bytes(crc(payload))
    ensures RecordBytes(crc, payload)[8..8 + |payload|] == payload
  {
    hide U32Bytes;
    RecordSizeIs(|payload|);
  }

  // ---------------------------------------------------------------- the file format

  /** A record: length, checksum, payload, zeros up to the next multiple of 8. */
  lemma RecordFormat(crc: Checksum, payload: Bytes)
    requires |payload| < TWO32
    ensures var (rec, n) := (RecordBytes(crc, payload), |payload|);
            && |rec| == (8 + n + 7) / 8 * 8
            && FromLE(rec[0..4]) == n && FromLE(rec[4..8]) == crc(payload)
            && rec[8..8 + n] == payload
            && forall i :: 8 + n <= i < |rec| ==> rec[i] == 0
  {
    hide U32Bytes, FromLE;
    AlignUpIs(8 + |payload|);
    RecordFields(crc, payload);
    ShortWordOf(|payload|);
    ShortWordOf(crc(payload));
  }

  /** When a record starts at `pos`: it is whole, not empty, and its checksum is that of its payload. */
  lemma ValidFormat(crc: Checksum, data: Bytes, pos: nat)
    ensures ValidAt(crc, data, pos) <==>
            && pos + 8 <= |data|
            && var len := FromLE(data[pos..pos + 4]);
               && len != 0 && pos + (8 + len + 7) / 8 * 8 <= |data|
               && FromLE(data[pos + 4..pos + 8]) == crc(data[pos + 8..pos + 8 + len])
    ensures ValidAt(crc, data, pos) ==>
              var len := FromLE(data[pos..pos + 4]);
              && NextPos(crc, data, pos) == pos + (8 + len + 7) / 8 * 8
              && PayloadAt(crc, data, pos) == data[pos + 8..pos + 8 + len]
  {
    hide FromLE;
    if pos + 8 <= |data| {
      AlignUpIs(8 + LenAt(data, pos));
    }
  }
}
