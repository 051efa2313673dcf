/**
 The checksum of the log, CRC-32 as in section 8 of RFC 1952, as far as one collision needs it:
 five bytes equal to the polynomial cancel out, so a torn record can be accepted with another
 order id, or without a quantity, on which recovery refuses.
 */
module Crc32 {
  import opened Types
  import opened Bytes
  import opened Protocol
  import opened WalFormat
  import opened WalLog
  import opened Snapshots
  import opened Recovery
  import CM = CrashMachine

  function Xor(a: bv32, b: bv32): bv32 {
    a ^ b
  }

  function BitStep(s: bv32): bv32 {
    if s & 1 == 1 then (s >> 1) ^ 0xEDB8_8320 else s >> 1
  }

  function ByteStep(s: bv32): bv32 {
    BitStep(BitStep(BitStep(BitStep(BitStep(BitStep(BitStep(BitStep(s))))))))
  }

  function Word(b: U8): bv32 {
    b as bv32
  }

  /** The register after some bytes. */
  function Update(s: bv32, bs: Bytes): bv32
    decreases |bs|
  {
    if bs == [] then s else Update(ByteStep(Xor(s, Word(bs[0]))), bs[1..])
  }

  function Value(s: bv32): U32 {
    s as int
  }

  function Crc(bs: Bytes): U32 {
    Value(Xor(Update(0xFFFF_FFFF, bs), 0xFFFF_FFFF))
  }

  // ---------------------------------------------------------------- linearity

  lemma ShiftXor(a: bv32, b: bv32)
    ensures (a ^ b) >> 1 == (a >> 1) ^ (b >> 1)
  {
  }

  lemma LowBitXor(a: bv32, b: bv32)
    ensures (a ^ b) & 1 == (a & 1) ^ (b & 1)
  {
  }

  lemma LowBit(a: bv32)
    ensures a & 1 == 0 || a & 1 == 1
  {
  }

  lemma XorRegroup(a: bv32, b: bv32, p: bv32)
    ensures (a ^ p) ^ b == (a ^ b) ^ p
    ensures a ^ (b ^ p) == (a ^ b) ^ p
    ensures (a ^ p) ^ (b ^ p) == a ^ b
  {
  }

  lemma XorAssociates(a: bv32, b: bv32, c: bv32)
    ensures Xor(Xor(a, b), c) == Xor(a, Xor(b, c)) && Xor(a, 0) == a
  {
  }

  lemma BitStepLinear(a: bv32, b: bv32)
    ensures BitStep(Xor(a, b)) == Xor(BitStep(a), BitStep(b))
  {
    ShiftXor(a, b);
    LowBitXor(a, b);
    LowBit(a);
    LowBit(b);
    XorRegroup(a >> 1, b >> 1, 0xEDB8_8320);
  }

  lemma ByteStepLinear(a: bv32, b: bv32)
    ensures ByteStep(Xor(a, b)) == Xor(ByteStep(a), ByteStep(b))
  {
    hide BitStep, Xor;
    var (a1, b1) := (BitStep(a), BitStep(b));
    var (a2, b2) := (BitStep(a1), BitStep(b1));
    var (a3, b3) := (BitStep(a2), BitStep(b2));
    var (a4, b4) := (BitStep(a3), BitStep(b3));
    var (a5, b5) := (BitStep(a4), BitStep(b4));
    var (a6, b6) := (BitStep(a5), BitStep(b5));
    BitStepLinear(a, b);
    BitStepLinear(a1, b1);
    BitStepLinear(a2, b2);
    BitStepLinear(a3, b3);
    BitStepLinear(a4, b4);
    BitStepLinear(a5, b5);
    BitStepLinear(a6, b6);
    BitStepLinear(BitStep(a6), BitStep(b6));
  }

  /** Two registers that differ by `d` read the bytes `b` and 0, and then differ by `d'`. */
  lemma DifferenceStep(v: bv32, d: bv32, b: bv32, d': bv32)
    requires ByteStep(Xor(d, b)) == d'
    ensures ByteStep(Xor(Xor(v, d), b)) == Xor(ByteStep(Xor(v, 0)), d')
  {
    hide ByteStep, Xor;
    XorAssociates(v, d, b);
    ByteStepLinear(v, Xor(d, b));
  }

  /** The difference made by the bytes of the polynomial, byte by byte, until none is left. */
  lemma Differences()
    ensures ByteStep(Xor(0, 0x41)) == 0x01DB_7106
    ensures ByteStep(Xor(0x01DB_7106, 0x06)) == 0x0001_DB71
    ensures ByteStep(Xor(0x0001_DB71, 0x71)) == 0x0000_01DB
    ensures ByteStep(Xor(0x0000_01DB, 0xDB)) == 0x0000_0001
    ensures ByteStep(Xor(0x0000_0001, 0x01)) == 0
  {
  }

  // ---------------------------------------------------------------- messages

  lemma {:induction false} UpdateConcat(s: bv32, xs: Bytes, ys: Bytes)
    ensures Update(s, xs + ys) == Update(Update(s, xs), ys)
    decreases |xs|
  {
    hide ByteStep, Word, Xor;
    if xs == [] {
      assert xs + ys == ys;
    } else {
      assert (xs + ys)[1..] == xs[1..] + ys;
      UpdateConcat(ByteStep(Xor(s, Word(xs[0]))), xs[1..], ys);
    }
  }

  function Five(s: bv32, a: bv32, b: bv32, c: bv32, d: bv32, e: bv32): bv32 {
    ByteStep(Xor(ByteStep(Xor(ByteStep(Xor(ByteStep(Xor(ByteStep(Xor(s, a)), b)), c)), d)), e))
  }

  lemma FiveBytes(s: bv32, bs: Bytes)
    requires |bs| == 5
    ensures Update(s, bs) == Five(s, Word(bs[0]), Word(bs[1]), Word(bs[2]), Word(bs[3]), Word(bs[4]))
  {
    hide ByteStep, Word, Xor;
    var s1 := ByteStep(Xor(s, Word(bs[0])));
    var s2 := ByteStep(Xor(s1, Word(bs[1])));
    var s3 := ByteStep(Xor(s2, Word(bs[2])));
    var s4 := ByteStep(Xor(s3, Word(bs[3])));
    assert Update(s, bs) == Update(s1, bs[1..]);
    assert bs[1..][1..] == bs[2..];
    assert Update(s1, bs[1..]) == Update(s2, bs[2..]);
    assert bs[2..][1..] == bs[3..];
    assert Update(s2, bs[2..]) == Update(s3, bs[3..]);
    assert bs[3..][1..] == bs[4..];
    assert Update(s3, bs[3..]) == Update(s4, bs[4..]);
    var s5 := ByteStep(Xor(s4, Word(bs[4])));
    assert bs[4..][1..] == [];
    assert Update(s4, bs[4..]) == Update(s5, []) == s5;
  }

  lemma FiveCancel(s: bv32)
    ensures Five(s, 0x41, 0x06, 0x71, 0xDB, 0x01) == Five(s, 0, 0, 0, 0, 0)
  {
    hide ByteStep, Xor;
    Differences();
    var v1 := ByteStep(Xor(s, 0));
    var v2 := ByteStep(Xor(v1, 0));
    var v3 := ByteStep(Xor(v2, 0));
    var v4 := ByteStep(Xor(v3, 0));
    XorAssociates(s, 0, 0);
    DifferenceStep(s, 0, 0x41, 0x01DB_7106);
    DifferenceStep(v1, 0x01DB_7106, 0x06, 0x0001_DB71);
    DifferenceStep(v2, 0x0001_DB71, 0x71, 0x0000_01DB);
    DifferenceStep(v3, 0x0000_01DB, 0xDB, 0x0000_0001);
    DifferenceStep(v4, 0x0000_0001, 0x01, 0);
    XorAssociates(ByteStep(Xor(v4, 0)), 0, 0);
  }

  lemma PolynomialWords()
    ensures Word(0x41) == 0x41 && Word(0x06) == 0x06 && Word(0x71) == 0x71 && Word(0xDB) == 0xDB && Word(0x01) == 0x01
    ensures Word(0) == 0
  {
  }

  const POLYNOMIAL: Bytes := [0x41, 0x06, 0x71, 0xDB, 0x01]
  const LOST: Bytes := [0, 0, 0, 0, 0]

  /** Losing the bytes of the polynomial anywhere in a message leaves its checksum as it was. */
  lemma Crc32Collides(before: Bytes, after: Bytes)
    ensures Crc(before + POLYNOMIAL + after) == Crc(before + LOST + after)
  {
    hide ByteStep, Word, Five, Update, Xor;
    var s := Update(0xFFFF_FFFF, before);
    PolynomialWords();
    FiveBytes(s, POLYNOMIAL);
    FiveBytes(s, LOST);
    FiveCancel(s);
    UpdateConcat(0xFFFF_FFFF, before, POLYNOMIAL);
    UpdateConcat(0xFFFF_FFFF, before, LOST);
    UpdateConcat(0xFFFF_FFFF, before + POLYNOMIAL, after);
    UpdateConcat(0xFFFF_FFFF, before + LOST, after);
  }

  const COLLIDING_WORD: U64 := 0x1_DB71_0641

  lemma WordBytes()
    ensures U64Bytes(COLLIDING_WORD) == POLYNOMIAL + [0, 0, 0] && U64Bytes(0) == LOST + [0, 0, 0]
  {
    hide LE;
    ZeroWordBytes(3);
    ZeroWordBytes(8);
    NextByte(0x01, 0, 3);
    NextByte(0xDB, 0x01, 4);
    NextByte(0x71, 0x1DB, 5);
    NextByte(0x06, 0x1_DB71, 6);
    NextByte(0x41, 0x1DB_7106, 7);
  }

  lemma NextByte(low: U8, high: nat, k: nat)
    ensures LE(256 * high + low, k + 1) == [low] + LE(high, k)
  {
  }

  lemma {:induction false} ZeroWordBytes(k: nat)
    ensures LE(0, k) == Zeros(k)
  {
    if k > 0 {
      ZeroWordBytes(k - 1);
    }
  }

  lemma SplitAtId(o: Order, id: Bytes)
    requires U64Bytes(o.id) == id + [0, 0, 0]
    ensures NewOrderBytes(o) ==
            [MSG_NEW_ORDER, EncodeSide(o.side)] + Zeros(6) + id
            + ([0, 0, 0] + U64Bytes(o.traderId) + I64Bytes(o.price) + U64Bytes(o.quantity))
  {
    hide U64Bytes, I64Bytes, Zeros;
  }

  /** An order with that id and one without any id have the same checksum. */
  lemma SameChecksum(o: Order)
    requires o.id == COLLIDING_WORD
    ensures Crc(NewOrderBytes(o)) == Crc(NewOrderBytes(o.(id := 0)))
    ensures Torn(NewOrderBytes(o), NewOrderBytes(o.(id := 0)))
  {
    hide Crc, U64Bytes, I64Bytes, Zeros, NewOrderBytes;
    WordBytes();
    SplitAtId(o, POLYNOMIAL);
    SplitAtId(o.(id := 0), LOST);
    var before := [MSG_NEW_ORDER, EncodeSide(o.side)] + Zeros(6);
    var after := [0, 0, 0] + U64Bytes(o.traderId) + I64Bytes(o.price) + U64Bytes(o.quantity);
    Crc32Collides(before, after);
    TornMiddle(before, POLYNOMIAL, LOST, after);
  }

  lemma TornMiddle(before: Bytes, full: Bytes, torn: Bytes, after: Bytes)
    requires Torn(full, torn)
    ensures Torn(before + full + after, before + torn + after)
  {
  }

  /**
   Such a tear is accepted under CRC-32: the record of an order with the colliding id, with the
   bytes of the id lost, reads back as an order with id 0.
   */
  lemma Crc32AcceptsTorn(o: Order)
    requires o.id == COLLIDING_WORD && o.quantity > 0
    ensures var torn := RecordBytes(Crc, NewOrderBytes(o.(id := 0)));
            && Torn(RecordBytes(Crc, NewOrderBytes(o)), torn)
            && Accepted(Crc, NEW_ORDER_SIZE, torn)
            && DecodeMessage(torn[8..8 + NEW_ORDER_SIZE]) == Ok(NewOrder(o.(id := 0, timestamp := 0)))
  {
    hide Crc, U64Bytes, I64Bytes, NewOrderBytes, BytesU32, U32Bytes, DecodeMessage, RecordBytes, Torn;
    var o' := o.(id := 0);
    SameChecksum(o);
    RecordTorn(NewOrderBytes(o), NewOrderBytes(o'));
    RecordFields(Crc, NewOrderBytes(o'));
    U32RoundTrip(NEW_ORDER_SIZE);
    U32RoundTrip(Crc(NewOrderBytes(o')));
    CommandRoundTrip(NewOrder(o'), []);
    assert NewOrderBytes(o') + [] == NewOrderBytes(o');
  }

  lemma RecordTorn(full: Bytes, torn: Bytes)
    requires Torn(full, torn) && Crc(full) == Crc(torn) && |full| < TWO32
    ensures Torn(RecordBytes(Crc, full), RecordBytes(Crc, torn))
  {
    hide Crc, U32Bytes;
    RecordSizeIs(|full|);
    TornMiddle(U32Bytes(|full|) + U32Bytes(Crc(full)), full, torn, Zeros(RecordSize(|full|) - HEADER_SIZE - |full|));
  }

  /** CRC-32 does not reject every torn record. */
  lemma Crc32NotRejecting()
    ensures !RejectsTorn(Crc)
  {
    hide Crc, U64Bytes, I64Bytes, NewOrderBytes, BytesU32, U32Bytes, DecodeMessage, RecordBytes, Torn, Accepted;
    var o := Order(COLLIDING_WORD, 0, Bid, 1, 1, 0);
    Crc32AcceptsTorn(o);
    var torn := RecordBytes(Crc, NewOrderBytes(o.(id := 0)));
    RecordSizeIs(NEW_ORDER_SIZE);
    LostId(o, torn);
    assert CommandBytes(NewOrder(o)) == NewOrderBytes(o) != torn[8..8 + NEW_ORDER_SIZE];
    assert Torn(RecordBytes(Crc, CommandBytes(NewOrder(o))), torn);
  }

  /** From any running state with faithful records, one crash under CRC-32 can log a command nobody submitted. */
  lemma Crc32Unfaithful(cfg: CM.Config, s: CM.State, o: Order) returns (s': CM.State, torn: Bytes)
    requires cfg.crc == Crc && s.phase.Running? && CM.Faithful(s) && o.id == COLLIDING_WORD && o.quantity > 0
    ensures CM.CrashAppending(cfg, s, s', NewOrder(o), torn) && !CM.Faithful(s')
    ensures s'.log == s.log + [NewOrder(o.(id := 0, timestamp := 0))] && s'.submitted == s.submitted + [NewOrder(o)]
  {
    hide Crc, NewOrderBytes, DecodeMessage, RecordBytes, Torn, Accepted, CM.Faithful, Wrote, Overwritten;
    torn := RecordBytes(Crc, NewOrderBytes(o.(id := 0)));
    Crc32AcceptsTorn(o);
    RecordSizeIs(NEW_ORDER_SIZE);
    WroteOver(s.disk.wal, s.phase.writePos, torn);
    s' := CM.State(s.disk.(wal := Overwritten(s.disk.wal, s.phase.writePos, torn)), CM.Down([]),
                   s.log + [NewOrder(o.(id := 0, timestamp := 0))], s.submitted + [NewOrder(o)]);
    CM.TearExactly(cfg, s, s', NewOrder(o), torn);
    LostId(o, torn);
  }

  /** A file cut or extended to end with `bytes` at `pos`. */
  ghost function Overwritten(file: Bytes, pos: nat, bytes: Bytes): Bytes {
    Written(SetLen(file, pos + |bytes|), pos, bytes)
  }

  lemma WroteOver(file: Bytes, pos: nat, bytes: Bytes)
    ensures Wrote(file, pos, bytes, Overwritten(file, pos, bytes))
  {
    hide Written, SetLen;
    assert WroteAt(file, pos, bytes, Overwritten(file, pos, bytes), pos + |bytes|);
  }

  // ---------------------------------------------------------------- a refused recovery

  lemma SplitAtQuantity(o: Order, quantity: Bytes)
    requires U64Bytes(o.quantity) == quantity + [0, 0, 0]
    ensures NewOrderBytes(o) ==
            ([MSG_NEW_ORDER, EncodeSide(o.side)] + Zeros(6) + U64Bytes(o.id) + U64Bytes(o.traderId) + I64Bytes(o.price))
            + quantity + [0, 0, 0]
  {
    hide U64Bytes, I64Bytes, Zeros;
  }

  /** The record of an order with the colliding quantity, those bytes lost, is accepted and does not decode. */
  lemma Crc32AcceptsUndecodable(o: Order)
    requires o.quantity == COLLIDING_WORD
    ensures var torn := RecordBytes(Crc, NewOrderBytes(o.(quantity := 0)));
            && Torn(RecordBytes(Crc, NewOrderBytes(o)), torn)
            && Accepted(Crc, NEW_ORDER_SIZE, torn)
            && DecodeMessage(torn[8..8 + NEW_ORDER_SIZE]) == Err(NoQuantity)
  {
    hide Crc, U64Bytes, I64Bytes, Zeros, NewOrderBytes, BytesU32, U32Bytes, DecodeMessage, RecordBytes, Torn;
    var o' := o.(quantity := 0);
    WordBytes();
    SplitAtQuantity(o, POLYNOMIAL);
    SplitAtQuantity(o', LOST);
    var before := [MSG_NEW_ORDER, EncodeSide(o.side)] + Zeros(6) + U64Bytes(o.id) + U64Bytes(o.traderId) + I64Bytes(o.price);
    Crc32Collides(before, [0, 0, 0]);
    LostIsTorn();
    TornMiddle(before, POLYNOMIAL, LOST, [0, 0, 0]);
    RecordTorn(NewOrderBytes(o), NewOrderBytes(o'));
    RecordFields(Crc, NewOrderBytes(o'));
    U32RoundTrip(NEW_ORDER_SIZE);
    U32RoundTrip(Crc(NewOrderBytes(o')));
    CommandRoundTrip(NewOrder(o'), []);
    assert NewOrderBytes(o') + [] == NewOrderBytes(o');
  }

  lemma LostIsTorn()
    ensures Torn(POLYNOMIAL, LOST)
  {
  }

  /**
   From any good running state, one crash under CRC-32 can leave a log that no later recovery
   accepts, whatever snapshots it finds.
   */
  lemma Crc32Refuses(cfg: CM.Config, s: CM.State, o: Order) returns (s': CM.State, torn: Bytes)
    requires cfg.crc == Crc && CM.Inv(cfg, s) && s.phase.Running? && o.quantity == COLLIDING_WORD
    ensures CM.CrashAppending(cfg, s, s', NewOrder(o), torn) && s'.phase.Down? && s'.phase.tail != []
    ensures forall files: seq<SnapshotFile>, size: nat | CM.Lists(cfg.sum, files, s'.disk.snapshots) ::
              RecoverModel(cfg.crc, cfg.sum, files, s'.disk.wal, cfg.capacity, size).Refused?
  {
    hide Crc, NewOrderBytes, DecodeMessage, RecordBytes, Torn, Accepted, CM.Inv, Wrote, Overwritten, RecoverModel, CM.Lists;
    torn := RecordBytes(Crc, NewOrderBytes(o.(quantity := 0)));
    Crc32AcceptsUndecodable(o);
    RecordSizeIs(NEW_ORDER_SIZE);
    WroteOver(s.disk.wal, s.phase.writePos, torn);
    s' := CM.State(s.disk.(wal := Overwritten(s.disk.wal, s.phase.writePos, torn)),
                   CM.Down([torn[8..8 + NEW_ORDER_SIZE]]), s.log, s.submitted + [NewOrder(o)]);
    CM.TornKeeps(cfg, s, s', NewOrder(o), torn);
    forall files: seq<SnapshotFile>, size: nat | CM.Lists(cfg.sum, files, s'.disk.snapshots)
      ensures RecoverModel(cfg.crc, cfg.sum, files, s'.disk.wal, cfg.capacity, size).Refused?
    {
      CM.RecoveryCorrect(cfg, s', files, size);
    }
  }

  lemma LostId(o: Order, torn: Bytes)
    requires o.id == COLLIDING_WORD && o.quantity > 0 && |torn| >= 8 + NEW_ORDER_SIZE
    requires DecodeMessage(torn[8..8 + NEW_ORDER_SIZE]) == Ok(NewOrder(o.(id := 0, timestamp := 0)))
    ensures torn[8..8 + NEW_ORDER_SIZE] != NewOrderBytes(o)
  {
    hide NewOrderBytes, DecodeMessage;
    CommandRoundTrip(NewOrder(o), []);
    assert NewOrderBytes(o) + [] == NewOrderBytes(o);
  }
}
