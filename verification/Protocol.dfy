/** The wire protocol: fixed-size messages with little-endian fields and zeroed reserved bytes. */
module Protocol {
  import opened Types
  import opened Bytes

  const MSG_NEW_ORDER: U8 := 0x01
  const MSG_CANCEL_ORDER: U8 := 0x02
  const MSG_EXECUTION_REPORT: U8 := 0x03

  const NEW_ORDER_SIZE: nat := 40
  const CANCEL_ORDER_SIZE: nat := 16
  const EXECUTION_REPORT_SIZE: nat := 48

  datatype ProtocolError = BufferTooShort | UnknownMessageType(t: U8) | InvalidSide(s: U8) | NoQuantity

  datatype ExecutionReport = ExecutionReport(
    seqNum: U32, takerOrderId: OrderId, makerOrderId: OrderId, price: Price, quantity: U64, timestamp: Timestamp)

  // ---------------------------------------------------------------- readers

  function ReadU8(buf: Bytes, offset: nat): Result<U8, ProtocolError> {
    if offset < |buf| then Ok(buf[offset]) else Err(BufferTooShort)
  }

  function ReadU32(buf: Bytes, offset: nat): (r: Result<U32, ProtocolError>)
    ensures r.Ok? <==> offset + 4 <= |buf|
  {
    if offset + 4 <= |buf| then Ok(BytesU32(buf[offset..offset + 4])) else Err(BufferTooShort)
  }

  function ReadU64(buf: Bytes, offset: nat): (r: Result<U64, ProtocolError>)
    ensures r.Ok? <==> offset + 8 <= |buf|
  {
    if offset + 8 <= |buf| then Ok(BytesU64(buf[offset..offset + 8])) else Err(BufferTooShort)
  }

  function ReadI64(buf: Bytes, offset: nat): (r: Result<I64, ProtocolError>)
    ensures r.Ok? <==> offset + 8 <= |buf|
  {
    if offset + 8 <= |buf| then Ok(BytesI64(buf[offset..offset + 8])) else Err(BufferTooShort)
  }

  function DecodeSide(val: U8): Result<Side, ProtocolError> {
    if val == 0 then Ok(Bid) else if val == 1 then Ok(Ask) else Err(InvalidSide(val))
  }

  function EncodeSide(side: Side): U8 {
    if side.Bid? then 0 else 1
  }

  // ---------------------------------------------------------------- messages

  function DecodeNewOrder(buf: Bytes): Result<Order, ProtocolError> {
    if |buf| < NEW_ORDER_SIZE then Err(BufferTooShort)
    else
      match DecodeSide(ReadU8(buf, 1).value)
      case Err(e) => Err(e)
      case Ok(side) =>
        var quantity := ReadU64(buf, 32).value;
        if quantity == 0 then Err(NoQuantity)
        else Ok(Order(ReadU64(buf, 8).value, ReadU64(buf, 16).value, side, ReadI64(buf, 24).value, quantity, 0))
  }

  function DecodeCancelOrder(buf: Bytes): Result<OrderId, ProtocolError> {
    if |buf| < CANCEL_ORDER_SIZE then Err(BufferTooShort) else ReadU64(buf, 8)
  }

  function DecodeMessage(buf: Bytes): Result<Command, ProtocolError> {
    match ReadU8(buf, 0)
    case Err(e) => Err(e)
    case Ok(t) =>
      if t == MSG_NEW_ORDER then
        match DecodeNewOrder(buf) { case Ok(o) => Ok(NewOrder(o)) case Err(e) => Err(e) }
      else if t == MSG_CANCEL_ORDER then
        match DecodeCancelOrder(buf) { case Ok(id) => Ok(CancelOrder(id)) case Err(e) => Err(e) }
      else Err(UnknownMessageType(t))
  }

  function MessageSize(t: U8): Result<nat, ProtocolError> {
    if t == MSG_NEW_ORDER then Ok(NEW_ORDER_SIZE)
    else if t == MSG_CANCEL_ORDER then Ok(CANCEL_ORDER_SIZE)
    else Err(UnknownMessageType(t))
  }

  /** The bytes of a new-order message. */
  function NewOrderBytes(o: Order): (r: Bytes)
    ensures |r| == NEW_ORDER_SIZE
  {
    [MSG_NEW_ORDER, EncodeSide(o.side)] + Zeros(6) + U64Bytes(o.id) + U64Bytes(o.traderId) + I64Bytes(o.price)
    + U64Bytes(o.quantity)
  }

  function CancelOrderBytes(id: OrderId): (r: Bytes)
    ensures |r| == CANCEL_ORDER_SIZE
  {
    [MSG_CANCEL_ORDER] + Zeros(7) + U64Bytes(id)
  }

  function CommandBytes(c: Command): (r: Bytes)
    ensures |r| == if c.NewOrder? then NEW_ORDER_SIZE else CANCEL_ORDER_SIZE
  {
    match c
    case NewOrder(o) => NewOrderBytes(o)
    case CancelOrder(id) => CancelOrderBytes(id)
  }

  /** The report of one fill. */
  function ReportOf(f: Fill, seqNum: U32, timestamp: Timestamp): ExecutionReport {
    ExecutionReport(seqNum, f.takerOrderId, f.makerOrderId, f.price, f.quantity, timestamp)
  }

  function ReportBytes(r: ExecutionReport): (bs: Bytes)
    ensures |bs| == EXECUTION_REPORT_SIZE
  {
    [MSG_EXECUTION_REPORT] + Zeros(3) + U32Bytes(r.seqNum) + U64Bytes(r.takerOrderId) + U64Bytes(r.makerOrderId)
    + I64Bytes(r.price) + U64Bytes(r.quantity) + U64Bytes(r.timestamp)
  }

  function DecodeExecutionReport(buf: Bytes): Result<ExecutionReport, ProtocolError> {
    if |buf| < EXECUTION_REPORT_SIZE then Err(BufferTooShort)
    else
      Ok(ExecutionReport(ReadU32(buf, 4).value, ReadU64(buf, 8).value, ReadU64(buf, 16).value,
                         ReadI64(buf, 24).value, ReadU64(buf, 32).value, ReadU64(buf, 40).value))
  }

  // ---------------------------------------------------------------- encoding in place

  ghost function Splice(buf: Bytes, offset: nat, bytes: Bytes): Bytes
    requires offset + |bytes| <= |buf|
  {
    buf[..offset] + bytes + buf[offset + |bytes|..]
  }

  /** Copy `bytes` into the buffer at `offset`, if they fit. */
  method WriteAt(buf: array<U8>, offset: nat, bytes: Bytes) returns (ok: bool)
    modifies buf
    ensures ok == (offset + |bytes| <= buf.Length)
    ensures buf[..] == if ok then Splice(old(buf[..]), offset, bytes) else old(buf[..])
  {
    ok := offset + |bytes| <= buf.Length;
    if ok {
      for i := 0 to |bytes|
        invariant buf[..offset] == old(buf[..offset])
        invariant buf[offset..offset + i] == bytes[..i]
        invariant buf[offset + i..] == old(buf[offset + i..])
      {
        buf[offset + i] := bytes[i];
      }
      assert buf[..] == buf[..offset] + buf[offset..offset + |bytes|] + buf[offset + |bytes|..];
    }
  }

  /** Writing into the zeroed part of a message extends its written part. */
  lemma Advance(done: Bytes, n: nat, rest: Bytes, bytes: Bytes)
    requires |bytes| <= n
    ensures Splice(done + Zeros(n) + rest, |done|, bytes) == (done + bytes) + Zeros(n - |bytes|) + rest
  {
  }

  lemma SkipReserved(done: Bytes, n: nat, rest: Bytes, k: nat)
    requires k <= n
    ensures done + Zeros(n) + rest == (done + Zeros(k)) + Zeros(n - k) + rest
  {
  }

  lemma ZeroedStart(buf: Bytes, n: nat)
    requires n <= |buf|
    ensures Splice(buf, 0, Zeros(n)) == [] + Zeros(n) + buf[n..]
  {
  }

  /** The message so far: `done` is written, `n` zero bytes are to come, then the untouched rest. */
  ghost predicate Partial(buf: Bytes, done: Bytes, n: nat, rest: Bytes) {
    buf == done + Zeros(n) + rest
  }

  method StartMessage(buf: array<U8>, n: nat)
    requires n <= buf.Length
    modifies buf
    ensures Partial(buf[..], [], n, old(buf[..])[n..])
  {
    ZeroedStart(buf[..], n);
    var ok := WriteAt(buf, 0, Zeros(n));
  }

  method PutField(buf: array<U8>, offset: nat, bytes: Bytes, ghost done: Bytes, ghost n: nat, ghost rest: Bytes)
    requires Partial(buf[..], done, n, rest) && offset == |done| && |bytes| <= n
    modifies buf
    ensures Partial(buf[..], done + bytes, n - |bytes|, rest)
  {
    Advance(done, n, rest, bytes);
    var ok := WriteAt(buf, offset, bytes);
  }

  /** Encode a new order over the first bytes of the buffer. */
  method EncodeNewOrder(buf: array<U8>, o: Order) returns (r: Result<nat, ProtocolError>)
    modifies buf
    ensures r == if buf.Length < NEW_ORDER_SIZE then Err(BufferTooShort) else Ok(NEW_ORDER_SIZE)
    ensures r.Err? ==> buf[..] == old(buf[..])
    ensures r.Ok? ==> buf[..] == NewOrderBytes(o) + old(buf[..])[NEW_ORDER_SIZE..]
    ensures r.Ok? ==> r.value == 40 && NewOrderMessage(buf[..40], o)
  {
    NewOrderFormat(o);
    if buf.Length < NEW_ORDER_SIZE {
      return Err(BufferTooShort);
    }
    hide U64Bytes, I64Bytes, Partial, Zeros, NewOrderBytes, NewOrderMessage;
    ghost var rest := buf[..][NEW_ORDER_SIZE..];
    StartMessage(buf, NEW_ORDER_SIZE);
    PutField(buf, 0, [MSG_NEW_ORDER], [], 40, rest);
    PutField(buf, 1, [EncodeSide(o.side)], [] + [MSG_NEW_ORDER], 39, rest);
    ghost var head := NewOrderHead(buf[..], o, rest);
    PutField(buf, 8, U64Bytes(o.id), head, 32, rest);
    PutField(buf, 16, U64Bytes(o.traderId), head + U64Bytes(o.id), 24, rest);
    ghost var ids := head + U64Bytes(o.id) + U64Bytes(o.traderId);
    PutField(buf, 24, I64Bytes(o.price), ids, 16, rest);
    PutField(buf, 32, U64Bytes(o.quantity), ids + I64Bytes(o.price), 8, rest);
    NewOrderDone(buf[..], o, rest);
    assert buf[..40] == NewOrderBytes(o);
    r := Ok(NEW_ORDER_SIZE);
  }

  lemma NewOrderHead(buf: Bytes, o: Order, rest: Bytes) returns (head: Bytes)
    requires Partial(buf, [] + [MSG_NEW_ORDER] + [EncodeSide(o.side)], 38, rest)
    ensures head == [MSG_NEW_ORDER, EncodeSide(o.side)] + Zeros(6) && |head| == 8
    ensures Partial(buf, head, 32, rest)
  {
    head := [MSG_NEW_ORDER, EncodeSide(o.side)] + Zeros(6);
    SkipReserved([MSG_NEW_ORDER, EncodeSide(o.side)], 38, rest, 6);
    assert [] + [MSG_NEW_ORDER] + [EncodeSide(o.side)] == [MSG_NEW_ORDER, EncodeSide(o.side)];
  }

  lemma NewOrderDone(buf: Bytes, o: Order, rest: Bytes)
    requires Partial(buf,
                     [MSG_NEW_ORDER, EncodeSide(o.side)] + Zeros(6) + U64Bytes(o.id) + U64Bytes(o.traderId)
                     + I64Bytes(o.price) + U64Bytes(o.quantity), 0, rest)
    ensures buf == NewOrderBytes(o) + rest
  {
    hide U64Bytes, I64Bytes;
    assert NewOrderBytes(o) + Zeros(0) == NewOrderBytes(o);
  }

  method EncodeCancelOrder(buf: array<U8>, id: OrderId) returns (r: Result<nat, ProtocolError>)
    modifies buf
    ensures r == if buf.Length < CANCEL_ORDER_SIZE then Err(BufferTooShort) else Ok(CANCEL_ORDER_SIZE)
    ensures r.Err? ==> buf[..] == old(buf[..])
    ensures r.Ok? ==> buf[..] == CancelOrderBytes(id) + old(buf[..])[CANCEL_ORDER_SIZE..]
    ensures r.Ok? ==> r.value == 16 && CancelMessage(buf[..16], id)
  {
    CancelFormat(id);
    if buf.Length < CANCEL_ORDER_SIZE {
      return Err(BufferTooShort);
    }
    ghost var rest := buf[..][CANCEL_ORDER_SIZE..];
    StartMessage(buf, CANCEL_ORDER_SIZE);
    PutField(buf, 0, [MSG_CANCEL_ORDER], [], 16, rest);
    hide U64Bytes, Partial, Zeros, CancelOrderBytes, CancelMessage;
    ghost var head := CancelHead(buf[..], rest);
    PutField(buf, 8, U64Bytes(id), head, 8, rest);
    CancelDone(buf[..], id, rest);
    assert buf[..16] == CancelOrderBytes(id);
    r := Ok(CANCEL_ORDER_SIZE);
  }

  lemma CancelHead(buf: Bytes, rest: Bytes) returns (head: Bytes)
    requires Partial(buf, [] + [MSG_CANCEL_ORDER], 15, rest)
    ensures head == [MSG_CANCEL_ORDER] + Zeros(7) && |head| == 8
    ensures Partial(buf, head, 8, rest)
  {
    head := [MSG_CANCEL_ORDER] + Zeros(7);
    SkipReserved([MSG_CANCEL_ORDER], 15, rest, 7);
    assert [] + [MSG_CANCEL_ORDER] == [MSG_CANCEL_ORDER];
  }

  lemma CancelDone(buf: Bytes, id: OrderId, rest: Bytes)
    requires Partial(buf, [MSG_CANCEL_ORDER] + Zeros(7) + U64Bytes(id), 0, rest)
    ensures buf == CancelOrderBytes(id) + rest
  {
    hide U64Bytes;
    assert CancelOrderBytes(id) + Zeros(0) == CancelOrderBytes(id);
  }

  /** Encode the report of a fill over the first bytes of the buffer. */
  method EncodeExecutionReport(buf: array<U8>, seqNum: U32, fill: Fill, timestamp: Timestamp)
    returns (r: Result<nat, ProtocolError>)
    modifies buf
    ensures r == if buf.Length < EXECUTION_REPORT_SIZE then Err(BufferTooShort) else Ok(EXECUTION_REPORT_SIZE)
    ensures r.Err? ==> buf[..] == old(buf[..])
    ensures r.Ok? ==>
              buf[..] == ReportBytes(ReportOf(fill, seqNum, timestamp)) + old(buf[..])[EXECUTION_REPORT_SIZE..]
    ensures r.Ok? ==> r.value == 48 && ReportMessage(buf[..48], seqNum, fill, timestamp)
  {
    hide ReportMessage, U32Bytes, U64Bytes, I64Bytes, Partial, Zeros, ReportBytes;
    if buf.Length < EXECUTION_REPORT_SIZE {
      return Err(BufferTooShort);
    }
    ghost var rest := buf[..][EXECUTION_REPORT_SIZE..];
    StartMessage(buf, EXECUTION_REPORT_SIZE);
    PutField(buf, 0, [MSG_EXECUTION_REPORT], [], 48, rest);
    ghost var head := ReportHead(buf[..], rest);
    PutField(buf, 4, U32Bytes(seqNum), head, 44, rest);
    ghost var front := head + U32Bytes(seqNum);
    PutField(buf, 8, U64Bytes(fill.takerOrderId), front, 40, rest);
    PutField(buf, 16, U64Bytes(fill.makerOrderId), front + U64Bytes(fill.takerOrderId), 32, rest);
    ghost var ids := front + U64Bytes(fill.takerOrderId) + U64Bytes(fill.makerOrderId);
    PutField(buf, 24, I64Bytes(fill.price), ids, 24, rest);
    PutField(buf, 32, U64Bytes(fill.quantity), ids + I64Bytes(fill.price), 16, rest);
    PutField(buf, 40, U64Bytes(timestamp), ids + I64Bytes(fill.price) + U64Bytes(fill.quantity), 8, rest);
    ReportDone(buf[..], ReportOf(fill, seqNum, timestamp), rest);
    ReportFormat(fill, seqNum, timestamp);
    assert buf[..48] == ReportBytes(ReportOf(fill, seqNum, timestamp));
    r := Ok(EXECUTION_REPORT_SIZE);
  }

  lemma ReportHead(buf: Bytes, rest: Bytes) returns (head: Bytes)
    requires Partial(buf, [] + [MSG_EXECUTION_REPORT], 47, rest)
    ensures head == [MSG_EXECUTION_REPORT] + Zeros(3) && |head| == 4
    ensures Partial(buf, head, 44, rest)
  {
    head := [MSG_EXECUTION_REPORT] + Zeros(3);
    SkipReserved([MSG_EXECUTION_REPORT], 47, rest, 3);
    assert [] + [MSG_EXECUTION_REPORT] == [MSG_EXECUTION_REPORT];
  }

  lemma ReportDone(buf: Bytes, r: ExecutionReport, rest: Bytes)
    requires Partial(buf,
                     [MSG_EXECUTION_REPORT] + Zeros(3) + U32Bytes(r.seqNum) + U64Bytes(r.takerOrderId)
                     + U64Bytes(r.makerOrderId) + I64Bytes(r.price) + U64Bytes(r.quantity) + U64Bytes(r.timestamp),
                     0, rest)
    ensures buf == ReportBytes(r) + rest
  {
    hide U32Bytes, U64Bytes, I64Bytes;
    assert ReportBytes(r) + Zeros(0) == ReportBytes(r);
  }

  /** What a decoded command keeps of the command that was encoded. */
  function Unstamped(c: Command): Command {
    match c
    case NewOrder(o) => NewOrder(o.(timestamp := 0))
    case CancelOrder(id) => c
  }

  ghost predicate Encodable(c: Command) {
    c.NewOrder? ==> c.order.quantity > 0
  }

  // ---------------------------------------------------------------- round trips

  lemma NewOrderFields(o: Order, tail: Bytes)
    ensures var buf := NewOrderBytes(o) + tail;
            && buf[0] == MSG_NEW_ORDER && buf[1] == EncodeSide(o.side)
            && buf[8..16] == U64Bytes(o.id)
            && buf[16..24] == U64Bytes(o.traderId)
            && buf[24..32] == I64Bytes(o.price)
            && buf[32..40] == U64Bytes(o.quantity)
  {
    hide U64Bytes, I64Bytes;
    var front := [MSG_NEW_ORDER, EncodeSide(o.side)] + Zeros(6) + U64Bytes(o.id) + U64Bytes(o.traderId);
    var back := I64Bytes(o.price) + U64Bytes(o.quantity) + tail;
    assert NewOrderBytes(o) + tail == front + back;
    assert front[8..16] == U64Bytes(o.id) && front[16..24] == U64Bytes(o.traderId);
    assert back[0..8] == I64Bytes(o.price) && back[8..16] == U64Bytes(o.quantity);
    forall a: nat, b: nat | 24 <= a <= b <= 40
      ensures (front + back)[a..b] == back[a - 24..b - 24]
    {
    }
    forall a: nat, b: nat | a <= b <= 24
      ensures (front + back)[a..b] == front[a..b]
    {
    }
  }

  /** A new order decodes to itself without its timestamp; a zero quantity is refused. */
  lemma NewOrderRoundTrip(o: Order, tail: Bytes)
    ensures DecodeNewOrder(NewOrderBytes(o) + tail) ==
            if o.quantity == 0 then Err(NoQuantity) else Ok(o.(timestamp := 0))
  {
    hide NewOrderBytes, U64Bytes, I64Bytes, BytesU64, BytesI64;
    NewOrderFields(o, tail);
    U64RoundTrip(o.id);
    U64RoundTrip(o.traderId);
    I64RoundTrip(o.price);
    U64RoundTrip(o.quantity);
  }

  lemma CancelRoundTrip(id: OrderId, tail: Bytes)
    ensures DecodeCancelOrder(CancelOrderBytes(id) + tail) == Ok(id)
    ensures (CancelOrderBytes(id) + tail)[0] == MSG_CANCEL_ORDER
  {
    hide U64Bytes, BytesU64;
    assert (CancelOrderBytes(id) + tail)[8..16] == U64Bytes(id);
    U64RoundTrip(id);
  }

  /**
   Decoding inverts encoding exactly on the commands with a positive quantity, whatever follows
   them; an order without quantity encodes but is refused when read back.
   */
  lemma CommandRoundTrip(c: Command, tail: Bytes)
    ensures DecodeMessage(CommandBytes(c) + tail) == if Encodable(c) then Ok(Unstamped(c)) else Err(NoQuantity)
  {
    hide NewOrderBytes, CancelOrderBytes, DecodeNewOrder, DecodeCancelOrder;
    match c
    case NewOrder(o) =>
      NewOrderFields(o, tail);
      NewOrderRoundTrip(o, tail);
    case CancelOrder(id) => CancelRoundTrip(id, tail);
  }

  /** The canonical form of a message: its size, reserved bytes zeroed, excess dropped. */
  function Normalized(buf: Bytes): Bytes
    requires |buf| >= 16 && (buf[0] == MSG_NEW_ORDER ==> |buf| >= 40)
  {
    if buf[0] == MSG_NEW_ORDER then [buf[0], buf[1]] + Zeros(6) + buf[8..40]
    else [buf[0]] + Zeros(7) + buf[8..16]
  }

  /** Encoding inverts decoding up to the reserved bytes and the excess. */
  lemma DecodeEncode(buf: Bytes)
    requires DecodeMessage(buf).Ok?
    ensures |buf| >= 16 && (buf[0] == MSG_NEW_ORDER ==> |buf| >= 40)
    ensures CommandBytes(DecodeMessage(buf).value) == Normalized(buf)
    ensures Encodable(DecodeMessage(buf).value)
  {
    hide NewOrderBytes, CancelOrderBytes, DecodeNewOrder, DecodeCancelOrder;
    if buf[0] == MSG_NEW_ORDER {
      DecodeEncodeNew(buf);
    } else {
      DecodeEncodeCancel(buf);
    }
  }

  lemma DecodeEncodeNew(buf: Bytes)
    requires DecodeNewOrder(buf).Ok?
    ensures |buf| >= 40
    ensures NewOrderBytes(DecodeNewOrder(buf).value) == [MSG_NEW_ORDER, buf[1]] + Zeros(6) + buf[8..40]
    ensures DecodeNewOrder(buf).value.quantity > 0
  {
    hide U64Bytes, I64Bytes, BytesU64, BytesI64;
    assert buf[8..40] == buf[8..16] + buf[16..24] + buf[24..32] + buf[32..40];
  }

  lemma DecodeEncodeCancel(buf: Bytes)
    requires DecodeCancelOrder(buf).Ok?
    ensures |buf| >= 16
    ensures CancelOrderBytes(DecodeCancelOrder(buf).value) == [MSG_CANCEL_ORDER] + Zeros(7) + buf[8..16]
  {
    hide U64Bytes, BytesU64;
  }

  lemma ReportFields(r: ExecutionReport, tail: Bytes)
    ensures var buf := ReportBytes(r) + tail;
            && buf[4..8] == U32Bytes(r.seqNum)
            && buf[8..16] == U64Bytes(r.takerOrderId)
            && buf[16..24] == U64Bytes(r.makerOrderId)
            && buf[24..32] == I64Bytes(r.price)
            && buf[32..40] == U64Bytes(r.quantity)
            && buf[40..48] == U64Bytes(r.timestamp)
  {
    hide U32Bytes, U64Bytes, I64Bytes;
    var front := [MSG_EXECUTION_REPORT] + Zeros(3) + U32Bytes(r.seqNum) + U64Bytes(r.takerOrderId)
                 + U64Bytes(r.makerOrderId);
    var back := I64Bytes(r.price) + U64Bytes(r.quantity) + U64Bytes(r.timestamp) + tail;
    assert ReportBytes(r) + tail == front + back;
    assert front[4..8] == U32Bytes(r.seqNum) && front[8..16] == U64Bytes(r.takerOrderId);
    assert front[16..24] == U64Bytes(r.makerOrderId);
    assert back[0..8] == I64Bytes(r.price) && back[8..16] == U64Bytes(r.quantity);
    assert back[16..24] == U64Bytes(r.timestamp);
    forall a: nat, b: nat | 24 <= a <= b <= 48
      ensures (front + back)[a..b] == back[a - 24..b - 24]
    {
    }
    forall a: nat, b: nat | a <= b <= 24
      ensures (front + back)[a..b] == front[a..b]
    {
    }
  }

  lemma ReportRoundTrip(r: ExecutionReport, tail: Bytes)
    ensures DecodeExecutionReport(ReportBytes(r) + tail) == Ok(r)
  {
    hide ReportBytes, U32Bytes, U64Bytes, I64Bytes, BytesU32, BytesU64, BytesI64;
    ReportFields(r, tail);
    U32RoundTrip(r.seqNum);
    U64RoundTrip(r.takerOrderId);
    U64RoundTrip(r.makerOrderId);
    I64RoundTrip(r.price);
    U64RoundTrip(r.quantity);
    U64RoundTrip(r.timestamp);
  }

  // ---------------------------------------------------------------- the wire format

  /** The signed value of eight little-endian bytes in two's complement. */
  function SignedWord(bs: Bytes): int {
    if FromLE(bs) < 0x8000_0000_0000_0000 then FromLE(bs) else FromLE(bs) - 0x1_0000_0000_0000_0000
  }

  ghost predicate ZeroBytes(bs: Bytes) {
    forall i :: 0 <= i < |bs| ==> bs[i] == 0
  }

  /** The 40 bytes of a new order. */
  ghost predicate NewOrderMessage(bs: Bytes, o: Order) {
    && |bs| == 40
    && bs[0] == 1 && bs[1] == (if o.side.Bid? then 0 else 1) && ZeroBytes(bs[2..8])
    && FromLE(bs[8..16]) == o.id && FromLE(bs[16..24]) == o.traderId
    && SignedWord(bs[24..32]) == o.price && FromLE(bs[32..40]) == o.quantity
  }

  /** The 16 bytes of a cancel. */
  ghost predicate CancelMessage(bs: Bytes, id: OrderId) {
    |bs| == 16 && bs[0] == 2 && ZeroBytes(bs[1..8]) && FromLE(bs[8..16]) == id
  }

  /** The 48 bytes of an execution report. */
  ghost predicate ReportMessage(bs: Bytes, seqNum: U32, f: Fill, timestamp: Timestamp) {
    && |bs| == 48
    && bs[0] == 3 && ZeroBytes(bs[1..4]) && FromLE(bs[4..8]) == seqNum
    && FromLE(bs[8..16]) == f.takerOrderId && FromLE(bs[16..24]) == f.makerOrderId
    && SignedWord(bs[24..32]) == f.price && FromLE(bs[32..40]) == f.quantity
    && FromLE(bs[40..48]) == timestamp
  }

  lemma SignedWordOf(x: I64)
    ensures SignedWord(I64Bytes(x)) == x
  {
    hide U64Bytes, FromLE;
    LongWordOf(ToUnsigned(x));
  }

  /** What the encoders write, byte by byte. */
  lemma NewOrderFormat(o: Order)
    ensures NewOrderMessage(NewOrderBytes(o), o)
  {
    hide U64Bytes, I64Bytes, SignedWord, FromLE;
    var bs := NewOrderBytes(o);
    assert bs + [] == bs;
    NewOrderFields(o, []);
    LongWordOf(o.id);
    LongWordOf(o.traderId);
    SignedWordOf(o.price);
    LongWordOf(o.quantity);
    assert bs[2..8] == Zeros(6);
  }

  lemma CancelFormat(id: OrderId)
    ensures CancelMessage(CancelOrderBytes(id), id)
  {
    hide U64Bytes, FromLE;
    var bs := CancelOrderBytes(id);
    LongWordOf(id);
    assert bs[8..16] == U64Bytes(id) && bs[1..8] == Zeros(7);
  }

  lemma ReportFormat(f: Fill, seqNum: U32, timestamp: Timestamp)
    ensures ReportMessage(ReportBytes(ReportOf(f, seqNum, timestamp)), seqNum, f, timestamp)
  {
    hide U32Bytes, U64Bytes, I64Bytes, SignedWord, FromLE;
    var bs := ReportBytes(ReportOf(f, seqNum, timestamp));
    assert bs + [] == bs;
    ReportFields(ReportOf(f, seqNum, timestamp), []);
    ShortWordOf(seqNum);
    LongWordOf(f.takerOrderId);
    LongWordOf(f.makerOrderId);
    SignedWordOf(f.price);
    LongWordOf(f.quantity);
    LongWordOf(timestamp);
    assert bs[1..4] == Zeros(3);
  }

  /** `o` is the order in the first 40 bytes of `buf`. */
  ghost predicate OrderIn(buf: Bytes, o: Order)
    requires |buf| >= 40
  {
    && o.side == (if buf[1] == 0 then Bid else Ask)
    && o.id == FromLE(buf[8..16]) && o.traderId == FromLE(buf[16..24])
    && o.price == SignedWord(buf[24..32]) && o.quantity == FromLE(buf[32..40])
    && o.timestamp == 0
  }

  /** What the decoder makes of any bytes. */
  lemma DecodeFormat(buf: Bytes)
    ensures var r := DecodeMessage(buf);
            if buf == [] then r == Err(BufferTooShort)
            else if buf[0] == 1 then
              if |buf| < 40 then r == Err(BufferTooShort)
              else if buf[1] > 1 then r == Err(InvalidSide(buf[1]))
              else if FromLE(buf[32..40]) == 0 then r == Err(NoQuantity)
              else r.Ok? && r.value.NewOrder? && OrderIn(buf, r.value.order)
            else if buf[0] == 2 then
              if |buf| < 16 then r == Err(BufferTooShort)
              else r.Ok? && r.value.CancelOrder? && r.value.orderId == FromLE(buf[8..16])
            else r == Err(UnknownMessageType(buf[0]))
  {
    hide FromLE, U64Bytes;
  }

  /** What a subscriber reads from any 48 bytes. */
  lemma DecodeReportFormat(buf: Bytes)
    ensures |buf| < 48 ==> DecodeExecutionReport(buf) == Err(BufferTooShort)
    ensures |buf| >= 48 ==>
              && DecodeExecutionReport(buf).Ok?
              && var r := DecodeExecutionReport(buf).value;
                 && r.seqNum == FromLE(buf[4..8]) && r.takerOrderId == FromLE(buf[8..16])
                 && r.makerOrderId == FromLE(buf[16..24]) && r.price == SignedWord(buf[24..32])
                 && r.quantity == FromLE(buf[32..40]) && r.timestamp == FromLE(buf[40..48])
  {
    hide FromLE, U64Bytes, U32Bytes;
  }
}
