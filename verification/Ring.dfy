/**
 The single-producer single-consumer ring as fine-grained steps of the two threads under
 release/acquire memory. Each atomic cursor is its modification order, a sequence of messages;
 a message carries the view of the thread that stored it, and a load may return any message not
 older than the loading thread already knows. A view holds the slot accesses that happen before
 and the newest cursor stores known. The shutdown flag of the gateway is part of the machine.
 */
module Ring {
  import opened Types
  import opened Bits

  type Word = U64

  /** A slot access, by the unbounded index of the item. */
  datatype Event = Write(index: nat) | Read(index: nat)

  datatype View = View(events: set<Event>, head: nat, tail: nat)

  function Join(a: View, b: View): View {
    View(a.events + b.events, if a.head < b.head then b.head else a.head, if a.tail < b.tail then b.tail else a.tail)
  }

  datatype Message = Message(value: Word, view: View)
  datatype FlagMessage = FlagMessage(value: bool, view: View)

  /** A slot access together with what happens before it. */
  datatype Access = Access(event: Event, before: set<Event>)

  datatype ProducerPc<T> = PIdle | PLoad(value: T) | PReady(value: T) | PAccess(value: T) | PStore(value: T) | PClosed

  datatype Producer<T> = Producer(pc: ProducerPc<T>, cachedHead: Word, cachedTail: Word, seenTail: nat, view: View)

  /** `CUninit`: the consumer read a slot that was never written. */
  datatype ConsumerPc<T> = CIdle | CLoad | CReady | CAccess | CStore(value: T) | CUninit | CCheck | CExited

  datatype Consumer<T> = Consumer(
    pc: ConsumerPc<T>, draining: bool, cachedTail: Word, cachedHead: Word, seenHead: nat, view: View)

  datatype State<T> = State(
    slots: seq<Option<T>>,
    heads: seq<Message>,
    tails: seq<Message>,
    flags: seq<FlagMessage>,
    producer: Producer<T>,
    consumer: Consumer<T>,
    pushed: seq<T>,
    popped: seq<T>,
    trace: seq<Access>)

  // ---------------------------------------------------------------- machine words

  function WordOf(n: nat): Word {
    n % TWO64
  }

  function WrappingSub(a: Word, b: Word): Word {
    (a - b) % TWO64
  }

  function WrappingInc(a: Word): Word {
    (a + 1) % TWO64
  }

  /** The slot of a cursor: the cursor masked with capacity - 1. */
  function SlotIndex(cursor: Word, capacity: nat): nat
    requires capacity > 0
  {
    And(cursor, capacity - 1)
  }

  ghost predicate IsCapacity(capacity: nat) {
    exists k: nat :: k <= 63 && capacity == Pow2(k)
  }

  // ---------------------------------------------------------------- steps

  datatype Action<T> =
    | PushStart(value: T)        // the full test against the cached tail
    | LoadTail(ts: nat)          // acquire load of tail, and the second full test
    | BeginWrite | EndWrite      // the slot access of push
    | StoreHead                  // release store of head
    | Close                      // release store of the shutdown flag
    | PopStart                   // the empty test against the cached head
    | LoadHead(ts: nat)          // acquire load of head, and the second empty test
    | BeginRead | EndRead        // the slot access of pop
    | StoreTail                  // release store of tail
    | LoadFlag(ts: nat)          // acquire load of the shutdown flag after an empty pop

  ghost predicate Enabled<T>(s: State<T>, a: Action<T>) {
    match a
    case PushStart(v) => s.producer.pc.PIdle?
    case LoadTail(ts) => s.producer.pc.PLoad? && s.producer.view.tail <= ts < |s.tails|
    case BeginWrite => s.producer.pc.PReady?
    case EndWrite => s.producer.pc.PAccess?
    case StoreHead => s.producer.pc.PStore?
    case Close => s.producer.pc.PIdle?
    case PopStart => s.consumer.pc.CIdle?
    case LoadHead(ts) => s.consumer.pc.CLoad? && s.consumer.view.head <= ts < |s.heads|
    case BeginRead => s.consumer.pc.CReady?
    case EndRead => s.consumer.pc.CAccess?
    case StoreTail => s.consumer.pc.CStore?
    case LoadFlag(ts) => s.consumer.pc.CCheck? && ts < |s.flags|
  }

  /** The slot at an index; the index is always in range. */
  function SlotOf<T>(slots: seq<Option<T>>, i: nat): Option<T> {
    if i < |slots| then slots[i] else None
  }

  ghost function Do<T>(s: State<T>, a: Action<T>): State<T>
    requires Enabled(s, a) && |s.slots| > 0 && |s.heads| > 0 && |s.tails| > 0
  {
    var p := s.producer;
    var c := s.consumer;
    match a
    case PushStart(v) =>
      s.(producer := p.(pc := if WrappingSub(p.cachedHead, p.cachedTail) == |s.slots| then PLoad(v) else PReady(v)))
    case LoadTail(ts) =>
      var m := s.tails[ts];
      var full := WrappingSub(p.cachedHead, m.value) == |s.slots|;
      s.(producer := p.(pc := if full then PIdle else PReady(p.pc.value), cachedTail := m.value, seenTail := ts,
                        view := Join(p.view, View(m.view.events, m.view.head, ts))))
    case BeginWrite => s.(producer := p.(pc := PAccess(p.pc.value)))
    case EndWrite =>
      var i := SlotIndex(p.cachedHead, |s.slots|);
      var e := Write(|s.heads| - 1);
      s.(slots := if i < |s.slots| then s.slots[i := Some(p.pc.value)] else s.slots,
         producer := p.(pc := PStore(p.pc.value), view := p.view.(events := p.view.events + {e})),
         trace := s.trace + [Access(e, p.view.events)])
    case StoreHead =>
      var view := p.view.(head := |s.heads|);
      s.(heads := s.heads + [Message(WrappingInc(p.cachedHead), view)],
         producer := p.(pc := PIdle, cachedHead := WrappingInc(p.cachedHead), view := view),
         pushed := s.pushed + [p.pc.value])
    case Close =>
      s.(flags := s.flags + [FlagMessage(true, p.view)], producer := p.(pc := PClosed))
    case PopStart =>
      s.(consumer := c.(pc := if c.cachedTail == c.cachedHead then CLoad else CReady))
    case LoadHead(ts) =>
      var m := s.heads[ts];
      var view := Join(c.view, View(m.view.events, ts, m.view.tail));
      var pc := if c.cachedTail != m.value then CReady else if c.draining then CExited else CCheck;
      s.(consumer := c.(pc := pc, cachedHead := m.value, seenHead := ts, view := view))
    case BeginRead => s.(consumer := c.(pc := CAccess))
    case EndRead =>
      var i := SlotIndex(c.cachedTail, |s.slots|);
      var e := Read(|s.tails| - 1);
      var slot := SlotOf(s.slots, i);
      s.(consumer := c.(pc := if slot.Some? then CStore(slot.value) else CUninit, view := c.view.(events := c.view.events + {e})),
         trace := s.trace + [Access(e, c.view.events)])
    case StoreTail =>
      var view := c.view.(tail := |s.tails|);
      s.(tails := s.tails + [Message(WrappingInc(c.cachedTail), view)],
         consumer := c.(pc := CIdle, cachedTail := WrappingInc(c.cachedTail), view := view),
         popped := s.popped + [c.pc.value])
    case LoadFlag(ts) =>
      var m := s.flags[ts];
      if m.value then s.(consumer := c.(pc := CIdle, draining := true, view := Join(c.view, m.view)))
      else s.(consumer := c.(pc := CIdle, view := Join(c.view, m.view)))
  }

  const NO_VIEW := View({}, 0, 0)

  ghost function Init<T>(capacity: nat): State<T> {
    State(seq(capacity, i => None), [Message(0, NO_VIEW)], [Message(0, NO_VIEW)], [FlagMessage(false, NO_VIEW)],
          Producer(PIdle, 0, 0, 0, NO_VIEW), Consumer(CIdle, false, 0, 0, 0, NO_VIEW), [], [], [])
  }

  // ---------------------------------------------------------------- invariant

  /** The unbounded cursors: how many heads and tails were stored. */
  function Head<T>(s: State<T>): int {
    |s.heads| - 1
  }

  function Tail<T>(s: State<T>): int {
    |s.tails| - 1
  }

  /** How many slot writes and reads were performed, counting those not yet published. */
  function Writes<T>(s: State<T>): int {
    Head(s) + if s.producer.pc.PStore? then 1 else 0
  }

  function Reads<T>(s: State<T>): int {
    Tail(s) + if s.consumer.pc.CStore? then 1 else 0
  }

  ghost predicate HasWrites(v: View, n: int) {
    forall i: nat :: i < n ==> Write(i) in v.events
  }

  ghost predicate HasReads(v: View, n: int) {
    forall i: nat :: i < n ==> Read(i) in v.events
  }

  ghost predicate Bounded<T>(s: State<T>, v: View) {
    v.head <= Head(s) && v.tail <= Tail(s)
  }

  /** Cursor words and the staleness of the cached ones. */
  ghost predicate CursorsOk<T>(s: State<T>, cap: nat) {
    var p := s.producer;
    var c := s.consumer;
    && |s.heads| > 0 && |s.tails| > 0 && |s.slots| == cap
    && p.cachedHead == WordOf(Head(s)) && p.cachedTail == WordOf(p.seenTail)
    && c.cachedTail == WordOf(Tail(s)) && c.cachedHead == WordOf(c.seenHead)
    && p.seenTail <= Tail(s) <= c.seenHead <= Head(s) <= p.seenTail + cap
    && (p.pc.PReady? || p.pc.PAccess? || p.pc.PStore? ==> Head(s) < p.seenTail + cap)
    && (c.pc.CReady? || c.pc.CAccess? || c.pc.CStore? ==> Tail(s) < c.seenHead)
    && p.seenTail <= p.view.tail && p.view.head == Head(s)
    && c.seenHead <= c.view.head && c.view.tail == Tail(s)
  }

  /** What each message, and each thread, has happening before it. */
  ghost predicate ViewsOk<T>(s: State<T>) {
    && |s.heads| > 0 && |s.tails| > 0
    && (forall j :: 0 <= j < |s.heads| ==>
          s.heads[j].value == WordOf(j) && HasWrites(s.heads[j].view, j) && Bounded(s, s.heads[j].view))
    && (forall j :: 0 <= j < |s.tails| ==>
          s.tails[j].value == WordOf(j) && HasReads(s.tails[j].view, j) && Bounded(s, s.tails[j].view))
    && HasWrites(s.producer.view, Writes(s)) && HasReads(s.producer.view, s.producer.seenTail)
    && HasReads(s.consumer.view, Reads(s)) && HasWrites(s.consumer.view, s.consumer.seenHead)
    && Bounded(s, s.producer.view) && Bounded(s, s.consumer.view)
  }

  /** The items: popped is the front of pushed, the rest lies in order in the slots. */
  ghost predicate ItemsOk<T>(s: State<T>, cap: nat) {
    && |s.pushed| == Head(s) && |s.popped| == Tail(s) <= Head(s)
    && s.popped == s.pushed[..Tail(s)]
    && cap > 0 && |s.slots| == cap
    && (forall i :: Tail(s) <= i < Head(s) ==> s.slots[i % cap] == Some(s.pushed[i]))
    && (s.producer.pc.PStore? && |s.heads| > 0 ==> s.slots[Head(s) % cap] == Some(s.producer.pc.value))
    && (s.consumer.pc.CStore? && Tail(s) < Head(s) ==> s.consumer.pc.value == s.pushed[Tail(s)])
    && !s.consumer.pc.CUninit?
  }

  ghost predicate Conflict(e: Event, f: Event, cap: nat)
    requires cap > 0
  {
    e.index % cap == f.index % cap && (e.Write? || f.Write?)
  }

  /** Every two conflicting slot accesses are ordered by happens-before. */
  ghost predicate RaceFree(trace: seq<Access>, cap: nat)
    requires cap > 0
  {
    forall i, j :: 0 <= i < j < |trace| && Conflict(trace[i].event, trace[j].event, cap) ==>
      trace[i].event in trace[j].before
  }

  ghost predicate TraceOk<T>(s: State<T>, cap: nat) {
    && cap > 0
    && RaceFree(s.trace, cap)
    && (forall i :: 0 <= i < |s.trace| ==>
          match s.trace[i].event
          case Write(n) => n < Writes(s)
          case Read(n) => n < Reads(s))
  }

  /** The shutdown handshake. */
  ghost predicate FlagsOk<T>(s: State<T>) {
    && (forall j :: 0 <= j < |s.flags| ==> Bounded(s, s.flags[j].view))
    && (forall j :: 0 <= j < |s.flags| && s.flags[j].value ==>
          s.producer.pc.PClosed? && s.flags[j].view.head == Head(s))
    && (s.consumer.draining ==> s.producer.pc.PClosed? && s.consumer.view.head == Head(s))
    && (s.consumer.pc.CExited? ==> s.producer.pc.PClosed? && Tail(s) == Head(s))
  }

  ghost predicate Inv<T>(s: State<T>, cap: nat) {
    CursorsOk(s, cap) && ViewsOk(s) && ItemsOk(s, cap) && TraceOk(s, cap) && FlagsOk(s)
  }

  // ---------------------------------------------------------------- wrapping cursors are integers

  lemma ModSmall(x: int)
    requires 0 <= x < TWO64
    ensures x % TWO64 == x
  {
  }

  lemma WordDifference(h: nat, t: nat)
    requires t <= h
    ensures WrappingSub(WordOf(h), WordOf(t)) == (h - t) % TWO64
  {
    var x := h / TWO64;
    var y := t / TWO64;
    assert h == x * TWO64 + h % TWO64 && t == y * TWO64 + t % TWO64;
    WordShift(h % TWO64 - t % TWO64, x - y);
  }

  /** The wrapped full test is the integer one. */
  lemma FullTest(h: nat, t: nat, cap: nat)
    requires t <= h <= t + cap && cap <= TWO63
    ensures WrappingSub(WordOf(h), WordOf(t)) == cap <==> h == t + cap
  {
    WordDifference(h, t);
    ModSmall(h - t);
  }

  /** The wrapped empty test is the integer one. */
  lemma EmptyTest(h: nat, t: nat, cap: nat)
    requires t <= h <= t + cap && cap <= TWO63
    ensures WordOf(t) == WordOf(h) <==> t == h
  {
    WordDifference(h, t);
    ModSmall(h - t);
  }

  lemma IncTest(n: nat)
    ensures WrappingInc(WordOf(n)) == WordOf(n + 1)
  {
    var x := n / TWO64;
    assert n == x * TWO64 + n % TWO64;
    WordShift(n % TWO64 + 1, x);
  }

  lemma {:induction false} ModDivides(x: nat, m: nat, q: nat)
    requires m > 0 && q > 0
    ensures (x % (q * m)) % m == x % m
  {
    MulPositive(q, m);
    var d := x / (q * m);
    var r := x % (q * m);
    assert x == (q * m) * d + r;
    var a := r / m;
    assert r == m * a + r % m;
    assert x == m * (q * d + a) + r % m by {
      assert (q * m) * d == m * (q * d);
    }
    DivUnique(x, m, q * d + a, r % m);
  }

  lemma MulPositive(q: nat, m: nat)
    requires q > 0 && m > 0
    ensures q * m > 0
  {
  }

  /** The masked slot index is the index modulo the capacity, across any number of wraps. */
  lemma SlotTest(n: nat, cap: nat)
    requires IsCapacity(cap)
    ensures cap > 0 && cap <= TWO63 && SlotIndex(WordOf(n), cap) == n % cap
  {
    hide Pow2, And;
    var k: nat :| k <= 63 && cap == Pow2(k);
    AndMask(WordOf(n), k);
    WordPowers();
    PowBound(k);
    Pow2Add(64 - k, k);
    ModDivides(n, cap, Pow2(64 - k));
  }

  lemma WordPowers()
    ensures Pow2(63) == TWO63 && Pow2(64) == TWO64
  {
    Pow2Of61();
    assert Pow2(62) == 2 * Pow2(61);
    assert Pow2(63) == 2 * Pow2(62);
  }

  lemma {:induction false} PowBound(k: nat)
    requires k <= 63
    ensures Pow2(k) <= Pow2(63)
    decreases 63 - k
  {
    if k < 63 {
      PowBound(k + 1);
      assert Pow2(k + 1) == 2 * Pow2(k);
      hide Pow2;
    }
  }
}
