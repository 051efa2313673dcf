/** Every step of the ring keeps its invariant; first-in first-out, no race, and a clean shutdown follow. */
module RingSafety {
  import opened Types
  import opened Bits
  import opened Ring

  lemma InitInv<T>(cap: nat)
    requires IsCapacity(cap)
    ensures Inv(Init<T>(cap), cap)
  {
    SlotTest(0, cap);
  }

  // ---------------------------------------------------------------- producer

  lemma PushStartKeeps<T>(s: State<T>, cap: nat, v: T)
    requires Inv(s, cap) && IsCapacity(cap) && Enabled(s, PushStart(v))
    ensures Inv(Do(s, PushStart(v)), cap)
  {
    SlotTest(0, cap);
    FullTest(Head(s), s.producer.seenTail, cap);
  }

  lemma LoadTailKeeps<T>(s: State<T>, cap: nat, ts: nat)
    requires Inv(s, cap) && IsCapacity(cap) && Enabled(s, LoadTail(ts))
    ensures Inv(Do(s, LoadTail(ts)), cap)
  {
    SlotTest(0, cap);
    FullTest(Head(s), ts, cap);
  }

  lemma BeginWriteKeeps<T>(s: State<T>, cap: nat)
    requires Inv(s, cap) && Enabled(s, BeginWrite)
    ensures Inv(Do(s, BeginWrite), cap)
  {
  }

  lemma EndWriteKeeps<T>(s: State<T>, cap: nat)
    requires Inv(s, cap) && IsCapacity(cap) && Enabled(s, EndWrite)
    ensures Inv(Do(s, EndWrite), cap)
  {
    SlotTest(Head(s), cap);
    EndWriteItems(s, cap);
    EndWriteTrace(s, cap);
    hide ItemsOk, TraceOk;
  }

  lemma EndWriteItems<T>(s: State<T>, cap: nat)
    requires Inv(s, cap) && IsCapacity(cap) && Enabled(s, EndWrite)
    ensures ItemsOk(Do(s, EndWrite), cap)
  {
    SlotTest(Head(s), cap);
    hide ViewsOk, TraceOk, FlagsOk, IsCapacity;
    forall i | Tail(s) <= i < Head(s)
      ensures i % cap != Head(s) % cap
    {
      ResiduesDiffer(i, Head(s), cap);
    }
  }

  lemma EndWriteTrace<T>(s: State<T>, cap: nat)
    requires Inv(s, cap) && IsCapacity(cap) && Enabled(s, EndWrite)
    ensures TraceOk(Do(s, EndWrite), cap)
  {
    SlotTest(Head(s), cap);
    hide ItemsOk, FlagsOk, IsCapacity, RaceFree;
    var access := Access(Write(Head(s)), s.producer.view.events);
    forall i | 0 <= i < |s.trace| && Conflict(s.trace[i].event, access.event, cap)
      ensures s.trace[i].event in access.before
    {
      var n := s.trace[i].event.index;
      assert n < Head(s);
      ResiduesFar(n, Head(s), cap);
    }
    RaceFreeAppend(s.trace, access, cap);
  }

  lemma RaceFreeAppend(trace: seq<Access>, access: Access, cap: nat)
    requires cap > 0 && RaceFree(trace, cap)
    requires forall i :: 0 <= i < |trace| && Conflict(trace[i].event, access.event, cap) ==>
               trace[i].event in access.before
    ensures RaceFree(trace + [access], cap)
  {
  }

  /** Indices less than a capacity apart use different slots. */
  lemma ResiduesDiffer(a: nat, b: nat, cap: nat)
    requires cap > 0 && a < b < a + cap
    ensures a % cap != b % cap
  {
    var x := a / cap;
    var y := b / cap;
    if a % cap == b % cap {
      assert b - a == cap * (y - x);
      MulLarge(cap, y - x);
    }
  }

  lemma ResiduesFar(a: nat, b: nat, cap: nat)
    requires cap > 0 && a < b && a % cap == b % cap
    ensures a + cap <= b
  {
    if b < a + cap {
      ResiduesDiffer(a, b, cap);
    }
  }

  lemma StoreHeadKeeps<T>(s: State<T>, cap: nat)
    requires Inv(s, cap) && IsCapacity(cap) && Enabled(s, StoreHead)
    ensures Inv(Do(s, StoreHead), cap)
  {
    hide IsCapacity, ViewsOk, RaceFree;
    IncTest(Head(s));
    StoreHeadViews(s, cap);
  }

  lemma StoreHeadViews<T>(s: State<T>, cap: nat)
    requires Inv(s, cap) && Enabled(s, StoreHead)
    ensures ViewsOk(Do(s, StoreHead))
  {
    hide ItemsOk, TraceOk, FlagsOk;
    IncTest(Head(s));
  }

  lemma CloseKeeps<T>(s: State<T>, cap: nat)
    requires Inv(s, cap) && Enabled(s, Close)
    ensures Inv(Do(s, Close), cap)
  {
  }

  // ---------------------------------------------------------------- consumer

  lemma PopStartKeeps<T>(s: State<T>, cap: nat)
    requires Inv(s, cap) && IsCapacity(cap) && Enabled(s, PopStart)
    ensures Inv(Do(s, PopStart), cap)
  {
    SlotTest(0, cap);
    EmptyTest(s.consumer.seenHead, Tail(s), cap);
  }

  lemma LoadHeadKeeps<T>(s: State<T>, cap: nat, ts: nat)
    requires Inv(s, cap) && IsCapacity(cap) && Enabled(s, LoadHead(ts))
    ensures Inv(Do(s, LoadHead(ts)), cap)
  {
    SlotTest(0, cap);
    EmptyTest(ts, Tail(s), cap);
  }

  lemma BeginReadKeeps<T>(s: State<T>, cap: nat)
    requires Inv(s, cap) && Enabled(s, BeginRead)
    ensures Inv(Do(s, BeginRead), cap)
  {
  }

  lemma EndReadKeeps<T>(s: State<T>, cap: nat)
    requires Inv(s, cap) && IsCapacity(cap) && Enabled(s, EndRead)
    ensures Inv(Do(s, EndRead), cap)
  {
    hide IsCapacity, TraceOk, ItemsOk, ViewsOk, SlotIndex;
    EndReadTrace(s, cap);
    EndReadItems(s, cap);
    EndReadViews(s, cap);
  }

  lemma EndReadItems<T>(s: State<T>, cap: nat)
    requires Inv(s, cap) && IsCapacity(cap) && Enabled(s, EndRead)
    ensures ItemsOk(Do(s, EndRead), cap)
  {
    hide ViewsOk, TraceOk, FlagsOk;
    SlotTest(Tail(s), cap);
  }

  lemma EndReadViews<T>(s: State<T>, cap: nat)
    requires Inv(s, cap) && IsCapacity(cap) && Enabled(s, EndRead)
    ensures ViewsOk(Do(s, EndRead))
  {
    hide ItemsOk, TraceOk, FlagsOk, SlotIndex;
  }

  lemma EndReadTrace<T>(s: State<T>, cap: nat)
    requires Inv(s, cap) && IsCapacity(cap) && Enabled(s, EndRead)
    ensures TraceOk(Do(s, EndRead), cap)
  {
    SlotTest(Tail(s), cap);
    assert s.slots[Tail(s) % cap] == Some(s.pushed[Tail(s)]);
    hide ItemsOk, FlagsOk, IsCapacity, RaceFree;
    var access := Access(Read(Tail(s)), s.consumer.view.events);
    forall i | 0 <= i < |s.trace| && Conflict(s.trace[i].event, access.event, cap)
      ensures s.trace[i].event in access.before
    {
      var n := s.trace[i].event.index;
      if n > Tail(s) {
        ResiduesFar(Tail(s), n, cap);
      }
    }
    RaceFreeAppend(s.trace, access, cap);
  }

  lemma StoreTailKeeps<T>(s: State<T>, cap: nat)
    requires Inv(s, cap) && IsCapacity(cap) && Enabled(s, StoreTail)
    ensures Inv(Do(s, StoreTail), cap)
  {
    hide IsCapacity, ViewsOk, RaceFree;
    IncTest(Tail(s));
    StoreTailViews(s, cap);
  }

  lemma StoreTailViews<T>(s: State<T>, cap: nat)
    requires Inv(s, cap) && Enabled(s, StoreTail)
    ensures ViewsOk(Do(s, StoreTail))
  {
    hide ItemsOk, TraceOk, FlagsOk;
    IncTest(Tail(s));
  }

  lemma LoadFlagKeeps<T>(s: State<T>, cap: nat, ts: nat)
    requires Inv(s, cap) && Enabled(s, LoadFlag(ts))
    ensures Inv(Do(s, LoadFlag(ts)), cap)
  {
    hide CursorsOk, ViewsOk, ItemsOk, TraceOk, FlagsOk, Do;
    LoadFlagCursors(s, cap, ts);
    LoadFlagViews(s, cap, ts);
    LoadFlagItems(s, cap, ts);
  }

  lemma LoadFlagCursors<T>(s: State<T>, cap: nat, ts: nat)
    requires Inv(s, cap) && Enabled(s, LoadFlag(ts))
    ensures CursorsOk(Do(s, LoadFlag(ts)), cap) && FlagsOk(Do(s, LoadFlag(ts)))
  {
    hide ItemsOk, TraceOk;
  }

  lemma LoadFlagViews<T>(s: State<T>, cap: nat, ts: nat)
    requires Inv(s, cap) && Enabled(s, LoadFlag(ts))
    ensures ViewsOk(Do(s, LoadFlag(ts)))
  {
    hide ItemsOk, TraceOk;
  }

  lemma LoadFlagItems<T>(s: State<T>, cap: nat, ts: nat)
    requires Inv(s, cap) && Enabled(s, LoadFlag(ts))
    ensures ItemsOk(Do(s, LoadFlag(ts)), cap) && TraceOk(Do(s, LoadFlag(ts)), cap)
  {
    hide ViewsOk, FlagsOk, RaceFree;
  }

  // ---------------------------------------------------------------- runs

  ghost predicate Next<T(!new)>(s: State<T>, s': State<T>) {
    |s.slots| > 0 && |s.heads| > 0 && |s.tails| > 0 && exists a :: Enabled(s, a) && s' == Do(s, a)
  }

  lemma NextKeeps<T(!new)>(s: State<T>, s': State<T>, cap: nat)
    requires Inv(s, cap) && IsCapacity(cap) && Next(s, s')
    ensures Inv(s', cap)
  {
    var a :| Enabled(s, a) && s' == Do(s, a);
    hide Inv, Do, IsCapacity, Enabled;
    match a
    case PushStart(v) => PushStartKeeps(s, cap, v);
    case LoadTail(ts) => LoadTailKeeps(s, cap, ts);
    case BeginWrite => BeginWriteKeeps(s, cap);
    case EndWrite => EndWriteKeeps(s, cap);
    case StoreHead => StoreHeadKeeps(s, cap);
    case Close => CloseKeeps(s, cap);
    case PopStart => PopStartKeeps(s, cap);
    case LoadHead(ts) => LoadHeadKeeps(s, cap, ts);
    case BeginRead => BeginReadKeeps(s, cap);
    case EndRead => EndReadKeeps(s, cap);
    case StoreTail => StoreTailKeeps(s, cap);
    case LoadFlag(ts) => LoadFlagKeeps(s, cap, ts);
  }

  ghost predicate IsRun<T(!new)>(run: seq<State<T>>, cap: nat) {
    && IsCapacity(cap) && run != [] && run[0] == Init<T>(cap)
    && forall i :: 0 <= i < |run| - 1 ==> Next(run[i], run[i + 1])
  }

  lemma {:induction false} RunsAreSafe<T(!new)>(run: seq<State<T>>, cap: nat, i: nat)
    requires IsRun(run, cap) && i < |run|
    ensures Inv(run[i], cap)
    decreases i
  {
    hide Inv, Next, IsCapacity, Init;
    if i == 0 {
      InitInv<T>(cap);
    } else {
      RunsAreSafe(run, cap, i - 1);
      assert Next(run[i - 1], run[i - 1 + 1]);
      NextKeeps(run[i - 1], run[i], cap);
    }
  }

  /**
   First in, first out, on every run: what was popped is the front of what was pushed, the rest
   lies in order in the slots, at most a capacity of it, and no slot is read before it is written.
   */
  lemma RunsAreFifo<T(!new)>(run: seq<State<T>>, cap: nat, i: nat)
    requires IsRun(run, cap) && i < |run|
    ensures var s := run[i];
            && cap > 0 && |s.slots| == cap
            && s.popped <= s.pushed
            && |s.pushed| - |s.popped| <= cap
            && (forall n :: |s.popped| <= n < |s.pushed| ==> s.slots[n % cap] == Some(s.pushed[n]))
            && !s.consumer.pc.CUninit?
  {
    RunsAreSafe(run, cap, i);
  }

  /**
   No data race on any run: conflicting slot accesses are ordered by happens-before, and the two
   threads are never inside the same slot at once.
   */
  lemma RunsAreRaceFree<T(!new)>(run: seq<State<T>>, cap: nat, i: nat)
    requires IsRun(run, cap) && i < |run|
    ensures cap > 0 && RaceFree(run[i].trace, cap)
    ensures var s := run[i];
            s.producer.pc.PAccess? && s.consumer.pc.CAccess? ==>
              SlotIndex(s.producer.cachedHead, cap) != SlotIndex(s.consumer.cachedTail, cap)
  {
    RunsAreSafe(run, cap, i);
    var s := run[i];
    SlotTest(Head(s), cap);
    SlotTest(Tail(s), cap);
    if s.producer.pc.PAccess? && s.consumer.pc.CAccess? {
      ResiduesDiffer(Tail(s), Head(s), cap);
    }
  }

  /** In particular the write of index n happens after the read of index n - cap, and the read of n after its write. */
  lemma AccessesOrdered<T(!new)>(run: seq<State<T>>, cap: nat, i: nat, j: nat, n: nat)
    requires IsRun(run, cap) && i < |run| && j < |run[i].trace|
    ensures cap > 0
    ensures run[i].trace[j].event == Write(n) && n >= cap ==> Read(n - cap) in run[i].trace[j].before
    ensures run[i].trace[j].event == Read(n) ==> Write(n) in run[i].trace[j].before
  {
    RunsAreSafe(run, cap, i);
    RunsOrdered(run, cap, i);
  }

  ghost predicate Ordered(trace: seq<Access>, cap: nat) {
    forall j :: 0 <= j < |trace| ==>
      match trace[j].event
      case Write(n) => n >= cap ==> Read(n - cap) in trace[j].before
      case Read(n) => Write(n) in trace[j].before
  }

  lemma {:induction false} RunsOrdered<T(!new)>(run: seq<State<T>>, cap: nat, i: nat)
    requires IsRun(run, cap) && i < |run|
    ensures Ordered(run[i].trace, cap)
    decreases i
  {
    hide Inv, Next, IsCapacity;
    if i > 0 {
      RunsOrdered(run, cap, i - 1);
      RunsAreSafe(run, cap, i - 1);
      assert Next(run[i - 1], run[i - 1 + 1]);
      OrderedKeeps(run[i - 1], run[i], cap);
    }
  }

  lemma OrderedKeeps<T(!new)>(s: State<T>, s': State<T>, cap: nat)
    requires Inv(s, cap) && Next(s, s') && Ordered(s.trace, cap)
    ensures Ordered(s'.trace, cap)
  {
    var a :| Enabled(s, a) && s' == Do(s, a);
    hide ItemsOk, TraceOk, FlagsOk;
  }

  // ---------------------------------------------------------------- answers

  /**
   What a push answers, on every run: it asks again for the tail exactly when the ring is full as
   far as it knew, and refuses exactly when the ring is full at the tail it then reads.
   */
  lemma PushAnswers<T(!new)>(run: seq<State<T>>, cap: nat, i: nat, a: Action<T>)
    requires IsRun(run, cap) && i < |run| && Enabled(run[i], a)
    ensures |run[i].slots| > 0 && |run[i].heads| > 0 && |run[i].tails| > 0
    ensures var (s, s') := (run[i], Do(run[i], a));
            && (a.PushStart? ==>
                  s'.producer.pc == if |s.pushed| == s.producer.seenTail + cap then PLoad(a.value) else PReady(a.value))
            && (a.LoadTail? ==>
                  s'.producer.pc == if |s.pushed| == a.ts + cap then PIdle else PReady(s.producer.pc.value))
            && (a.Close? ==>
                  s'.producer.pc == PClosed && |s'.flags| == |s.flags| + 1 && s'.flags[|s.flags|].value)
  {
    RunsAreSafe(run, cap, i);
    var s := run[i];
    SlotTest(0, cap);
    hide IsCapacity, ViewsOk, TraceOk, FlagsOk, IsRun;
    match a
    case PushStart(v) => FullTest(Head(s), s.producer.seenTail, cap);
    case LoadTail(ts) => FullTest(Head(s), ts, cap);
    case _ =>
  }

  /**
   What a pop answers, on every run: it asks again for the head exactly when the ring is empty as
   far as it knew, and finds nothing exactly when the ring is empty at the head it then reads.
   */
  lemma PopAnswers<T(!new)>(run: seq<State<T>>, cap: nat, i: nat, a: Action<T>)
    requires IsRun(run, cap) && i < |run| && Enabled(run[i], a)
    ensures |run[i].slots| > 0 && |run[i].heads| > 0 && |run[i].tails| > 0
    ensures var (s, s') := (run[i], Do(run[i], a));
            && (a.PopStart? ==> s'.consumer.pc == if |s.popped| == s.consumer.seenHead then CLoad else CReady)
            && (a.LoadHead? ==>
                  s'.consumer.pc ==
                  if |s.popped| < a.ts then CReady else if s.consumer.draining then CExited else CCheck)
            && (a.LoadFlag? && a.ts < |s.flags| ==>
                  s'.consumer.pc == CIdle && s'.consumer.draining == (s.consumer.draining || s.flags[a.ts].value))
  {
    RunsAreSafe(run, cap, i);
    var s := run[i];
    SlotTest(0, cap);
    hide IsCapacity, ViewsOk, TraceOk, FlagsOk, IsRun;
    match a
    case PopStart => EmptyTest(s.consumer.seenHead, Tail(s), cap);
    case LoadHead(ts) => EmptyTest(ts, Tail(s), cap);
    case _ =>
  }

  /** The states on the way of one thread that runs alone. */
  ghost predicate IsPath<T(!new)>(path: seq<State<T>>) {
    path != [] && forall i :: 0 <= i < |path| - 1 ==> Next(path[i], path[i + 1])
  }

  lemma PathGrows<T(!new)>(path: seq<State<T>>, a: Action<T>) returns (path': seq<State<T>>)
    requires IsPath(path)
    requires var s := path[|path| - 1]; |s.slots| > 0 && |s.heads| > 0 && |s.tails| > 0 && Enabled(s, a)
    ensures path' != [] && IsPath(path') && path'[0] == path[0] && path'[|path'| - 1] == Do(path[|path| - 1], a)
  {
    hide Do, Enabled;
    var s := path[|path| - 1];
    assert Next(s, Do(s, a));
    path' := path + [Do(s, a)];
    hide Next;
    forall i | 0 <= i < |path'| - 1
      ensures Next(path'[i], path'[i + 1])
    {
      if i < |path| - 1 {
        assert Next(path[i], path[i + 1]);
      }
    }
  }

  /** From any reachable state with room, a push that runs alone completes with its value pushed. */
  lemma PushCompletes<T(!new)>(s: State<T>, cap: nat, v: T) returns (path: seq<State<T>>)
    requires Inv(s, cap) && IsCapacity(cap) && s.producer.pc.PIdle? && |s.pushed| < |s.popped| + cap
    ensures path != [] && IsPath(path) && path[0] == s
    ensures var t := path[|path| - 1];
            t.producer.pc.PIdle? && t.pushed == s.pushed + [v] && t.popped == s.popped && t.consumer == s.consumer
  {
    hide Inv, IsCapacity, IsPath, SlotIndex, WrappingInc;
    NewestKnown(s, cap);
    path := PushReady(s, cap, v);
    path := PathGrows(path, BeginWrite);
    path := PathGrows(path, EndWrite);
    path := PathGrows(path, StoreHead);
  }

  lemma PushReady<T(!new)>(s: State<T>, cap: nat, v: T) returns (path: seq<State<T>>)
    requires Inv(s, cap) && IsCapacity(cap) && s.producer.pc.PIdle? && |s.pushed| < |s.popped| + cap
    ensures path != [] && IsPath(path) && path[0] == s
    ensures var t := path[|path| - 1]; t == s.(producer := t.producer) && t.producer.pc == PReady(v)
  {
    hide IsCapacity, ViewsOk, TraceOk, FlagsOk, IsPath, WrappingSub;
    NewestKnown(s, cap);
    OnePath(s);
    FullTest(Head(s), s.producer.seenTail, cap);
    FullTest(Head(s), Tail(s), cap);
    path := PathGrows([s], PushStart(v));
    if path[|path| - 1].producer.pc.PLoad? {
      path := PathGrows(path, LoadTail(Tail(s)));
    }
  }

  /** From any reachable state with an item, a pop that runs alone completes with the oldest one. */
  lemma PopCompletes<T(!new)>(s: State<T>, cap: nat) returns (path: seq<State<T>>)
    requires Inv(s, cap) && IsCapacity(cap) && s.consumer.pc.CIdle? && |s.popped| < |s.pushed|
    ensures path != [] && IsPath(path) && path[0] == s
    ensures var t := path[|path| - 1];
            && t.consumer.pc.CIdle? && t.popped == s.popped + [s.pushed[|s.popped|]]
            && t.pushed == s.pushed && t.producer == s.producer
  {
    hide Inv, IsCapacity, IsPath, WrappingInc, SlotIndex;
    NewestKnown(s, cap);
    OldestHeld(s, cap);
    path := PopReady(s, cap);
    path := PathGrows(path, BeginRead);
    path := PathGrows(path, EndRead);
    path := PathGrows(path, StoreTail);
  }

  lemma PopReady<T(!new)>(s: State<T>, cap: nat) returns (path: seq<State<T>>)
    requires Inv(s, cap) && IsCapacity(cap) && s.consumer.pc.CIdle? && |s.popped| < |s.pushed|
    ensures path != [] && IsPath(path) && path[0] == s
    ensures var t := path[|path| - 1];
            t == s.(consumer := t.consumer) && t.consumer.pc == CReady && t.consumer.cachedTail == s.consumer.cachedTail
  {
    hide IsCapacity, ViewsOk, TraceOk, FlagsOk, IsPath;
    NewestKnown(s, cap);
    OnePath(s);
    EmptyTest(s.consumer.seenHead, Tail(s), cap);
    EmptyTest(Head(s), Tail(s), cap);
    path := PathGrows([s], PopStart);
    if path[|path| - 1].consumer.pc.CLoad? {
      path := PathGrows(path, LoadHead(Head(s)));
    }
  }

  /** Both threads may load the newest cursors, and these are words of the true counts. */
  lemma NewestKnown<T>(s: State<T>, cap: nat)
    requires Inv(s, cap) && IsCapacity(cap)
    ensures 0 < cap <= TWO63 && |s.slots| == cap && |s.heads| > 0 && |s.tails| > 0
    ensures s.producer.view.tail <= Tail(s) && s.consumer.view.head <= Head(s)
    ensures s.tails[Tail(s)].value == WordOf(Tail(s)) && s.heads[Head(s)].value == WordOf(Head(s))
  {
    SlotTest(0, cap);
    hide ItemsOk, TraceOk, FlagsOk;
  }

  lemma OldestHeld<T>(s: State<T>, cap: nat)
    requires Inv(s, cap) && IsCapacity(cap) && |s.popped| < |s.pushed|
    ensures |s.slots| == cap > 0 && SlotIndex(s.consumer.cachedTail, cap) < cap
    ensures s.slots[SlotIndex(s.consumer.cachedTail, cap)] == Some(s.pushed[|s.popped|])
  {
    hide ViewsOk, TraceOk, FlagsOk;
    SlotTest(Tail(s), cap);
  }

  lemma OnePath<T(!new)>(s: State<T>)
    ensures IsPath([s])
  {
  }

  // ---------------------------------------------------------------- shutdown

  lemma {:induction false} ClosedStays<T(!new)>(run: seq<State<T>>, cap: nat, i: nat, j: nat)
    requires IsRun(run, cap) && i <= j < |run| && run[i].producer.pc.PClosed?
    ensures run[j].producer.pc.PClosed? && run[j].pushed == run[i].pushed
    decreases j - i
  {
    if i < j {
      ClosedStays(run, cap, i, j - 1);
      assert Next(run[j - 1], run[j - 1 + 1]);
    }
  }

  /**
   When the matching loop exits, everything pushed before the shutdown store was popped, exactly
   once and in push order.
   */
  lemma ShutdownDrains<T(!new)>(run: seq<State<T>>, cap: nat, i: nat, j: nat)
    requires IsRun(run, cap) && i < |run| && j < |run|
    requires run[i].producer.pc.PClosed? && run[j].consumer.pc.CExited?
    ensures run[j].popped == run[i].pushed
  {
    RunsAreSafe(run, cap, j);
    assert run[j].popped == run[j].pushed;
    assert run[j].producer.pc.PClosed?;
    hide Inv, IsCapacity, Next;
    if i <= j {
      ClosedStays(run, cap, i, j);
    } else {
      ClosedStays(run, cap, j, i);
    }
  }

  // ---------------------------------------------------------------- dropping the ring

  /** Drop the items between the cursors, stepping a wrapping word. */
  method DropRing<T(!new)>(slots: seq<Option<T>>, head: Word, tail: Word, ghost s: State<T>, ghost cap: nat)
    returns (dropped: seq<T>)
    requires Inv(s, cap) && IsCapacity(cap) && slots == s.slots
    requires head == s.heads[|s.heads| - 1].value && tail == s.tails[|s.tails| - 1].value
    ensures s.popped + dropped == s.pushed
  {
    dropped := [];
    var i := tail;
    ghost var n: nat := Tail(s);
    SlotTest(0, cap);
    assert head == WordOf(Head(s)) && tail == WordOf(n);
    while i != head
      invariant Tail(s) <= n <= Head(s) && i == WordOf(n)
      invariant dropped == s.pushed[Tail(s)..n]
      decreases Head(s) - n
    {
      EmptyTest(Head(s), n, cap);
      SlotTest(n, cap);
      hide ViewsOk, TraceOk, FlagsOk, IsCapacity;
      var slot := slots[SlotIndex(i, |slots|)];
      assert slot == Some(s.pushed[n]);
      dropped := dropped + [slot.value];
      IncTest(n);
      i := WrappingInc(i);
      n := n + 1;
    }
    EmptyTest(Head(s), n, cap);
  }
}
