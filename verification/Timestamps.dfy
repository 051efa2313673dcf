/**
 The log does not persist timestamps, so recovery can only promise a book up to timestamps.
 Equality modulo timestamps is preserved by every command and hidden from every response.
 */
module Timestamps {
  import opened Types
  import opened PriceBook
  import opened Conservation

  predicate SameOrder(o: Order, p: Order) {
    o.(timestamp := 0) == p.(timestamp := 0)
  }

  predicate SameOrders(s: seq<Order>, t: seq<Order>) {
    |s| == |t| && forall i :: 0 <= i < |s| ==> SameOrder(s[i], t[i])
  }

  ghost predicate SameBook(b: Book, c: Book) {
    && b.capacity == c.capacity
    && b.index == c.index
    && b.levels.Keys == c.levels.Keys
    && forall k | k in b.levels :: SameOrders(b.levels[k], c.levels[k])
  }

  predicate SameCommand(c: Command, d: Command) {
    match c
    case NewOrder(o) => d.NewOrder? && SameOrder(o, d.order)
    case CancelOrder(id) => d == c
  }

  predicate SameCommands(cs: seq<Command>, ds: seq<Command>) {
    |cs| == |ds| && forall i :: 0 <= i < |cs| ==> SameCommand(cs[i], ds[i])
  }

  /** Equal responses, up to the timestamp of a cancelled order. */
  predicate SameResponse(r: Response, s: Response) {
    match r
    case Added(_, _) => s == r
    case Cancelled(c) =>
      && s.Cancelled?
      && (if c.Ok? && s.cancel.Ok? then SameOrder(c.value, s.cancel.value) else s == r)
  }

  lemma SameBookTransitive(a: Book, b: Book, c: Book)
    requires SameBook(a, b) && SameBook(b, c)
    ensures SameBook(a, c)
  {
    forall k | k in a.levels
      ensures SameOrders(a.levels[k], c.levels[k])
    {
      assert SameOrders(a.levels[k], b.levels[k]) && SameOrders(b.levels[k], c.levels[k]);
    }
  }

  lemma SameBookSymmetric(b: Book, c: Book)
    requires SameBook(b, c)
    ensures SameBook(c, b)
  {
    forall k | k in c.levels
      ensures SameOrders(c.levels[k], b.levels[k])
    {
      assert SameOrders(b.levels[k], c.levels[k]);
    }
  }

  // ---------------------------------------------------------------- single operations

  lemma {:induction false} SamePosition(s: seq<Order>, t: seq<Order>, id: OrderId)
    requires SameOrders(s, t) && HasId(s, id) && HasId(t, id)
    ensures Position(s, id) == Position(t, id)
    decreases |s|
  {
    assert SameOrder(s[0], t[0]);
    if s[0].id != id {
      assert forall i :: 0 < i < |s| ==> s[i] == s[1..][i - 1] && t[i] == t[1..][i - 1];
      SamePosition(s[1..], t[1..], id);
    }
  }

  lemma SameSetLevel(b: Book, c: Book, k: Key, s: seq<Order>, t: seq<Order>, index: map<OrderId, Key>)
    requires SameBook(b, c) && SameOrders(s, t)
    ensures SameBook(b.(levels := SetLevel(b.levels, k, s), index := index),
                     c.(levels := SetLevel(c.levels, k, t), index := index))
  {
  }

  lemma SameWithout(s: seq<Order>, t: seq<Order>, i: nat)
    requires SameOrders(s, t) && i < |s|
    ensures SameOrders(Without(s, i), Without(t, i))
  {
    forall j | 0 <= j < |s| - 1
      ensures SameOrder(Without(s, i)[j], Without(t, i)[j])
    {
      assert SameOrder(s[if j < i then j else j + 1], t[if j < i then j else j + 1]);
    }
  }

  lemma SameTail(s: seq<Order>, t: seq<Order>)
    requires SameOrders(s, t) && s != []
    ensures SameOrders(s[1..], t[1..])
  {
    forall i | 0 <= i < |s| - 1
      ensures SameOrder(s[1..][i], t[1..][i])
    {
      assert SameOrder(s[i + 1], t[i + 1]);
    }
  }

  lemma SameCons(o: Order, p: Order, s: seq<Order>, t: seq<Order>)
    requires SameOrder(o, p) && SameOrders(s, t)
    ensures SameOrders([o] + s, [p] + t)
  {
  }

  lemma SameFrontReduced(s: seq<Order>, t: seq<Order>, q: nat)
    requires SameOrders(s, t) && s != [] && q <= s[0].quantity
    ensures q <= t[0].quantity && SameOrders(FrontReduced(s, q), FrontReduced(t, q))
  {
    assert SameOrder(s[0], t[0]);
    SameTail(s, t);
    hide SameOrders;
    if q < s[0].quantity {
      SameCons(s[0].(quantity := s[0].quantity - q), t[0].(quantity := t[0].quantity - q), s[1..], t[1..]);
    }
  }

  lemma SameReduce(b: Book, c: Book, k: Key, q: nat)
    requires SameBook(b, c) && k in b.levels && b.levels[k] != [] && q <= b.levels[k][0].quantity
    ensures c.levels[k] != [] && q <= c.levels[k][0].quantity
    ensures SameBook(ReduceFront(b, k, q), ReduceFront(c, k, q))
  {
    assert SameOrders(b.levels[k], c.levels[k]);
    assert SameOrder(b.levels[k][0], c.levels[k][0]);
    hide SameBook;
    SameFrontReduced(b.levels[k], c.levels[k], q);
    SameSetLevel(b, c, k, FrontReduced(b.levels[k], q), FrontReduced(c.levels[k], q), ReduceFront(b, k, q).index);
    hide SetLevel, FrontReduced;
    assert b.index == c.index by { SameIndex(b, c); }
  }

  lemma SameIndex(b: Book, c: Book)
    requires SameBook(b, c)
    ensures b.index == c.index && b.capacity == c.capacity
  {
  }

  lemma SameMaker(b: Book, c: Book, t: Order, u: Order)
    requires SameBook(b, c) && SameOrder(t, u) && Consistent(b) && Consistent(c)
    ensures var m := CrossingMaker(b, t);
            var n := CrossingMaker(c, u);
            && (m.None? <==> n.None?)
            && (m.Some? ==> SameOrder(m.value, n.value))
  {
    var side := Opposite(t.side);
    hide Consistent, SameBook, BestPrice;
    SameBestPrice(b, c, side);
    BestPriceIsBest(b, side);
    if BestPrice(b, side).Some? {
      SameFront(b, c, Key(side, BestPrice(b, side).value));
    }
  }

  lemma SameBestPrice(b: Book, c: Book, side: Side)
    requires SameBook(b, c)
    ensures BestPrice(b, side) == BestPrice(c, side)
  {
    assert Prices(b.levels, side) == Prices(c.levels, side);
  }

  lemma SameFront(b: Book, c: Book, k: Key)
    requires SameBook(b, c) && Consistent(b) && k in b.levels
    ensures b.levels[k] != [] && c.levels[k] != [] && SameOrder(b.levels[k][0], c.levels[k][0])
  {
    assert SameOrders(b.levels[k], c.levels[k]);
    assert LevelOk(b.levels[k], k, b.index);
  }

  lemma {:induction false} SameMatch(b: Book, c: Book, t: Order, u: Order)
    requires SameBook(b, c) && SameOrder(t, u) && Consistent(b) && Consistent(c)
    ensures var m := Match(b, t);
            var n := Match(c, u);
            && SameBook(m.book, n.book) && SameOrder(m.taker, n.taker)
            && m.fills == n.fills && m.selfTrade == n.selfTrade
    decreases t.quantity, |b.index|
  {
    hide SameBook, Consistent, CrossingMaker, ReduceFront;
    SameMaker(b, c, t, u);
    if t.quantity > 0 && CrossingMaker(b, t).Some? {
      var maker := CrossingMaker(b, t).value;
      if maker.traderId != t.traderId {
        var q := Min(t.quantity, maker.quantity);
        ReduceFrontConsistent(b, KeyOf(maker), q);
        SameReduce(b, c, KeyOf(maker), q);
        ReduceFrontConsistent(c, KeyOf(maker), q);
        SameMatch(ReduceFront(b, KeyOf(maker), q), ReduceFront(c, KeyOf(maker), q),
                  t.(quantity := t.quantity - q), u.(quantity := u.quantity - q));
      }
    }
  }

  lemma SameInsert(b: Book, c: Book, o: Order, p: Order)
    requires SameBook(b, c) && SameOrder(o, p)
    ensures Insert(b, o).Ok? <==> Insert(c, p).Ok?
    ensures Insert(b, o).Err? ==> Insert(c, p) == Insert(b, o)
    ensures Insert(b, o).Ok? ==> SameBook(Insert(b, o).value, Insert(c, p).value)
  {
    if Insert(b, o).Ok? {
      var k := KeyOf(o);
      var s := Get(b.levels, k);
      var t := Get(c.levels, k);
      assert SameOrders(s, t);
      assert SameOrders(s + [o], t + [p]);
      hide SameOrders;
      SameSetLevel(b, c, k, s + [o], t + [p], b.index[o.id := k]);
    }
  }

  lemma SameAdd(b: Book, c: Book, o: Order, p: Order)
    requires SameBook(b, c) && SameOrder(o, p) && Consistent(b) && Consistent(c)
    ensures var x := Add(b, o);
            var y := Add(c, p);
            SameBook(x.book, y.book) && x.result == y.result && x.fills == y.fills
  {
    hide SameBook, Consistent, Match, Insert;
    if o.quantity > 0 {
      SameMatch(b, c, o, p);
      SameInsert(Match(b, o).book, Match(c, p).book, Match(b, o).taker, Match(c, p).taker);
    }
  }

  lemma SameCancel(b: Book, c: Book, id: OrderId)
    requires SameBook(b, c) && Consistent(b) && Consistent(c)
    ensures var x := Cancel(b, id);
            var y := Cancel(c, id);
            SameBook(x.book, y.book) && SameResponse(Cancelled(x.result), Cancelled(y.result))
  {
    hide SameBook, Consistent, SetLevel, Without, Position, SameOrders;
    SameIndex(b, c);
    if id in b.index {
      var k := b.index[id];
      IndexedLevel(b, id);
      IndexedLevel(c, id);
      SameAt(b, c, k);
      var s := b.levels[k];
      var t := c.levels[k];
      SamePosition(s, t, id);
      var i := Position(s, id);
      SameAtPosition(s, t, i);
      SameWithout(s, t, i);
      SameSetLevel(b, c, k, Without(s, i), Without(t, i), b.index - {id});
    }
  }

  lemma SameAt(b: Book, c: Book, k: Key)
    requires SameBook(b, c) && k in b.levels && k in c.levels
    ensures SameOrders(b.levels[k], c.levels[k])
  {
  }

  lemma SameAtPosition(s: seq<Order>, t: seq<Order>, i: nat)
    requires SameOrders(s, t) && i < |s|
    ensures i < |t| && SameOrder(s[i], t[i])
  {
  }

  /** Commands equal up to timestamps keep books equal up to timestamps. */
  lemma SameApply(b: Book, c: Book, x: Command, y: Command)
    requires SameBook(b, c) && SameCommand(x, y) && Consistent(b) && Consistent(c)
    ensures SameBook(Apply(b, x).book, Apply(c, y).book)
    ensures SameResponse(Apply(b, x).response, Apply(c, y).response)
  {
    hide SameBook, Consistent, Add, Cancel;
    match x
    case NewOrder(o) => SameAdd(b, c, o, y.order);
    case CancelOrder(id) => SameCancel(b, c, id);
  }

  // ---------------------------------------------------------------- runs

  ghost predicate SameResponses(rs: seq<Response>, ss: seq<Response>) {
    |rs| == |ss| && forall i :: 0 <= i < |rs| ==> SameResponse(rs[i], ss[i])
  }

  lemma SameResponsesCons(r: Response, s: Response, rs: seq<Response>, ss: seq<Response>)
    requires SameResponse(r, s) && SameResponses(rs, ss)
    ensures SameResponses([r] + rs, [s] + ss)
  {
  }

  lemma SameCommandsTail(xs: seq<Command>, ys: seq<Command>)
    requires SameCommands(xs, ys) && xs != []
    ensures SameCommand(xs[0], ys[0]) && SameCommands(xs[1..], ys[1..])
  {
    forall i | 0 <= i < |xs| - 1
      ensures SameCommand(xs[1..][i], ys[1..][i])
    {
      assert SameCommand(xs[i + 1], ys[i + 1]);
    }
  }

  lemma {:induction false} SameReplay(b: Book, c: Book, xs: seq<Command>, ys: seq<Command>)
    requires SameBook(b, c) && SameCommands(xs, ys) && Consistent(b) && Consistent(c)
    ensures SameBook(Replay(b, xs), Replay(c, ys))
    ensures SameResponses(Responses(b, xs), Responses(c, ys))
    decreases |xs|
  {
    assert |xs| == |ys|;
    hide SameBook, Apply, SameResponse, SameCommands, Consistent, WF;
    if xs != [] {
      SameCommandsTail(xs, ys);
      ApplyWF(b, xs[0]);
      ApplyWF(c, ys[0]);
      SameApply(b, c, xs[0], ys[0]);
      var b' := Apply(b, xs[0]).book;
      var c' := Apply(c, ys[0]).book;
      SameReplay(b', c', xs[1..], ys[1..]);
      SameResponsesCons(Apply(b, xs[0]).response, Apply(c, ys[0]).response,
                        Responses(b', xs[1..]), Responses(c', ys[1..]));
    }
  }

  // ---------------------------------------------------------------- commands that change nothing

  /**
   What a command finds when it will leave the book as it is: no such id to cancel; nothing to
   add; an own order as the first maker; or no maker, and an id or an arena that refuses it.
   */
  ghost predicate Harmless(b: Book, c: Command)
    requires Consistent(b)
  {
    match c
    case CancelOrder(id) => id !in b.index
    case NewOrder(o) =>
      || o.quantity == 0
      || match CrossingMaker(b, o)
         case Some(maker) => maker.traderId == o.traderId
         case None => o.id in b.index || |b.index| == b.capacity
  }

  /** A command leaves the book as it is, up to timestamps, exactly when it is harmless. */
  lemma HarmlessExactly(b: Book, c: Command)
    requires Consistent(b)
    ensures SameBook(Apply(b, c).book, b) <==> Harmless(b, c)
  {
    hide Consistent, CrossingMaker, Add, Cancel, SameBook;
    SameBookReflexive(b);
    match c
    case CancelOrder(id) => CancelChanges(b, id);
    case NewOrder(o) =>
      if o.quantity > 0 && CrossingMaker(b, o).Some? && CrossingMaker(b, o).value.traderId != o.traderId {
        TradeChanges(b, o, CrossingMaker(b, o).value);
      } else {
        QuietAdd(b, o);
      }
  }

  lemma SameBookReflexive(b: Book)
    ensures SameBook(b, b)
  {
  }

  lemma CancelChanges(b: Book, id: OrderId)
    requires Consistent(b)
    ensures if id in b.index then !SameBook(Cancel(b, id).book, b) else Cancel(b, id).book == b
  {
    hide Consistent, SetLevel, Without;
    if id in b.index {
      IndexedLevel(b, id);
      assert id !in Cancel(b, id).book.index;
    }
  }

  /** An add that meets no maker, or its own order, changes the book exactly by resting. */
  lemma QuietAdd(b: Book, o: Order)
    requires Consistent(b)
    requires o.quantity == 0 || CrossingMaker(b, o).None? || CrossingMaker(b, o).value.traderId == o.traderId
    ensures if Harmless(b, NewOrder(o)) then Add(b, o).book == b else !SameBook(Add(b, o).book, b)
  {
    hide LevelsOk, IndexOk, CrossingMaker, Get;
  }

  /** An add that trades leaves a lower front order, or no longer has its first maker on the maker's side. */
  lemma TradeChanges(b: Book, o: Order, maker: Order)
    requires Consistent(b) && o.quantity > 0
    requires CrossingMaker(b, o) == Some(maker) && maker.traderId != o.traderId
    ensures !SameBook(Add(b, o).book, b)
  {
    hide Consistent, CrossingMaker, ReduceFront, SameBook;
    var k := KeyOf(maker);
    var q := Min(o.quantity, maker.quantity);
    var o' := o.(quantity := o.quantity - q);
    ReduceFrontConsistent(b, k, q);
    var b' := ReduceFront(b, k, q);
    if q < maker.quantity {
      assert Match(b', o') == MatchOutcome(b', o', [], false);
      LoweredDiffers(b, k, q);
    } else {
      MatchIndexShrinks(b', o');
      MakerGone(b, k, maker);
      hide Match, Insert;
      IndexAfterAdd(b, o, maker.id);
      MovedDiffers(b, Add(b, o).book, maker.id);
    }
  }

  lemma LoweredDiffers(b: Book, k: Key, q: nat)
    requires Consistent(b) && k in b.levels && 0 < q < b.levels[k][0].quantity
    ensures !SameBook(ReduceFront(b, k, q), b)
  {
    var b' := ReduceFront(b, k, q);
    assert LevelOk(b.levels[k], k, b.index);
    assert k in b'.levels && b'.levels[k][0].quantity != b.levels[k][0].quantity;
    assert !SameOrder(b'.levels[k][0], b.levels[k][0]);
    assert !SameOrders(b'.levels[k], b.levels[k]);
  }

  lemma MakerGone(b: Book, k: Key, maker: Order)
    requires Consistent(b) && k in b.levels && b.levels[k] != [] && b.levels[k][0] == maker && KeyOf(maker) == k
    ensures maker.id in b.index && b.index[maker.id] == k && maker.id !in ReduceFront(b, k, maker.quantity).index
  {
    assert LevelOk(b.levels[k], k, b.index);
  }

  /** An id that matching removed is back after the add only on the taker's side. */
  lemma IndexAfterAdd(b: Book, o: Order, id: OrderId)
    requires Consistent(b) && o.quantity > 0 && id !in Match(b, o).book.index
    ensures id in Add(b, o).book.index ==> Add(b, o).book.index[id].side == o.side
  {
    hide Consistent, Match;
    MatchKeeps(b, o);
  }

  lemma MovedDiffers(b: Book, b': Book, id: OrderId)
    requires id in b.index && (id in b'.index ==> b'.index[id].side != b.index[id].side)
    ensures !SameBook(b', b)
  {
  }
}
