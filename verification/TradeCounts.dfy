/**
  How many trades the order book and the research matcher make.  At one price the book hits the oldest
  order first and the research matcher the smallest pair.  So they make the same number of trades while
  no queue has a smaller order behind a larger one, and otherwise may not.
 */
module TradeCounts {
  import opened Types
  import opened Orders
  import opened BookSpec
  import opened BookInvariant
  import opened BookOps
  import opened FlatBooks
  import opened Simulation
  import opened RunProperties
  import opened Retention
  import opened HeapMatcher
  import opened Agreement

  // ---- the quotes of a side -------------------------------------------------------------------------

  /** The pair that the research matcher keeps for an order. */
  function QuoteOf(o: OrderState): Quote {
    Quote(if o.side == SELL then o.price else BidKey(o.price), o.Remaining())
  }

  function QuoteIf(e: Resting, s: Side): multiset<Quote> {
    if e.order.side == s then multiset{QuoteOf(e.order)} else multiset{}
  }

  function Quotes(list: seq<Resting>, s: Side): multiset<Quote> {
    if list == [] then multiset{} else QuoteIf(list[0], s) + Quotes(list[1..], s)
  }

  lemma Regrouped(a: multiset<Quote>, x: multiset<Quote>, b: multiset<Quote>)
    ensures a + (x + b) == (a + x) + b
    ensures a + (x + b) - x == a + b
    ensures x <= a + (x + b)
  {
  }

  lemma {:induction false} QuotesConcat(l: seq<Resting>, r: seq<Resting>, s: Side)
    ensures Quotes(l + r, s) == Quotes(l, s) + Quotes(r, s)
  {
    hide QuoteIf;
    if l == [] {
      assert l + r == r;
    } else {
      QuotesConcat(l[1..], r, s);
      assert (l + r)[1..] == l[1..] + r;
      assert (l + r)[0] == l[0];
      Regrouped(QuoteIf(l[0], s), Quotes(l[1..], s), Quotes(r, s));
    }
  }

  lemma QuotesOne(e: Resting, s: Side)
    ensures Quotes([e], s) == QuoteIf(e, s)
  {
    assert Quotes([e][1..], s) == multiset{};
  }

  lemma QuotesAround(list: seq<Resting>, k: nat, e: Resting, s: Side)
    requires k < |list|
    ensures Quotes(TakeOut(list, k), s) == Quotes(list, s) - QuoteIf(list[k], s)
    ensures Quotes(list[k := e], s) == Quotes(TakeOut(list, k), s) + QuoteIf(e, s)
    ensures QuoteIf(list[k], s) <= Quotes(list, s)
  {
    hide Quotes, QuoteIf;
    QuotesMiddle(list, k, e, s);
    QuotesMiddle(list, k, list[k], s);
    assert list[k := list[k]] == list;
    var a, b := Quotes(list[..k], s), Quotes(list[k + 1..], s);
    QuotesConcat(list[..k], list[k + 1..], s);
    Regrouped(a, QuoteIf(list[k], s), b);
    assert a + (QuoteIf(e, s) + b) == (a + b) + QuoteIf(e, s);
  }

  lemma QuotesMiddle(list: seq<Resting>, k: nat, e: Resting, s: Side)
    requires k < |list|
    ensures Quotes(list[k := e], s) == Quotes(list[..k], s) + (QuoteIf(e, s) + Quotes(list[k + 1..], s))
  {
    hide Quotes, QuoteIf;
    QuotesConcat(list[..k], [e] + list[k + 1..], s);
    QuotesConcat([e], list[k + 1..], s);
    QuotesOne(e, s);
    assert list[k := e] == list[..k] + ([e] + list[k + 1..]);
  }

  lemma {:induction false} QuoteIsListed(list: seq<Resting>, s: Side, q: Quote) returns (k: nat)
    requires q in Quotes(list, s)
    ensures k < |list| && list[k].order.side == s && QuoteOf(list[k].order) == q
  {
    if q in QuoteIf(list[0], s) {
      k := 0;
    } else {
      k := QuoteIsListed(list[1..], s, q);
      k := k + 1;
    }
  }

  lemma {:induction false} PushAdds(h: Heap, q: Quote)
    requires HeapOk(h) && q.qty > 0
    ensures multiset(Push(h, q)) == multiset(h) + multiset{q}
  {
    if h == [] || Smaller(q, h[0]) {
    } else {
      PushAdds(h[1..], q);
      assert h == [h[0]] + h[1..];
    }
  }

  lemma AllButFirst(h: Heap)
    requires HeapOk(h) && h != []
    ensures HeapOk(h[1..]) && multiset(h[1..]) == multiset(h) - multiset{h[0]}
  {
    assert h == [h[0]] + h[1..];
  }

  lemma AfterHitQuotes(h: Heap, u: int)
    requires HeapOk(h) && h != [] && 0 < u <= h[0].qty
    ensures var left := h[0].qty - u;
      multiset(AfterHit(h, u)) ==
        multiset(h) - multiset{h[0]} + if left > 0 then multiset{Quote(h[0].key, left)} else multiset{}
  {
    hide HeapOk, Push;
    AllButFirst(h);
    if h[0].qty - u > 0 {
      PushAdds(h[1..], Quote(h[0].key, h[0].qty - u));
    }
  }

  // ---- hitting the same order -----------------------------------------------------------------------

  predicate SamePlace(o: OrderState, o': OrderState) {
    o.side == o'.side && o.price == o'.price
  }

  /** At no price does a smaller order stand behind a larger one. */
  ghost predicate Growing(list: seq<Resting>) {
    forall i, j :: 0 <= i < j < |list| && SamePlace(list[i].order, list[j].order) ==>
      list[i].order.Remaining() <= list[j].order.Remaining()
  }

  /** The list holds limit orders whose quotes are the pairs of the heap. */
  ghost predicate SameQuotes(f: FlatBook, h: Heap, s: Side) {
    HeapOk(h) && multiset(h) == Quotes(f.list, s)
  }

  /** The front order of a growing list has the smallest of all quotes of its side. */
  lemma FrontQuote(list: seq<Resting>, s: Side, i: nat)
    requires Growing(list) && s != INVALID && i < |list| && list[i].order.side == s
    ensures Front(list, s).Some? && Smaller(QuoteOf(list[Front(list, s).value].order), QuoteOf(list[i].order))
  {
    FrontIsBest(list, s);
    hide Front;
    var k := Front(list, s).value;
    assert list[i].order.price == list[k].order.price ==> k <= i;
  }

  lemma SmallestFirst(h: Heap, q: Quote)
    requires HeapOk(h) && q in multiset(h)
    ensures h != [] && Smaller(h[0], q)
  {
    var j :| 0 <= j < |h| && h[j] == q;
  }

  /** Then the order that the book hits first has the smallest pair. */
  lemma FrontIsSmallest(f: FlatBook, h: Heap, s: Side)
    requires Growing(f.list) && SameQuotes(f, h, s) && s != INVALID
    ensures Front(f.list, s).Some? <==> h != []
    ensures h != [] ==> h[0] == QuoteOf(f.list[Front(f.list, s).value].order)
  {
    hide Front, Growing, Quotes, HeapOk;
    if Front(f.list, s).Some? {
      var k := Front(f.list, s).value;
      QuotesAround(f.list, k, f.list[k], s);
      assert QuoteOf(f.list[k].order) in QuoteIf(f.list[k], s);
      SmallestFirst(h, QuoteOf(f.list[k].order));
    }
    if h != [] {
      assert h[0] in multiset(h);
      var i := QuoteIsListed(f.list, s, h[0]);
      FrontQuote(f.list, s, i);
    }
  }

  /** The limit of an order as a key of the opposite heap. */
  function LimitKey(o: OrderState): int {
    if o.side == BUY then o.price else BidKey(o.price)
  }

  /** The k-th order gives u, and so does the smallest pair, which is its quote. */
  lemma HitQuotes(list: seq<Resting>, list': seq<Resting>, k: nat, r: OrderState, h: Heap, u: int, s: Side)
    requires k < |list| && s != INVALID && list[k].order.side == s && HeapOk(h) && multiset(h) == Quotes(list, s)
    requires h != [] && h[0] == QuoteOf(list[k].order) && 0 < u <= h[0].qty
    requires r.side == s && r.price == list[k].order.price && r.Remaining() == h[0].qty - u
    requires list' == if r.Remaining() > 0 then list[k := list[k].(order := r)] else TakeOut(list, k)
    ensures multiset(AfterHit(h, u)) == Quotes(list', s) && Quotes(list', Opposite(s)) == Quotes(list, Opposite(s))
  {
    hide Quotes, HeapOk, Push, AfterHit, TakeOut, OrderState.Remaining;
    var e := list[k].(order := r);
    QuotesAround(list, k, e, s);
    QuotesAround(list, k, e, Opposite(s));
    AfterHitQuotes(h, u);
  }

  /** One round: both hit the same order, by as much, and it stays the first one. */
  lemma StepCounts(f: FlatBook, h: Heap, o: OrderState)
    requires FlatOk(f) && o.Sane() && o.side != INVALID && o.Pending() > 0 && AllLimit(f)
    requires Growing(f.list) && SameQuotes(f, h, Opposite(o.side)) && h != []
    requires Front(f.list, Opposite(o.side)).Some?
    ensures h[0].qty > 0
    ensures var u := Min(o.Pending(), h[0].qty); var (f', o') := NaiveStep(f, o);
      && o'.Pending() == o.Pending() - u && |f'.trades| == |f.trades| + 1
      && SameQuotes(f', AfterHit(h, u), Opposite(o.side)) && Growing(f'.list)
      && Quotes(f'.list, o.side) == Quotes(f.list, o.side)
  {
    hide Front, Quotes, HeapOk, AfterHit, TakeOut, Growing;
    FrontIsSmallest(f, h, Opposite(o.side));
    FirstIsPositive(h);
    FrontIsBest(f.list, Opposite(o.side));
    var k := Front(f.list, Opposite(o.side)).value;
    var r := f.list[k].order;
    ListedFit(f, k);
    var u: Qty := Min(o.Pending(), r.Pending());
    FilledOrder(o, u);
    FilledOrder(r, u);
    HitQuotes(f.list, NaiveStep(f, o).0.list, k, r.AddFill(u), h, u, Opposite(o.side));
    StillGrowing(f, k, f.list[k].(order := r.AddFill(u)));
  }

  lemma StillGrowing(f: FlatBook, k: nat, e: Resting)
    requires Growing(f.list) && k < |f.list|
    requires e.order.side == f.list[k].order.side && e.order.price == f.list[k].order.price
    requires e.order.Remaining() <= f.list[k].order.Remaining()
    requires forall i :: 0 <= i < k && f.list[i].order.side == e.order.side ==> f.list[i].order.price != e.order.price
    ensures Growing(f.list[k := e]) && Growing(TakeOut(f.list, k))
  {
    hide OrderState.Remaining;
    var list := TakeOut(f.list, k);
    forall i, j | 0 <= i < j < |list| && SamePlace(list[i].order, list[j].order)
      ensures list[i].order.Remaining() <= list[j].order.Remaining()
    {
      assert list[i] == f.list[if i < k then i else i + 1] && list[j] == f.list[if j < k then j else j + 1];
    }
  }

  /** One match makes as many trades in the book as on the heap, and leaves the same quotes. */
  lemma {:induction false} LoopCounts(f: FlatBook, h: Heap, o: OrderState)
    requires FlatOk(f) && o.Sane() && o.side != INVALID && AllLimit(f)
    requires Growing(f.list) && SameQuotes(f, h, Opposite(o.side))
    ensures var (f', o') := NaiveLoop(f, o, true); var r := Hit(h, LimitKey(o), o.Pending());
      && SameQuotes(f', r.heap, Opposite(o.side)) && Quotes(f'.list, o.side) == Quotes(f.list, o.side)
      && r.left == o'.Pending() && |f'.trades| == |f.trades| + r.trades
    decreases o.Pending(), |f.list|
  {
    hide FlatOk, Front, NaiveStep, Growing, SameQuotes, AfterHit, HeapOk, AllLimit, QuoteOf;
    QuotesAreHeap(f, h, Opposite(o.side));
    FrontIsSmallest(f, h, Opposite(o.side));
    SameLimit(f, h, o);
    if NaiveCanMatch(f, o, true) {
      NaiveStepKeeps(f, o);
      StepCounts(f, h, o);
      StepAllLimit(f, o);
      var (f', o') := NaiveStep(f, o);
      LoopCounts(f', AfterHit(h, Min(o.Pending(), h[0].qty)), o');
    }
  }

  lemma QuotesAreHeap(f: FlatBook, h: Heap, s: Side)
    requires SameQuotes(f, h, s)
    ensures HeapOk(h)
  {
  }

  lemma SameLimit(f: FlatBook, h: Heap, o: OrderState)
    requires o.side != INVALID && HeapOk(h)
    requires Front(f.list, Opposite(o.side)).Some? <==> h != []
    requires h != [] ==> h[0] == QuoteOf(f.list[Front(f.list, Opposite(o.side)).value].order)
    ensures NaiveCanMatch(f, o, true) <==> CanHit(h, LimitKey(o), o.Pending())
  {
    hide Front, HeapOk;
  }

  lemma StepAllLimit(f: FlatBook, o: OrderState)
    requires FlatOk(f) && AllLimit(f) && Front(f.list, Opposite(o.side)).Some?
    ensures AllLimit(NaiveStep(f, o).0)
  {
    hide Front;
  }

  // ---- one row --------------------------------------------------------------------------------------

  ghost predicate SameCounts(f: FlatBook, m: Books) {
    SameQuotes(f, m.sell, SELL) && SameQuotes(f, m.buy, BUY) && |f.trades| == m.trades
  }

  /** What is left of the order joins its own quotes and its own heap. */
  lemma LeftoverCounts(f: FlatBook, f': FlatBook, h: Heap, o: OrderState)
    requires f'.list == f.list + [Resting(o.Refresh(), f.clock)] && o.Sane() && o.kind == LIMIT && o.Pending() > 0
    requires o.Remaining() == o.Pending() && o.side != INVALID && SameQuotes(f, h, o.side)
    ensures SameQuotes(f', PushLeft(h, QuoteOf(o).key, o.Pending()), o.side)
    ensures Quotes(f'.list, Opposite(o.side)) == Quotes(f.list, Opposite(o.side))
  {
    hide Quotes, HeapOk, Push;
    RefreshExposes(o);
    var e := Resting(o.Refresh(), f.clock);
    QuotesConcat(f.list, [e], o.side);
    QuotesConcat(f.list, [e], Opposite(o.side));
    QuotesOne(e, o.side);
    QuotesOne(e, Opposite(o.side));
    PushAdds(h, QuoteOf(o));
  }

  lemma RowCounts(f: FlatBook, m: Books, o: OrderState)
    requires FlatOk(f) && AllLimit(f) && Growing(f.list) && SameCounts(f, m) && AsBuilt(o) && o.kind == LIMIT
    requires var (f', o') := NaiveLoop(f, o, true);
      o'.Pending() > 0 ==> NaiveRest(f', o').list == f'.list + [Resting(o'.Refresh(), f'.clock)]
    ensures BooksOk(m) && SameCounts(NaiveProcess(f, o, false), MatchRow(m, RowOf(o)))
  {
    hide FlatOk, Front, NaiveLoop, NaiveRest, Growing, AllLimit, Hit, Push, PushLeft, HeapOk, SameQuotes,
      OrderState.Refresh, Quotes, QuoteIf;
    var h := if o.side == BUY then m.sell else m.buy;
    var own := if o.side == BUY then m.buy else m.sell;
    QuotesAreHeap(f, h, Opposite(o.side));
    QuotesAreHeap(f, own, o.side);
    LoopCounts(f, h, o);
    NaiveLoopKeeps(f, o, true);
    HitTakes(h, LimitKey(o), o.Pending());
    var (f', o') := NaiveLoop(f, o, true);
    if o'.Pending() > 0 {
      RestReports(f', o');
      OwnQuotes(f, f', own, o.side);
      LeftoverCounts(f', NaiveRest(f', o'), own, o');
      OwnQuotes(f', NaiveRest(f', o'), Hit(h, LimitKey(o), o.Pending()).heap, Opposite(o.side));
    } else {
      OwnQuotes(f, f', own, o.side);
      NothingPushed(own, QuoteOf(o).key, o'.Pending());
    }
  }

  lemma OwnQuotes(f: FlatBook, f': FlatBook, h: Heap, s: Side)
    requires SameQuotes(f, h, s) && Quotes(f'.list, s) == Quotes(f.list, s)
    ensures SameQuotes(f', h, s)
  {
    hide Quotes, HeapOk;
  }

  lemma NothingPushed(h: Heap, key: int, left: int)
    requires HeapOk(h) && left <= 0
    ensures PushLeft(h, key, left) == h
  {
    hide HeapOk, Push;
  }

  // ---- runs -----------------------------------------------------------------------------------------

  /** In no queue does an order with less left stand behind one with more. */
  ghost predicate GrowingQueues(b: BookState) {
    forall s, p, i, j {:trigger b.Queue(s, p)[i], b.Queue(s, p)[j]} ::
      s != INVALID && 0 <= i < j < |b.Queue(s, p)|
      && b.Queue(s, p)[i].id in b.orders && b.Queue(s, p)[j].id in b.orders ==>
      b.orders[b.Queue(s, p)[i].id].Remaining() <= b.orders[b.Queue(s, p)[j].id].Remaining()
  }

  lemma GrowingList(b: BookState, f: FlatBook)
    requires Inv(b) && Sim(b, f) && FlatOk(f) && GrowingQueues(b)
    ensures Growing(f.list)
  {
    hide Inv, Sim, FlatOk, OrderState.Remaining;
    IndexedStored(b);
    hide InvBut;
    forall i, j | 0 <= i < j < |f.list| && SamePlace(f.list[i].order, f.list[j].order)
      ensures f.list[i].order.Remaining() <= f.list[j].order.Remaining()
    {
      ListedSide(f, i);
      ListedSide(f, j);
      var k := ListedIsQueued(b, None, f, i);
      var l := ListedIsQueued(b, None, f, j);
      LaterPick(f.list, i, j);
      var s, p := f.list[i].order.side, f.list[i].order.price;
      assert b.Queue(s, p)[k].id == f.list[i].order.id && b.Queue(s, p)[l].id == f.list[j].order.id;
    }
  }

  lemma LaterPick(list: seq<Resting>, i: nat, j: nat)
    requires i < j < |list|
    ensures var s, p := list[i].order.side, list[i].order.price; |Pick(list[..i], s, p)| < |Pick(list[..j], s, p)|
  {
    var s, p := list[i].order.side, list[i].order.price;
    assert list[..j] == list[..i] + ([list[i]] + list[i + 1..j]);
    PickConcat(list[..i], [list[i]] + list[i + 1..j], s, p);
    PickConcat([list[i]], list[i + 1..j], s, p);
    PickOne(list[i], s, p);
  }

  /** Before every operation of the run, no queue has a smaller order behind a larger one. */
  ghost predicate GrowingRun(b: BookState, ops: seq<Op>)
    requires Inv(b)
    decreases |ops|
  {
    ops == [] ||
    (GrowingQueues(b) && Allowed(b, ops[0]) && (ApplyKeeps(b, ops[0]); GrowingRun(Apply(b, ops[0]), ops[1..])))
  }

  lemma ApplyCounts(b: BookState, f: FlatBook, done: seq<Row>, op: Op)
    requires Inv(b) && Sim(b, f) && FlatOk(f) && NoStale(b) && Allowed(b, op) && DropsNothing(b, op) && IsLimit(op)
    requires SameCounts(f, MatchRows(done)) && AllLimit(f) && GrowingQueues(b)
    ensures Inv(Apply(b, op)) && NoStale(Apply(b, op)) && op.order.Sane()
    ensures var f' := NaiveApply(f, op, Accepts(b, op));
      Sim(Apply(b, op), f') && FlatOk(f') && AllLimit(f') && SameCounts(f', MatchRows(done + [RowOf(op.order)]))
  {
    hide Inv, Sim, FlatOk, NoStale, SameCounts, AllLimit, AddOrder, NaiveProcess, Accepts, DropsNothing, Growing,
      GrowingQueues, MatchRow;
    ApplyKeeps(b, op);
    ApplyLive(b, op);
    SimApply(b, f, op);
    GrowingList(b, f);
    AddAppends(b, f, op.order);
    RowCounts(f, MatchRows(done), op.order);
    LimitAccepted(f, op.order, Accepts(b, op));
    ProcessAllLimit(f, op.order);
    var more := done + [RowOf(op.order)];
    assert more[..|more| - 1] == done;
  }

  lemma {:induction false} CountsOverRuns(b: BookState, f: FlatBook, done: seq<Row>, ops: seq<Op>, b': BookState)
    requires Inv(b) && Sim(b, f) && FlatOk(f) && NoStale(b) && RetainingRun(b, ops) && GrowingRun(b, ops)
    requires Runs(b, ops, b')
    requires SameCounts(f, MatchRows(done)) && AllLimit(f)
    requires forall i :: 0 <= i < |ops| ==> IsLimit(ops[i])
    ensures |b'.trades| == MatchRows(done + RowsOf(ops)).trades
    decreases |ops|
  {
    hide Inv, Sim, FlatOk, NoStale, SameQuotes, AllLimit, Apply, NaiveApply, Accepts, DropsNothing, GrowingQueues,
      MatchRows, RowOf;
    if ops == [] {
      SameTrades(b, f);
      assert done + RowsOf(ops) == done;
    } else {
      assert IsLimit(ops[0]);
      ApplyCounts(b, f, done, ops[0]);
      var row := RowOf(ops[0].order);
      CountsOverRuns(Apply(b, ops[0]), NaiveApply(f, ops[0], Accepts(b, ops[0])), done + [row], ops[1..], b');
      assert done + [row] + RowsOf(ops[1..]) == done + RowsOf(ops);
    }
  }

  /** After any run of limit orders that drops no level, and in which no queue ever has a smaller order
      behind a larger one, book and research matcher have made the same number of trades. */
  lemma CountsAgree(ops: seq<Op>, b: BookState)
    requires Inv(EMPTY_BOOK) && RetainingRun(EMPTY_BOOK, ops) && GrowingRun(EMPTY_BOOK, ops) && Runs(EMPTY_BOOK, ops, b)
    requires forall i :: 0 <= i < |ops| ==> IsLimit(ops[i])
    ensures |b.trades| == MatchRows(RowsOf(ops)).trades
  {
    hide Inv, Sim, FlatOk, RetainingRun, GrowingRun, Runs, RowsOf;
    EmptySim();
    CountsOverRuns(EMPTY_BOOK, EMPTY_FLAT, [], ops, b);
    assert [] + RowsOf(ops) == RowsOf(ops);
  }
}
