/**
  The order book and the research matcher agree: on limit orders, as long as no level is dropped,
  both trade the same total quantity and leave the same quantity at every price.
 */
module Agreement {
  import opened Types
  import opened Orders
  import opened PriceWindows
  import opened BookSpec
  import opened BookInvariant
  import opened BookOps
  import opened FlatBooks
  import opened Simulation
  import opened RunProperties
  import opened Conservation
  import opened BookTotals
  import opened Depths
  import opened DepthRuns
  import opened Retention
  import opened HeapMatcher

  // ---- the book takes from the front, too -----------------------------------------------------------

  /** What an order of side s with limit x would find. */
  function UpTo(f: FlatBook, s: Side, x: Price): nat {
    Total(f.list, Whole, InReach(s, x, true))
  }

  lemma StepSweeps(f: FlatBook, o: OrderState, x: Price)
    requires FlatOk(f) && o.Sane() && Front(f.list, Opposite(o.side)).Some?
    ensures var t := Min(o.Pending(), f.list[Front(f.list, Opposite(o.side)).value].order.Pending());
      UpTo(NaiveStep(f, o).0, o.side, x) == Positive(UpTo(f, o.side, x) - t)
  {
    hide FlatOk, Front, NaiveStep, Total, Selects;
    var k := Front(f.list, Opposite(o.side)).value;
    var sel := InReach(o.side, x, true);
    StepTotal(f, o, sel);
    if Selects(sel, f.list[k].order) {
      ListedFit(f, k);
      TotalAround(f.list, k, f.list[k], sel);
    } else {
      NothingNearer(f, o, k, x);
    }
  }

  /** Where the front order is out of reach, so are all others. */
  lemma NothingNearer(f: FlatBook, o: OrderState, k: nat, x: Price)
    requires Front(f.list, Opposite(o.side)) == Some(k) && k < |f.list|
    requires !Selects(InReach(o.side, x, true), f.list[k].order)
    ensures UpTo(f, o.side, x) == 0
  {
    FrontIsBest(f.list, Opposite(o.side));
    TotalNone(f.list, Whole, InReach(o.side, x, true));
  }

  /** One match takes its traded quantity from the front: at every price, what is offered up to there
      goes down by that much, or to nothing. */
  lemma {:induction false} LoopSweeps(f: FlatBook, o: OrderState, respectPrice: bool, x: Price)
    requires FlatOk(f) && o.Sane()
    ensures var (f', o') := NaiveLoop(f, o, respectPrice);
      UpTo(f', o.side, x) == Positive(UpTo(f, o.side, x) - (o'.filled - o.filled))
      && o'.filled >= o.filled
    decreases o.Pending(), |f.list|
  {
    hide FlatOk, Front, NaiveStep, Total;
    if NaiveCanMatch(f, o, respectPrice) {
      NaiveStepKeeps(f, o);
      StepSweeps(f, o, x);
      var (f', o') := NaiveStep(f, o);
      LoopSweeps(f', o', respectPrice, x);
    }
  }

  /** The incoming order's own side is not touched. */
  lemma {:induction false} LoopOwnSide(f: FlatBook, o: OrderState, respectPrice: bool, x: Price)
    requires FlatOk(f) && o.Sane() && o.side != INVALID
    ensures UpTo(NaiveLoop(f, o, respectPrice).0, Opposite(o.side), x) == UpTo(f, Opposite(o.side), x)
    decreases o.Pending(), |f.list|
  {
    hide FlatOk, Front, NaiveStep, Total;
    if NaiveCanMatch(f, o, respectPrice) {
      NaiveStepKeeps(f, o);
      StepTotal(f, o, InReach(Opposite(o.side), x, true));
      var (f', o') := NaiveStep(f, o);
      LoopOwnSide(f', o', respectPrice, x);
    }
  }

  // ---- one row --------------------------------------------------------------------------------------

  /** Bids are kept under their negated price. */
  function BidKey(p: int): int {
    -p
  }

  /** Both matchers offer the same on both sides up to every price, and have traded as much. */
  ghost predicate Agree(f: FlatBook, m: Books) {
    && BooksOk(m)
    && (forall x: Price {:trigger UpTo(f, BUY, x)} :: UpTo(f, BUY, x) == Offered(m.sell, x))
    && (forall x: Price {:trigger UpTo(f, SELL, x)} :: UpTo(f, SELL, x) == Offered(m.buy, BidKey(x)))
    && SumQty(f.trades) == m.traded
  }

  function RowOf(o: OrderState): Row {
    Row(if o.side == BUY then "BUY" else "SELL", o.price, o.total)
  }

  lemma RestReports(f: FlatBook, o: OrderState)
    ensures NaiveRest(f, o).trades == f.trades
  {
  }

  /** What is left of an order after matching joins its own side. */
  lemma AppendedUpTo(f: FlatBook, f': FlatBook, o: OrderState, s: Side, x: Price)
    requires f'.list == f.list + [Resting(o.Refresh(), f.clock)] && o.filled <= o.total
    ensures UpTo(f', s, x) == UpTo(f, s, x) +
      if o.side == Opposite(s) && Crosses(s, x, o.price) then o.Remaining() else 0
  {
    RefreshExposes(o);
    TotalConcat(f.list, [Resting(o.Refresh(), f.clock)], Whole, InReach(s, x, true));
    TotalOne(Resting(o.Refresh(), f.clock), InReach(s, x, true));
  }

  lemma BidsAgree(f: FlatBook, m: Books, o: OrderState)
    requires FlatOk(f) && Agree(f, m) && AsBuilt(o) && o.side == BUY
    requires var (f', o') := NaiveLoop(f, o, true);
      o'.Pending() > 0 ==> NaiveRest(f', o').list == f'.list + [Resting(o'.Refresh(), f'.clock)]
    ensures Agree(NaiveExecute(f, o, true, true), MatchRow(m, RowOf(o)))
  {
    hide FlatOk, Front, NaiveLoop, NaiveRest, Total, SumQty, Hit, Push, Offered, HeapOk, OrderState.Refresh;
    var (f', o') := NaiveLoop(f, o, true);
    NaiveLoopKeeps(f, o, true);
    LoopConserves(f, o, true);
    HitTakes(m.sell, o.price, o.total);
    MatchRowKeeps(m, RowOf(o));
    assert UpTo(f, BUY, o.price) == Offered(m.sell, o.price);
    RestReports(f', o');
    var f'' := NaiveExecute(f, o, true, true);
    forall x: Price
      ensures UpTo(f'', BUY, x) == Offered(MatchRow(m, RowOf(o)).sell, x)
      ensures UpTo(f'', SELL, x) == Offered(MatchRow(m, RowOf(o)).buy, BidKey(x))
    {
      assert UpTo(f, BUY, x) == Offered(m.sell, x) && UpTo(f, SELL, x) == Offered(m.buy, BidKey(x));
      LoopSweeps(f, o, true, x);
      LoopOwnSide(f, o, true, x);
      HitSweeps(m.sell, o.price, o.total, x);
      if o'.Pending() > 0 {
        AppendedUpTo(f', f'', o', BUY, x);
        AppendedUpTo(f', f'', o', SELL, x);
        OfferedPush(m.buy, Quote(BidKey(o.price), o'.Pending()), BidKey(x));
      }
    }
  }

  lemma AsksAgree(f: FlatBook, m: Books, o: OrderState)
    requires FlatOk(f) && Agree(f, m) && AsBuilt(o) && o.side == SELL
    requires var (f', o') := NaiveLoop(f, o, true);
      o'.Pending() > 0 ==> NaiveRest(f', o').list == f'.list + [Resting(o'.Refresh(), f'.clock)]
    ensures Agree(NaiveExecute(f, o, true, true), MatchRow(m, RowOf(o)))
  {
    hide FlatOk, Front, NaiveLoop, NaiveRest, Total, SumQty, Hit, Push, Offered, HeapOk, OrderState.Refresh;
    var (f', o') := NaiveLoop(f, o, true);
    NaiveLoopKeeps(f, o, true);
    LoopConserves(f, o, true);
    HitTakes(m.buy, BidKey(o.price), o.total);
    MatchRowKeeps(m, RowOf(o));
    assert UpTo(f, SELL, o.price) == Offered(m.buy, BidKey(o.price));
    RestReports(f', o');
    var f'' := NaiveExecute(f, o, true, true);
    forall x: Price
      ensures UpTo(f'', BUY, x) == Offered(MatchRow(m, RowOf(o)).sell, x)
      ensures UpTo(f'', SELL, x) == Offered(MatchRow(m, RowOf(o)).buy, BidKey(x))
    {
      assert UpTo(f, BUY, x) == Offered(m.sell, x) && UpTo(f, SELL, x) == Offered(m.buy, BidKey(x));
      LoopSweeps(f, o, true, x);
      LoopOwnSide(f, o, true, x);
      HitSweeps(m.buy, BidKey(o.price), o.total, BidKey(x));
      if o'.Pending() > 0 {
        AppendedUpTo(f', f'', o', BUY, x);
        AppendedUpTo(f', f'', o', SELL, x);
        OfferedPush(m.sell, Quote(o.price, o'.Pending()), x);
      }
    }
  }

  // ---- runs -----------------------------------------------------------------------------------------

  /** Coming to rest without dropping a level only lengthens the list. */
  lemma RestAppends(b: BookState, f: FlatBook, id: OrderId)
    requires MatchInv(b, id) && Sim(b, f) && FlatOk(f) && Retains(b, b.orders[id].side, b.orders[id].price)
    ensures NaiveRest(f, b.orders[id]).list == f.list + [Resting(b.orders[id].Refresh(), f.clock)]
  {
    hide Inv, Sim, OrderState.Refresh;
    StoredOrder(b, id);
    IndexedStored(b);
    var o := b.orders[id];
    SameBase(b, f, o.side, o.price);
    var base := NaiveBase(f, o.side, o.price);
    forall i | 0 <= i < |f.list| && f.list[i].order.side == o.side
      ensures InWindow(base, f.list[i].order.price)
    {
      var j := ListedIsQueued(b, None, f, i);
      WindowedSide(b, o.side);
      EnsureLevelKeeps(o.side, b.SideOf(o.side), o.price);
    }
    EvictNothing(f.list, o.side, base);
  }

  predicate IsLimit(op: Op) {
    op.Add? && op.order.kind == LIMIT
  }

  /** Only limit orders are on the list. */
  ghost predicate AllLimit(f: FlatBook) {
    forall i :: 0 <= i < |f.list| ==> f.list[i].order.kind == LIMIT
  }

  lemma {:induction false} LoopAllLimit(f: FlatBook, o: OrderState, respectPrice: bool)
    requires FlatOk(f) && o.Sane() && AllLimit(f)
    ensures AllLimit(NaiveLoop(f, o, respectPrice).0)
    decreases o.Pending(), |f.list|
  {
    hide FlatOk, Front;
    if NaiveCanMatch(f, o, respectPrice) {
      NaiveStepKeeps(f, o);
      LoopAllLimit(NaiveStep(f, o).0, NaiveStep(f, o).1, respectPrice);
    }
  }

  lemma ProcessAllLimit(f: FlatBook, o: OrderState)
    requires FlatOk(f) && o.Sane() && o.kind == LIMIT && AllLimit(f)
    ensures AllLimit(NaiveProcess(f, o, false))
  {
    hide FlatOk, NaiveLoop, NaiveBase, Evict;
    LoopAllLimit(f, o, true);
    NaiveLoopKeeps(f, o, true);
    var (f', o') := NaiveLoop(f, o, true);
    var base := NaiveBase(f', o'.side, o'.price);
    EvictKeepsOrder(f'.list, o'.side, base);
    forall i | 0 <= i < |Evict(f'.list, o'.side, base)|
      ensures Evict(f'.list, o'.side, base)[i].order.kind == LIMIT
    {
      assert Evict(f'.list, o'.side, base)[i] in f'.list;
    }
  }

  /** What is left of an added limit order joins the end of the list, if no level is dropped. */
  lemma AddAppends(b: BookState, f: FlatBook, o: OrderState)
    requires Inv(b) && Addable(b, o) && Sim(b, f) && FlatOk(f) && o.kind == LIMIT && DropsNothing(b, Add(o))
    ensures var (f', o') := NaiveLoop(f, o, true);
      o'.Pending() > 0 ==> NaiveRest(f', o').list == f'.list + [Resting(o'.Refresh(), f'.clock)]
  {
    hide InvBut, Sim, FlatOk, Retains, MatchLoop, NaiveLoop, Rest, NaiveRest, ReachAmount, OrderState.Refresh,
      WindowTakes;
    AddedIsStored(b, o);
    SimStore(b, f, o);
    var b1 := b.WithOrder(o);
    StoredOrder(b1, o.id);
    SimLoop(b1, f, o.id, true);
    LoopTrades(b1, o.id, true);
    StoredReach(b, o);
    MatchLoopOwnSide(b1, o.id, true);
    NaiveLoopKeeps(f, o, true);
    var b2 := MatchLoop(b1, o.id, true);
    var (f', o') := NaiveLoop(f, o, true);
    if o'.Pending() > 0 {
      RetainsExactlyWhen(b, o.side, o.price);
      RetainsAlike(b, b2, o.side, o.price);
      RestAppends(b2, f', o.id);
    }
  }

  lemma AddAgrees(b: BookState, f: FlatBook, m: Books, o: OrderState)
    requires Inv(b) && Addable(b, o) && Sim(b, f) && FlatOk(f) && Agree(f, m) && o.kind == LIMIT
    requires DropsNothing(b, Add(o))
    ensures Agree(NaiveProcess(f, o, false), MatchRow(m, RowOf(o)))
  {
    hide Inv, Sim, FlatOk, Agree, NaiveLoop, NaiveRest, NaiveExecute, DropsNothing, OrderState.Refresh;
    AddAppends(b, f, o);
    if o.side == BUY {
      BidsAgree(f, m, o);
    } else {
      AsksAgree(f, m, o);
    }
  }

  function RowsOf(ops: seq<Op>): (rows: seq<Row>)
    requires forall i :: 0 <= i < |ops| ==> IsLimit(ops[i])
    ensures |rows| == |ops|
  {
    if ops == [] then [] else
    assert IsLimit(ops[0]);
    [RowOf(ops[0].order)] + RowsOf(ops[1..])
  }

  lemma ApplyAgrees(b: BookState, f: FlatBook, done: seq<Row>, op: Op)
    requires Inv(b) && Sim(b, f) && FlatOk(f) && NoStale(b) && Allowed(b, op) && DropsNothing(b, op) && IsLimit(op)
    requires Agree(f, MatchRows(done)) && AllLimit(f)
    ensures Inv(Apply(b, op)) && NoStale(Apply(b, op)) && op.order.Sane()
    ensures var f' := NaiveApply(f, op, Accepts(b, op));
      Sim(Apply(b, op), f') && FlatOk(f') && AllLimit(f') && Agree(f', MatchRows(done + [RowOf(op.order)]))
  {
    hide Inv, Sim, FlatOk, NoStale, Agree, AllLimit, AddOrder, NaiveProcess, Accepts, Retains, MatchRow;
    ApplyKeeps(b, op);
    ApplyLive(b, op);
    SimApply(b, f, op);
    AddAgrees(b, f, MatchRows(done), op.order);
    LimitAccepted(f, op.order, Accepts(b, op));
    ProcessAllLimit(f, op.order);
    var more := done + [RowOf(op.order)];
    assert more[..|more| - 1] == done;
  }

  lemma {:induction false} AgreeOverRuns(b: BookState, f: FlatBook, done: seq<Row>, ops: seq<Op>, b': BookState)
      returns (f': FlatBook)
    requires Inv(b) && Sim(b, f) && FlatOk(f) && NoStale(b) && RetainingRun(b, ops) && Runs(b, ops, b')
    requires Agree(f, MatchRows(done)) && AllLimit(f)
    requires forall i :: 0 <= i < |ops| ==> IsLimit(ops[i])
    ensures Inv(b') && Sim(b', f') && FlatOk(f')
    ensures Agree(f', MatchRows(done + RowsOf(ops))) && AllLimit(f')
    decreases |ops|
  {
    hide Inv, Sim, FlatOk, NoStale, Agree, AllLimit, Apply, NaiveApply, Accepts, DropsNothing, MatchRows, RowOf;
    if ops == [] {
      f' := f;
      assert done + RowsOf(ops) == done;
    } else {
      assert IsLimit(ops[0]);
      ApplyAgrees(b, f, done, ops[0]);
      var row := RowOf(ops[0].order);
      f' := AgreeOverRuns(Apply(b, ops[0]), NaiveApply(f, ops[0], Accepts(b, ops[0])), done + [row], ops[1..], b');
      assert done + [row] + RowsOf(ops[1..]) == done + RowsOf(ops);
    }
  }

  lemma LimitAccepted(f: FlatBook, o: OrderState, accept: bool)
    requires FlatOk(f) && o.Sane() && o.kind == LIMIT
    ensures NaiveProcess(f, o, accept) == NaiveProcess(f, o, false)
  {
  }

  // ---- quantity at one price ------------------------------------------------------------------------

  /** The quantity on a heap under one key. */
  function QtyAt(h: Heap, key: int): int {
    if h == [] then 0 else (if h[0].key == key then h[0].qty else 0) + QtyAt(h[1..], key)
  }

  lemma {:induction false} QtyAtIsStep(h: Heap, key: int)
    ensures QtyAt(h, key) == Offered(h, key) - Offered(h, key - 1)
  {
    if h != [] {
      QtyAtIsStep(h[1..], key);
    }
  }

  lemma {:induction false} TotalIsStep(list: seq<Resting>, s: Side, p: Price, q: Price)
    requires s != INVALID && (if s == SELL then q == p - 1 else q == p + 1)
    ensures Total(list, Whole, AtPrices(s, {p})) ==
      Total(list, Whole, InReach(Opposite(s), p, true)) - Total(list, Whole, InReach(Opposite(s), q, true))
  {
    if list != [] {
      TotalIsStep(list[1..], s, p, q);
    }
  }

  /** Every key of a heap is the key of a price. */
  ghost predicate KeysIn(h: Heap, low: int, high: int) {
    forall i :: 0 <= i < |h| ==> low <= h[i].key <= high
  }

  lemma {:induction false} HitKeys(h: Heap, limit: int, qty: int, low: int, high: int)
    requires HeapOk(h) && KeysIn(h, low, high)
    ensures KeysIn(Hit(h, limit, qty).heap, low, high)
    decreases Positive(qty)
  {
    if CanHit(h, limit, qty) {
      var u := Min(qty, h[0].qty);
      HitKeys(AfterHit(h, u), limit, qty - u, low, high);
    }
  }

  ghost predicate Keyed(m: Books) {
    KeysIn(m.sell, 0, MAX_U64) && KeysIn(m.buy, -MAX_U64, 0)
  }

  lemma PushKeys(h: Heap, key: int, left: int, low: int, high: int)
    requires HeapOk(h) && KeysIn(h, low, high) && low <= key <= high
    ensures KeysIn(PushLeft(h, key, left), low, high)
  {
  }

  lemma RowKeyed(m: Books, row: Row)
    requires BooksOk(m) && Keyed(m) && 0 <= row.price <= MAX_U64
    ensures Keyed(MatchRow(m, row))
  {
    hide HeapOk, KeysIn, Hit, PushLeft;
    HitKeys(m.sell, row.price, row.qty, 0, MAX_U64);
    HitKeys(m.buy, -row.price, row.qty, -MAX_U64, 0);
    HitTakes(m.sell, row.price, row.qty);
    HitTakes(m.buy, -row.price, row.qty);
    PushKeys(m.buy, -row.price, Hit(m.sell, row.price, row.qty).left, -MAX_U64, 0);
    PushKeys(m.sell, row.price, Hit(m.buy, -row.price, row.qty).left, 0, MAX_U64);
  }

  lemma {:induction false} RowsKeyed(rows: seq<Row>)
    requires forall i :: 0 <= i < |rows| ==> 0 <= rows[i].price <= MAX_U64
    ensures Keyed(MatchRows(rows))
  {
    hide HeapOk, MatchRow;
    if rows != [] {
      var k := |rows| - 1;
      RowsKeyed(rows[..k]);
      RowKeyed(MatchRows(rows[..k]), rows[k]);
    }
  }

  lemma {:induction false} NothingBelow(h: Heap, low: int, high: int)
    requires KeysIn(h, low, high)
    ensures Offered(h, low - 1) == 0
  {
    if h != [] {
      NothingBelow(h[1..], low, high);
    }
  }

  lemma {:induction false} RowPrices(ops: seq<Op>)
    requires forall i :: 0 <= i < |ops| ==> IsLimit(ops[i])
    ensures forall i :: 0 <= i < |RowsOf(ops)| ==> 0 <= RowsOf(ops)[i].price <= MAX_U64
  {
    if ops != [] {
      assert IsLimit(ops[0]);
      RowPrices(ops[1..]);
    }
  }

  /** Where the two matchers agree up to every price, they agree at every price. */
  lemma AgreeAt(f: FlatBook, m: Books, p: Price)
    requires Agree(f, m) && Keyed(m)
    ensures Total(f.list, Whole, AtPrices(SELL, {p})) == QtyAt(m.sell, p)
    ensures Total(f.list, Whole, AtPrices(BUY, {p})) == QtyAt(m.buy, BidKey(p))
  {
    hide Total, Offered, QtyAt, KeysIn, HeapOk;
    QtyAtIsStep(m.sell, p);
    QtyAtIsStep(m.buy, BidKey(p));
    assert UpTo(f, BUY, p) == Offered(m.sell, p) && UpTo(f, SELL, p) == Offered(m.buy, BidKey(p));
    if p > 0 {
      TotalIsStep(f.list, SELL, p, p - 1);
      assert UpTo(f, BUY, p - 1) == Offered(m.sell, p - 1);
    } else {
      NothingBelow(m.sell, 0, MAX_U64);
      TotalAlike(f.list, Whole, AtPrices(SELL, {p}), InReach(BUY, p, true));
    }
    if p < MAX_U64 {
      TotalIsStep(f.list, BUY, p, p + 1);
      assert UpTo(f, SELL, p + 1) == Offered(m.buy, BidKey(p + 1));
    } else {
      NothingBelow(m.buy, -MAX_U64, 0);
      TotalAlike(f.list, Whole, AtPrices(BUY, {p}), InReach(SELL, p, true));
    }
  }

  /** After any run of limit orders that drops no level, the book has traded the same total quantity as
      the research matcher and holds the same quantity at every price on both sides. */
  lemma MatchersAgree(ops: seq<Op>, b: BookState, p: Price)
    requires Inv(EMPTY_BOOK) && RetainingRun(EMPTY_BOOK, ops) && Runs(EMPTY_BOOK, ops, b)
    requires forall i :: 0 <= i < |ops| ==> IsLimit(ops[i])
    ensures var m := MatchRows(RowsOf(ops));
      && SumQty(b.trades) == m.traded
      && SumQueue(b.Queue(SELL, p), b.orders, Whole) == QtyAt(m.sell, p)
      && SumQueue(b.Queue(BUY, p), b.orders, Whole) == QtyAt(m.buy, BidKey(p))
  {
    hide Inv, Sim, FlatOk, Agree, Keyed, RetainingRun, Runs, MatchRows, RowsOf, SumQueue, Total, QtyAt;
    var f := AgreeFromStart(ops, b);
    var m := MatchRows(RowsOf(ops));
    RowPrices(ops);
    RowsKeyed(RowsOf(ops));
    AgreeAt(f, m, p);
    SameTraded(f, m);
    SameTrades(b, f);
    SimQueue(b, f, SELL, p);
    SimQueue(b, f, BUY, p);
    SumQueueIsTotal(b.Queue(SELL, p), b.orders, f.list, Whole, SELL, p);
    SumQueueIsTotal(b.Queue(BUY, p), b.orders, f.list, Whole, BUY, p);
  }

  lemma SameTraded(f: FlatBook, m: Books)
    requires Agree(f, m)
    ensures SumQty(f.trades) == m.traded
  {
  }

  lemma AgreeFromStart(ops: seq<Op>, b: BookState) returns (f: FlatBook)
    requires Inv(EMPTY_BOOK) && RetainingRun(EMPTY_BOOK, ops) && Runs(EMPTY_BOOK, ops, b)
    requires forall i :: 0 <= i < |ops| ==> IsLimit(ops[i])
    ensures Inv(b) && Sim(b, f) && FlatOk(f) && AllLimit(f) && Agree(f, MatchRows(RowsOf(ops)))
  {
    hide Inv, Sim, FlatOk, RetainingRun, Runs, RowsOf;
    EmptySim();
    f := AgreeOverRuns(EMPTY_BOOK, EMPTY_FLAT, [], ops, b);
    assert [] + RowsOf(ops) == RowsOf(ops);
  }

  lemma {:induction false} ShownIsWhole(list: seq<Resting>, sel: Selector)
    requires forall i :: 0 <= i < |list| ==> list[i].order.kind == LIMIT && list[i].order.Restable()
    ensures Total(list, Shown, sel) == Total(list, Whole, sel)
  {
    if list != [] {
      ShownIsWhole(list[1..], sel);
    }
  }

  /** If moreover no level overflows, the depth of every level of the book is the quantity the research
      matcher holds at its price. */
  lemma DepthsAgree(ops: seq<Op>, b: BookState, s: Side, p: Price)
    requires Inv(EMPTY_BOOK) && RetainingRun(EMPTY_BOOK, ops) && CarefulRun(EMPTY_BOOK, ops) && Runs(EMPTY_BOOK, ops, b)
    requires forall i :: 0 <= i < |ops| ==> IsLimit(ops[i])
    requires s != INVALID && p in b.SideOf(s).levels
    ensures var m := MatchRows(RowsOf(ops));
      b.SideOf(s).levels[p].openQty == if s == BUY then QtyAt(m.buy, BidKey(p)) else QtyAt(m.sell, p)
  {
    hide Inv, Sim, FlatOk, Agree, Keyed, RetainingRun, CarefulRun, Runs, MatchRows, RowsOf, SumQueue, Total, QtyAt;
    MatchersAgree(ops, b, p);
    EmptyIsExact();
    ExactOverRuns(EMPTY_BOOK, ops, b);
    var f := AgreeFromStart(ops, b);
    assert ExactAt(b, s, p);
    SimQueue(b, f, s, p);
    SumQueueIsTotal(b.Queue(s, p), b.orders, f.list, Whole, s, p);
    SumQueueIsTotal(b.Queue(s, p), b.orders, f.list, Shown, s, p);
    AllLimitShown(f, AtPrices(s, {p}));
  }

  lemma AllLimitShown(f: FlatBook, sel: Selector)
    requires FlatOk(f) && AllLimit(f)
    ensures Total(f.list, Shown, sel) == Total(f.list, Whole, sel)
  {
    ShownIsWhole(f.list, sel);
  }
}
