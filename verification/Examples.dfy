/**
  Families of short runs, starting from the empty book, that show where the book falls short of what one
  might expect of it: an order forgotten by the price window, depths that fall below what the orders
  show, fill-or-kill orders rejected although enough is shown, and trades counted differently from the
  research matcher.
 */
module Examples {
  import opened Types
  import opened Orders
  import opened PriceLevels
  import opened PriceWindows
  import opened BookSpec
  import opened BookInvariant
  import opened BookOps
  import opened FlatBooks
  import opened Simulation
  import opened RunProperties
  import opened Conservation
  import opened BookTotals
  import opened Clips
  import opened Depths
  import opened DepthRuns
  import opened FillOrKill
  import opened Retention
  import opened HeapMatcher
  import opened Agreement

  // ---- orders that meet nobody ----------------------------------------------------------------------

  lemma NobodyThere(b: BookState, s: Side)
    requires b.SideOf(s).levels == map[]
    ensures BestPrice(b, s).None?
  {
    assert b.SideOf(s).NonEmpty() == {};
  }

  /** A limit order, or an iceberg, that meets nobody comes to rest. */
  lemma MeetsNobody(b: BookState, o: OrderState)
    requires Inv(b) && Addable(b, o) && o.total > 0 && b.SideOf(Opposite(o.side)).levels == map[]
    requires o.kind == LIMIT || (o.kind == ICEBERG && o.display > 0)
    ensures AddOrder(b, o) == Rest(b.WithOrder(if o.kind == ICEBERG then o.Refresh() else o), o.id)
  {
    AddedIsStored(b, o);
    var b1 := b.WithOrder(o);
    NobodyThere(b1, Opposite(o.side));
    if o.kind == ICEBERG {
      IcebergKeeps(b1, o.id);
      NobodyThere(b1.WithOrder(o.Refresh()), Opposite(o.side));
      assert b1.WithOrder(o.Refresh()) == b.WithOrder(o.Refresh());
    }
  }

  /** A limit order that meets nobody is the last of its queue; its level is the only one that grows. */
  lemma Joins(b: BookState, o: OrderState)
    requires Inv(b) && Addable(b, o) && o.kind == LIMIT && o.total > 0 && b.SideOf(Opposite(o.side)).levels == map[]
    ensures var b' := AddOrder(b, o);
      && Inv(b') && b'.orders == b.orders[o.id := o] && b'.trades == b.trades
      && b'.SideOf(Opposite(o.side)) == b.SideOf(Opposite(o.side))
      && (forall c :: c != o.id ==> (c in b'.refs <==> c in b.refs) && (c in b.refs ==> b'.refs[c] == b.refs[c]))
      && Live(b', o.id) && o.price in b'.SideOf(o.side).levels && b'.SideOf(o.side).base.Some?
      && (o.price in b.SideOf(o.side).levels ==> b'.SideOf(o.side).levels.Keys == b.SideOf(o.side).levels.Keys)
      && (exists slot :: b'.Queue(o.side, o.price) == b.Queue(o.side, o.price) + [Entry(o.id, slot)])
    ensures Exact(b) ==>
      (Exact(AddOrder(b, o)) <==> ShownAt(b, o.side, o.price) + o.total < QTY_MOD)
  {
    hide InvBut, AddOrder, Rest, Live, Exact, ShownAt, DepthAt, ExactAt, SideState.EnsureLevel;
    MeetsNobody(b, o);
    AddOrderKeeps(b, o);
    AddedIsStored(b, o);
    IndexedStored(b);
    var b1 := b.WithOrder(o);
    assert o.Refresh() == o;
    RestShape(b1, o.id);
    RestedIsLive(b1, o.id);
    RestedQueue(b1, o.id, o.side, o.price);
    WindowedSide(b, o.side);
    if o.price in b.SideOf(o.side).levels {
      KnownPrice(b.SideOf(o.side), o.side, o.price);
    }
    SameDepth(b, None, b1);
    SameAt(b, None, b1, o.side, o.price);
    if Exact(b) {
      RestDepth(b1, o.id);
    }
  }

  /** The window does not move for a price that has a level. */
  lemma KnownPrice(st: SideState, s: Side, price: Price)
    requires st.Windowed() && price in st.levels
    ensures st.EnsureLevel(s, price) == st
  {
  }

  lemma OneMore(ops: seq<Op>, b: BookState, op: Op)
    requires Inv(EMPTY_BOOK) && Runs(EMPTY_BOOK, ops, b) && Inv(b) && Allowed(b, op)
    ensures Runs(EMPTY_BOOK, ops + [op], Apply(b, op))
  {
    RunThen(EMPTY_BOOK, ops, b, op);
  }

  lemma NoOps()
    ensures Inv(EMPTY_BOOK) && Runs(EMPTY_BOOK, [], EMPTY_BOOK) && Exact(EMPTY_BOOK)
  {
    EmptyBookOk();
    EmptyIsExact();
  }

  /** The first limit order of all. */
  lemma FirstJoins(o: OrderState) returns (b: BookState)
    requires AsBuilt(o) && o.kind == LIMIT && o.total > 0
    ensures Inv(EMPTY_BOOK) && Runs(EMPTY_BOOK, [Add(o)], b) && Inv(b) && b == AddOrder(EMPTY_BOOK, o)
    ensures b.orders == map[o.id := o] && b.trades == [] && Live(b, o.id)
    ensures b.SideOf(Opposite(o.side)) == NO_LEVELS && b.SideOf(o.side).levels.Keys == {o.price}
    ensures b.SideOf(o.side).base.Some? && b.SideOf(o.side).Best(o.side) == Some(o.price)
    ensures |b.Queue(o.side, o.price)| == 1 && b.Queue(o.side, o.price)[0].id == o.id
    ensures Exact(b) && ShownAt(b, o.side, o.price) == o.total
  {
    hide InvBut, AddOrder, Rest, Live, Exact, ShownAt, SideState.EnsureLevel, OrderState.Refresh, Runs;
    NoOps();
    EmptyQueue(EMPTY_BOOK, o.side, o.price);
    Joins(EMPTY_BOOK, o);
    OneMore([], EMPTY_BOOK, Add(o));
    assert [] + [Add(o)] == [Add(o)];
    b := AddOrder(EMPTY_BOOK, o);
    MeetsNobody(EMPTY_BOOK, o);
    AddedIsStored(EMPTY_BOOK, o);
    FirstRests(EMPTY_BOOK.WithOrder(o), o.id);
    OnlyLevelIsBest(b, o.side, o.price);
    OnlyShown(b, o.side, o.price);
  }

  lemma OnlyShown(b: BookState, s: Side, p: Price)
    requires |b.Queue(s, p)| == 1 && b.Queue(s, p)[0].id in b.orders
    ensures ShownAt(b, s, p) == b.orders[b.Queue(s, p)[0].id].Pending()
  {
    SingleSum(b, s, p);
  }

  /** The only level of a side is the best one. */
  lemma OnlyLevelIsBest(b: BookState, s: Side, p: Price)
    requires Inv(b) && s != INVALID && b.SideOf(s).levels.Keys == {p}
    ensures b.SideOf(s).Best(s) == Some(p) && b.Queue(s, p) != []
  {
    assert p in b.SideOf(s).levels;
    assert LevelOk(s, p, b.SideOf(s).levels[p], b, None);
    assert b.SideOf(s).NonEmpty() == {p};
  }

  /** The first order of a side makes its first level. */
  lemma FirstRests(b: BookState, id: OrderId)
    requires MatchInv(b, id) && b.SideOf(b.orders[id].side) == NO_LEVELS
    ensures var o := b.orders[id].Refresh(); var b' := Rest(b, id);
      && b'.SideOf(o.side).levels.Keys == {o.price}
      && b'.SideOf(Opposite(o.side)) == b.SideOf(Opposite(o.side))
      && b'.orders == b.orders[id := o] && id in b'.refs
      && b'.Queue(o.side, o.price) == [Entry(id, 0)]
      && b'.trades == b.trades
  {
    StoredOrder(b, id);
    RestShape(b, id);
    var o := b.orders[id];
    FocusOfNothing(NO_LEVELS, o.side, o.price);
  }

  // ---- an order forgotten by the price window -------------------------------------------------------

  /** Two bids more than a window apart. */
  predicate FarApart(o: OrderState, d: OrderState) {
    && AsBuilt(o) && AsBuilt(d) && o.id != d.id && o.total > 0 && d.total > 0
    && o.side == d.side == BUY && o.kind == d.kind == LIMIT
    && (o.price - d.price > SPAN || d.price - o.price > SPAN)
  }

  /** A bid far away from all others empties their queues. */
  lemma FarBid(b: BookState, p: Price, d: OrderState)
    requires Inv(b) && Addable(b, d) && d.side == BUY && d.kind == LIMIT && d.total > 0 && b.asks.levels == map[]
    requires b.bids.levels.Keys == {p} && (p - d.price > SPAN || d.price - p > SPAN)
    ensures var b' := AddOrder(b, d); b'.Queue(BUY, p) == [] && b'.bids.levels.Keys == {d.price}
  {
    hide Inv, AddOrder, Rest, SideState.EnsureLevel, OrderState.Refresh;
    MeetsNobody(b, d);
    AddedIsStored(b, d);
    OnlyLevelIsBest(b, BUY, p);
    WindowedSide(b, BUY);
    BestDropped(BUY, b.bids, d.price);
    EnsureLevelKeeps(BUY, b.bids, d.price);
    RestShape(b.WithOrder(d), d.id);
  }

  /** The second bid makes the book forget the first: it stays stored and indexed, but is on no queue
      any more. */
  lemma DistantBidForgets(o: OrderState, d: OrderState) returns (b: BookState)
    requires FarApart(o, d)
    ensures Inv(EMPTY_BOOK) && Runs(EMPTY_BOOK, [Add(o), Add(d)], b)
    ensures o.id in b.orders && o.id in b.refs && !Live(b, o.id)
    ensures Inv(b) && b.orders == map[o.id := o, d.id := d] && b.refs[o.id].side == BUY && b.refs[o.id].price == o.price
    ensures b.bids.levels.Keys == {d.price} && b.asks.levels == map[] && Exact(b)
  {
    hide InvBut, AddOrder, Rest, Exact, SideState.EnsureLevel, OrderState.Refresh, Runs;
    var b1 := FirstJoins(o);
    Joins(b1, d);
    b := AddOrder(b1, d);
    OneMore([Add(o)], b1, Add(d));
    assert [Add(o)] + [Add(d)] == [Add(o), Add(d)];
    FarBid(b1, o.price, d);
    IndexedOrder(b1, o.id);
    IndexedOrder(b, o.id);
    EmptyQueue(b1, BUY, d.price);
  }

  lemma EmptyQueue(b: BookState, s: Side, p: Price)
    ensures p !in b.SideOf(s).levels ==> b.Queue(s, p) == [] && ShownAt(b, s, p) == 0
  {
  }

  // ---- depths below what is shown -------------------------------------------------------------------

  /** Two orders that come to rest at one price and together show 2^32 or more. */
  predicate Overflows(a: OrderState, c: OrderState) {
    && AsBuilt(a) && AsBuilt(c) && a.id != c.id && a.kind == c.kind == LIMIT && a.total > 0 && c.total > 0
    && a.side == c.side && a.price == c.price && a.total + c.total >= QTY_MOD
  }

  /** Then the depth of their level wraps around. */
  lemma OverflowLosesDepth(a: OrderState, c: OrderState) returns (b: BookState)
    requires Overflows(a, c)
    ensures Inv(EMPTY_BOOK) && Runs(EMPTY_BOOK, [Add(a), Add(c)], b)
    ensures !Exact(b)
  {
    hide InvBut, AddOrder, Exact, Live, ShownAt, Runs;
    var b1 := FirstJoins(a);
    Joins(b1, c);
    b := AddOrder(b1, c);
    OneMore([Add(a)], b1, Add(c));
    assert [Add(a)] + [Add(c)] == [Add(a), Add(c)];
  }

  /** A third bid comes back to the price of the forgotten one; then the forgotten one is cut down. */
  predicate ComesBack(o: OrderState, d: OrderState, e: OrderState, qty: Qty) {
    && FarApart(o, d) && AsBuilt(e) && e.id != o.id && e.id != d.id && e.side == BUY && e.kind == LIMIT
    && e.total > 0 && e.price == o.price && qty < o.total
  }

  /** Cutting down an order that the window has dropped takes its quantity off the depth of the orders
      that have come to its price since. */
  lemma ForgottenOrderLosesDepth(o: OrderState, d: OrderState, e: OrderState, qty: Qty) returns (b: BookState)
    requires ComesBack(o, d, e, qty)
    ensures Inv(EMPTY_BOOK) && Runs(EMPTY_BOOK, [Add(o), Add(d), Add(e), Modify(o.id, o.price, qty)], b)
    ensures !Exact(b)
  {
    hide InvBut, AddOrder, Exact, Live, ShownAt, Runs, ModifyInPlace, OrderState.Refresh;
    var b2 := DistantBidForgets(o, d);
    Joins(b2, e);
    var b3 := AddOrder(b2, e);
    EmptyQueue(b2, BUY, e.price);
    OneMore([Add(o), Add(d)], b2, Add(e));
    assert [Add(o), Add(d)] + [Add(e)] == [Add(o), Add(d), Add(e)];
    OneMore([Add(o), Add(d), Add(e)], b3, Modify(o.id, o.price, qty));
    assert [Add(o), Add(d), Add(e)] + [Modify(o.id, o.price, qty)] ==
      [Add(o), Add(d), Add(e), Modify(o.id, o.price, qty)];
    b := ModifyOrder(b3, o.id, o.price, qty);
    OnlyEntry(b3, o.id, e);
    CutDown(o, qty);
    InPlaceDepth(b3, o.id, qty);
  }

  lemma CutDown(o: OrderState, qty: Qty)
    requires AsBuilt(o) && o.kind == LIMIT && qty < o.total
    ensures o.ModifyQty(qty) == Some(Resized(o, o.price, qty)) && Resized(o, o.price, qty).Pending() < o.Pending()
  {
  }

  /** A queue that only holds e shows what e shows, and no other order is live there. */
  lemma OnlyEntry(b: BookState, id: OrderId, e: OrderState)
    requires |b.Queue(e.side, e.price)| == 1 && b.Queue(e.side, e.price)[0].id == e.id && e.id in b.orders
    requires b.orders[e.id] == e
    requires id != e.id && id in b.refs && b.refs[id].side == e.side && b.refs[id].price == e.price
    ensures !Live(b, id) && ShownAt(b, e.side, e.price) == e.Pending()
  {
    var q := b.Queue(e.side, e.price);
    assert SumQueue(q[1..], b.orders, Shown) == 0;
  }

  /** An order that is filled by the first resting order, and does not exhaust it, stops there. */
  lemma OneTrade(b: BookState, id: OrderId)
    requires MatchInv(b, id) && CanMatch(b, id, true) && Head(b, id) in b.orders
    requires b.orders[id].Pending() < b.orders[Head(b, id)].Pending()
    ensures MatchLoop(b, id, true) == Fill(b, id)
  {
    hide Inv, Fill, BestPrice, RemoveResting, Head;
    FilledIsLive(b, id);
    MatchStepKeeps(b, id);
    FilledHead(b, id);
  }

  lemma FilledHead(b: BookState, id: OrderId)
    requires MatchInv(b, id) && BestPrice(b, Opposite(b.orders[id].side)).Some? && Head(b, id) in b.orders
    requires b.orders[id].Pending() < b.orders[Head(b, id)].Pending()
    ensures MatchStep(b, id) == Fill(b, id) && Fill(b, id).orders[id].Pending() == 0
  {
    FilledIsLive(b, id);
    HeadIsLive(b, id);
    FilledOrder(b.orders[id], b.orders[id].Pending());
    FilledOrder(b.orders[Head(b, id)], b.orders[id].Pending());
    hide Fill, BestPrice, RemoveResting, Head;
  }

  /** An iceberg ask h, a bid t that takes part of its first clip, and a smaller quantity for the
      iceberg at which its refilled clip shows more than what the bid has left of the first one. */
  predicate Refills(h: OrderState, t: OrderState, qty: Qty) {
    && AsBuilt(h) && h.side == SELL && h.kind == ICEBERG && h.display > 0
    && AsBuilt(t) && t.side == BUY && t.kind == IOC && t.id != h.id && t.price >= h.price
    && 0 < t.total < Min(h.display, h.total)
    && t.total <= qty <= h.total && Min(h.display, qty - t.total) > Min(h.display, h.total) - t.total
  }

  /** Its level has the depth that it shows. */
  lemma IcebergDepths(h: OrderState)
    requires AsBuilt(h) && h.side == SELL && h.kind == ICEBERG && h.display > 0 && h.total > 0
    ensures MatchInv(EMPTY_BOOK.WithOrder(h.Refresh()), h.id)
    ensures var b := Rest(EMPTY_BOOK.WithOrder(h.Refresh()), h.id); Exact(b)
  {
    NoOps();
    hide Inv, Exact, Rest, ShownAt;
    InvIsInvBut(EMPTY_BOOK);
    SetOrderKeeps(EMPTY_BOOK, None, h.Refresh());
    var b1 := EMPTY_BOOK.WithOrder(h.Refresh());
    InvIsInvBut(b1);
    hide InvBut, OrderState.Refresh;
    SameDepth(EMPTY_BOOK, None, b1);
    RefreshExposes(h);
    RefreshFills(h);
    EmptyQueue(b1, SELL, h.price);
    RestDepth(b1, h.id);
  }

  lemma IcebergRests(h: OrderState) returns (b: BookState)
    requires AsBuilt(h) && h.side == SELL && h.kind == ICEBERG && h.display > 0 && h.total > 0
    ensures Inv(EMPTY_BOOK) && Addable(EMPTY_BOOK, h) && b == AddOrder(EMPTY_BOOK, h) && Inv(b)
    ensures Runs(EMPTY_BOOK, [Add(h)], b)
    ensures b.asks.levels.Keys == {h.price} && h.id in b.refs && b.Queue(SELL, h.price) == [Entry(h.id, 0)]
    ensures b.orders == map[h.id := h.(working := Min(h.display, h.total))] && b.bids.levels == map[]
    ensures Exact(b)
  {
    NoOps();
    hide Inv, AddOrder, Exact, Rest, Runs;
    MeetsNobody(EMPTY_BOOK, h);
    b := AddOrder(EMPTY_BOOK, h);
    AddOrderKeeps(EMPTY_BOOK, h);
    OneMore([], EMPTY_BOOK, Add(h));
    assert [] + [Add(h)] == [Add(h)];
    IcebergDepths(h);
    FirstRests(EMPTY_BOOK.WithOrder(h.Refresh()), h.id);
  }

  /** The bid takes its part of the clip. */
  lemma Taken(b: BookState, h: OrderState, t: OrderState)
    requires Inv(b) && b.asks.levels.Keys == {h.price} && h.id in b.refs
    requires b.orders == map[h.id := h.(working := Min(h.display, h.total))]
    requires b.Queue(SELL, h.price) == [Entry(h.id, 0)]
    requires AsBuilt(h) && h.side == SELL && AsBuilt(t) && t.side == BUY && t.kind == IOC && t.id != h.id
    requires t.price >= h.price && 0 < t.total < Min(h.display, h.total)
    ensures Addable(b, t)
    ensures var b' := AddOrder(b, t);
      && b'.orders == map[h.id := h.(working := Min(h.display, h.total), filled := t.total)]
      && h.id in b'.refs && b'.refs == b.refs && Live(b', h.id) && b'.bids == b.bids
      && b'.asks.levels.Keys == {h.price} && b'.Queue(SELL, h.price) == [Entry(h.id, 0)]
  {
    hide Inv, Fill, MatchLoop;
    AddedIsStored(b, t);
    var c := b.WithOrder(t);
    TakenFill(c, h, t);
    assert Release(MatchLoop(c, t.id, true), t.id).orders ==
      map[h.id := h.(working := Min(h.display, h.total), filled := t.total)];
    assert Drop(c.refs, t.id) == c.refs;
  }

  lemma TakenFill(c: BookState, h: OrderState, t: OrderState)
    requires MatchInv(c, t.id) && c.asks.levels.Keys == {h.price} && h.id in c.refs
    requires c.orders == map[h.id := h.(working := Min(h.display, h.total)), t.id := t]
    requires c.Queue(SELL, h.price) == [Entry(h.id, 0)]
    requires AsBuilt(h) && AsBuilt(t) && t.side == BUY && t.id != h.id && t.price >= h.price
    requires 0 < t.total < Min(h.display, h.total)
    ensures var m := MatchLoop(c, t.id, true);
      && m.orders.Keys == {h.id, t.id} && m.orders[h.id] == h.(working := Min(h.display, h.total), filled := t.total)
      && m.refs == c.refs && m.bids == c.bids && Live(m, h.id) && m.asks.levels.Keys == {h.price}
      && m.Queue(SELL, h.price) == [Entry(h.id, 0)]
  {
    hide Inv, Fill, Head, BestPrice, MatchLoop, Live;
    StoredOrder(c, t.id);
    OnlyAsk(c, t.id, h);
    OneTrade(c, t.id);
    FillShape(c, t.id);
    FilledIsLive(c, t.id);
    FillQueues(c, t.id, SELL, h.price);
  }

  lemma OnlyAsk(c: BookState, id: OrderId, h: OrderState)
    requires MatchInv(c, id) && c.orders[id].side == BUY && c.asks.levels.Keys == {h.price}
    requires c.Queue(SELL, h.price) == [Entry(h.id, 0)]
    ensures BestPrice(c, SELL) == Some(h.price) && Head(c, id) == h.id && h.id in c.orders && Live(c, h.id)
  {
    OnlyLevelIsBest(c, SELL, h.price);
    HeadIsLive(c, id);
  }

  /** An order that takes less than the first clip of the only level uses up no clip. */
  lemma TakesLess(b: BookState, t: OrderState, p: Price)
    requires Inv(b) && b.asks.levels.Keys == {p} && t.side == BUY && t.kind == IOC
    requires t.total < FrontClip(b, SELL, p) && AsBuilt(t)
    ensures OverflowsNothing(b, t)
  {
    hide Inv, Ahead, FrontClip, ReachAmount;
    forall q | NextClipOverflows(b, SELL, q)
      ensures Worked(b, t) < Ahead(b, t, q) + FrontClip(b, SELL, q)
    {
      AheadIsNat(b, t, q);
      assert q in b.asks.levels;
    }
  }

  /** An iceberg ask of which a bid has taken part of the first clip. */
  lemma PartlyTaken(h: OrderState, t: OrderState) returns (b: BookState)
    requires AsBuilt(h) && h.side == SELL && h.kind == ICEBERG && h.display > 0
    requires AsBuilt(t) && t.side == BUY && t.kind == IOC && t.id != h.id && t.price >= h.price
    requires 0 < t.total < Min(h.display, h.total)
    ensures Inv(EMPTY_BOOK) && Runs(EMPTY_BOOK, [Add(h), Add(t)], b)
    ensures Inv(b) && Exact(b) && b.orders == map[h.id := h.(working := Min(h.display, h.total), filled := t.total)]
    ensures b.asks.levels.Keys == {h.price} && b.Queue(SELL, h.price) == [Entry(h.id, 0)]
    ensures h.id in b.refs && Live(b, h.id) && b.bids.levels == map[]
  {
    hide InvBut, AddOrder, Exact, Live, Runs, OverflowsNothing, OnlyHeadsUsed;
    var b1 := IcebergRests(h);
    Taken(b1, h, t);
    b := AddOrder(b1, t);
    AddOrderKeeps(b1, t);
    EmptyIsExact();
    RunUsed(EMPTY_BOOK, [Add(h)], b1);
    TakesLess(b1, t, h.price);
    AddDepth(b1, t);
    OneMore([Add(h)], b1, Add(t));
    assert [Add(h)] + [Add(t)] == [Add(h), Add(t)];
  }

  /** Cutting that iceberg down at its price refills its clip, while the depth of its level stays what
      the bid has left of it: less than what the level shows. */
  lemma ShrunkIcebergLosesDepth(h: OrderState, t: OrderState, qty: Qty) returns (b: BookState)
    requires Refills(h, t, qty)
    ensures Inv(EMPTY_BOOK) && Runs(EMPTY_BOOK, [Add(h), Add(t), Modify(h.id, h.price, qty)], b)
    ensures Inv(b) && !Exact(b)
    ensures var clip: Qty := Min(h.display, qty - t.total);
      && b.orders == map[h.id := h.(total := qty, working := t.total + clip, filled := t.total)]
      && b.asks.levels.Keys == {h.price} && b.Queue(SELL, h.price) == [Entry(h.id, 0)]
      && b.asks.levels[h.price].openQty == Min(h.display, h.total) - t.total
  {
    hide InvBut, AddOrder, Exact, Live, ModifyInPlace, Runs, ShownAt;
    var b2 := PartlyTaken(h, t);
    OneMore([Add(h), Add(t)], b2, Modify(h.id, h.price, qty));
    assert [Add(h), Add(t)] + [Modify(h.id, h.price, qty)] == [Add(h), Add(t), Modify(h.id, h.price, qty)];
    IndexedOrder(b2, h.id);
    b := ModifyOrder(b2, h.id, h.price, qty);
    ModifyOrderKeeps(b2, h.id, h.price, qty);
    InPlaceDepth(b2, h.id, qty);
    InPlaceShape(b2, h.id, b2.orders[h.id].ModifyQty(qty).value);
    OnlyDepth(b2, SELL, h.price);
  }

  lemma OnlyDepth(b: BookState, s: Side, p: Price)
    requires Exact(b) && s != INVALID && p in b.SideOf(s).levels
    requires |b.Queue(s, p)| == 1 && b.Queue(s, p)[0].id in b.orders
    ensures b.SideOf(s).levels[p].openQty == b.orders[b.Queue(s, p)[0].id].Pending()
  {
    assert ExactAt(b, s, p);
    SingleSum(b, s, p);
  }

  lemma SingleSum(b: BookState, s: Side, p: Price)
    requires |b.Queue(s, p)| == 1 && b.Queue(s, p)[0].id in b.orders
    ensures forall m :: SumQueue(b.Queue(s, p), b.orders, m) == Amount(m, b.orders[b.Queue(s, p)[0].id])
  {
    var q := b.Queue(s, p);
    assert forall m :: SumQueue(q[1..], b.orders, m) == 0;
  }

  /** An iceberg ask h with another clip to come, a bid t that takes part of the first one, an ask c
      that fits behind it, but not together with the next clip, and a bid u that takes the rest. */
  predicate FillsUp(h: OrderState, t: OrderState, c: OrderState, u: OrderState) {
    var clip := Min(h.display, h.total);
    && AsBuilt(h) && h.side == SELL && h.kind == ICEBERG && h.display > 0
    && AsBuilt(t) && t.side == BUY && t.kind == IOC && t.id != h.id && t.price >= h.price && 0 < t.total < clip
    && AsBuilt(c) && c.side == SELL && c.kind == LIMIT && c.id != h.id && c.price == h.price && c.total > 0
    && AsBuilt(u) && u.side == BUY && u.kind == IOC && u.id != h.id && u.id != c.id && u.price >= h.price
    && h.total > clip && u.total == clip - t.total
    && u.total + c.total < QTY_MOD <= c.total + Min(h.display, h.total - clip)
  }

  /** The depths are exact until the last bid; nothing comes to rest with it and nothing is modified, but
      the clip that the match puts back makes the depth wrap around. */
  lemma RefillLosesDepth(h: OrderState, t: OrderState, c: OrderState, u: OrderState)
      returns (b: BookState, b': BookState)
    requires FillsUp(h, t, c, u)
    ensures Inv(EMPTY_BOOK) && Runs(EMPTY_BOOK, [Add(h), Add(t), Add(c)], b)
    ensures Runs(EMPTY_BOOK, [Add(h), Add(t), Add(c), Add(u)], b')
    ensures Inv(b) && Exact(b) && !ComesToRest(b, u) && !Exact(b')
  {
    hide InvBut, AddOrder, Exact, Live, Runs, ShownAt, RefillOverflows, OnlyHeadsUsed;
    var b2 := PartlyTaken(h, t);
    SingleSum(b2, SELL, h.price);
    ShownIsSum(b2, SELL, h.price);
    Joins(b2, c);
    b := AddOrder(b2, c);
    OneMore([Add(h), Add(t)], b2, Add(c));
    assert [Add(h), Add(t)] + [Add(c)] == [Add(h), Add(t), Add(c)];
    OneMore([Add(h), Add(t), Add(c)], b, Add(u));
    assert [Add(h), Add(t), Add(c)] + [Add(u)] == [Add(h), Add(t), Add(c), Add(u)];
    b' := AddOrder(b, u);
    EmptyIsExact();
    RunUsed(EMPTY_BOOK, [Add(h), Add(t), Add(c)], b);
    BehindIceberg(b2, b, h, t, c, u);
    AddDepth(b, u);
  }

  lemma ShownIsSum(b: BookState, s: Side, p: Price)
    ensures ShownAt(b, s, p) == SumQueue(b.Queue(s, p), b.orders, Shown)
  {
  }

  lemma BehindIceberg(b2: BookState, b: BookState, h: OrderState, t: OrderState, c: OrderState, u: OrderState)
    requires FillsUp(h, t, c, u) && Inv(b) && b.asks.levels.Keys == {h.price}
    requires b2.orders == map[h.id := h.(working := Min(h.display, h.total), filled := t.total)]
    requires b.orders == b2.orders[c.id := c] && b2.Queue(SELL, h.price) == [Entry(h.id, 0)]
    requires exists slot :: b.Queue(SELL, h.price) == b2.Queue(SELL, h.price) + [Entry(c.id, slot)]
    ensures RefillOverflows(b, u, true, Worked(b, u))
  {
    hide Inv, ReachAmount, FokLiquidity;
    var p := h.price;
    var slot :| b.Queue(SELL, p) == b2.Queue(SELL, p) + [Entry(c.id, slot)];
    SingleSum(b2, SELL, p);
    AppendedSum(b2.Queue(SELL, p), Entry(c.id, slot), b2.orders, c, Shown);
    OneLevelAmount(b, u.(price := p), p, Whole);
    ShownIsSum(b, SELL, p);
    var h' := h.(working := Min(h.display, h.total), filled := t.total);
    assert b.Queue(SELL, p)[0] == Entry(h.id, 0) && b.orders[h.id] == h';
    assert h'.Pending() == u.total && h'.HasDisplay();
    assert h'.Remaining() - h'.Pending() == h.total - Min(h.display, h.total);
    hide SumQueue;
    assert Opposite(u.side) == SELL && Within(u.side, u.price, true, p);
    assert Ahead(b, u, p) == 0 && FrontClip(b, SELL, p) == u.total == Worked(b, u);
    assert NextClipOverflows(b, Opposite(u.side), p);
  }

  /** Such orders exist: a clip of 2^31 out of 2^32 - 1, of which the first bid leaves 1. */
  lemma FillsUpHappens() returns (h: OrderState, t: OrderState, c: OrderState, u: OrderState)
    ensures FillsUp(h, t, c, u)
  {
    h := OrderState(1, 0, SELL, 100, 0xFFFF_FFFF, 0xFFFF_FFFF, 0, 0x8000_0000, ICEBERG);
    t := OrderState(2, 0, BUY, 100, 0x7FFF_FFFF, 0x7FFF_FFFF, 0, 0, IOC);
    c := OrderState(3, 0, SELL, 100, 0x8000_0005, 0x8000_0005, 0, 0, LIMIT);
    u := OrderState(4, 0, BUY, 100, 1, 1, 0, 0, IOC);
  }

  /** Such orders exist: a clip of 10 out of 30, 4 of it taken, cut down to 20. */
  lemma RefillsHappens() returns (h: OrderState, t: OrderState, qty: Qty)
    ensures Refills(h, t, qty)
  {
    h := OrderState(1, 0, SELL, 100, 30, 30, 0, 10, ICEBERG);
    t := OrderState(2, 0, BUY, 100, 4, 4, 0, 0, IOC);
    qty := 20;
  }

  // ---- two asks -------------------------------------------------------------------------------------

  /** Two asks less than a window apart. */
  predicate TwoAsks(a: OrderState, c: OrderState) {
    && AsBuilt(a) && AsBuilt(c) && a.id != c.id && a.side == c.side == SELL && a.kind == c.kind == LIMIT
    && a.total > 0 && c.total > 0 && -SPAN <= a.price - c.price <= SPAN
  }

  /** A limit order that meets nobody and drops no level joins the end of the flat list. */
  lemma JoinsList(b: BookState, f: FlatBook, o: OrderState) returns (f': FlatBook)
    requires Inv(b) && Sim(b, f) && FlatOk(f)
    requires Addable(b, o) && o.kind == LIMIT && o.total > 0 && b.SideOf(Opposite(o.side)).levels == map[]
    requires WindowTakes(o.side, b.SideOf(o.side).base, b.SideOf(o.side).levels.Keys, o.price)
    ensures Sim(AddOrder(b, o), f') && FlatOk(f')
    ensures f'.list == f.list + [Resting(o, f.clock)] && f'.trades == f.trades && f'.clock == f.clock + 1
  {
    hide InvBut, Sim, FlatOk, Rest, AddOrder, Retains, WindowTakes, NaiveBase, Evict, SideState.EnsureLevel;
    MeetsNobody(b, o);
    AddedIsStored(b, o);
    IndexedStored(b);
    SimStore(b, f, o);
    var b1 := b.WithOrder(o);
    RetainsExactlyWhen(b, o.side, o.price);
    RetainsAlike(b, b1, o.side, o.price);
    assert o.Refresh() == o;
    RestAppends(b1, f, o.id);
    SimRest(b1, f, o.id);
    NotLive(b1, o.id);
    NotListed(b1, f, o.id);
    AsBuiltRests(o);
    NaiveRestKeeps(f, o);
    f' := NaiveRest(f, o);
  }

  lemma NotLive(b: BookState, id: OrderId)
    requires id !in b.refs
    ensures !Live(b, id)
  {
  }

  lemma AsBuiltRests(o: OrderState)
    requires AsBuilt(o) && o.kind == LIMIT
    ensures o.Refresh().Restable() && o.filled <= o.total
  {
  }

  /** The window of a single price takes in a price less than a window away. */
  lemma CloseIsTaken(b: BookState, s: Side, p: Price, price: Price)
    requires Inv(b) && s != INVALID && b.SideOf(s).levels.Keys == {p} && -SPAN <= p - price <= SPAN
    ensures WindowTakes(s, b.SideOf(s).base, b.SideOf(s).levels.Keys, price)
  {
    hide InvBut, CoversAfter;
    WindowedSide(b, s);
    BestIsUnique(s, {p}, p);
    assert p in b.SideOf(s).levels;
    BestIsCovered(b.SideOf(s).base, p, price);
  }

  lemma BestIsCovered(base: Option<Price>, p: Price, price: Price)
    requires base.Some? && InWindow(base.value, p) && -SPAN <= p - price <= SPAN
    ensures CoversAfter(base, Some(p), price, p)
  {
    hide MovedCovers, RebalancedBase;
    BestSurvives(p, price);
    WindowByDistance(p, price, p);
  }

  lemma EmptyTakes(s: Side, price: Price)
    ensures WindowTakes(s, EMPTY_BOOK.SideOf(s).base, EMPTY_BOOK.SideOf(s).levels.Keys, price)
  {
  }

  lemma TwoAsksRest(a: OrderState, c: OrderState) returns (b: BookState, f: FlatBook)
    requires TwoAsks(a, c)
    ensures Inv(EMPTY_BOOK) && Runs(EMPTY_BOOK, [Add(a), Add(c)], b)
    ensures Inv(b) && b.orders == map[a.id := a, c.id := c] && b.trades == [] && b.bids.levels == map[]
    ensures Sim(b, f) && FlatOk(f) && f.list == [Resting(a, 0), Resting(c, 1)] && f.trades == []
    ensures a.price != c.price ==> Exact(b)
  {
    hide InvBut, AddOrder, Sim, FlatOk, Exact, Live, ShownAt, WindowTakes, Runs;
    var b1 := FirstJoins(a);
    EmptySim();
    EmptyTakes(a.side, a.price);
    var f1 := JoinsList(EMPTY_BOOK, EMPTY_FLAT, a);
    Joins(b1, c);
    CloseIsTaken(b1, SELL, a.price, c.price);
    f := JoinsList(b1, f1, c);
    b := AddOrder(b1, c);
    OneMore([Add(a)], b1, Add(c));
    assert [Add(a)] + [Add(c)] == [Add(a), Add(c)];
    EmptyQueue(b1, SELL, c.price);
  }

  // ---- fill-or-kill orders rejected although enough is shown ----------------------------------------

  /** A fill-or-kill bid that reaches both asks, of which the sum overflows, and wants more than what the
      sum is taken to be. */
  predicate WantsTooMuch(a: OrderState, c: OrderState, o: OrderState) {
    && TwoAsks(a, c) && a.price != c.price && a.total + c.total >= QTY_MOD
    && AsBuilt(o) && o.id != a.id && o.id != c.id && o.side == BUY && o.kind == FOK
    && o.price >= a.price && o.price >= c.price && o.total > a.total + c.total - QTY_MOD
  }

  /** It is rejected, although the asks show enough and every depth is exact. */
  lemma OverflowRejects(a: OrderState, c: OrderState, o: OrderState) returns (b: BookState)
    requires WantsTooMuch(a, c, o)
    ensures Inv(EMPTY_BOOK) && Runs(EMPTY_BOOK, [Add(a), Add(c)], b)
    ensures Inv(b) && Addable(b, o) && Exact(b) && ShownReach(b, o) >= o.total && AddOrder(b, o) == b
  {
    hide InvBut, AddOrder, Sim, FlatOk, Runs, DepthReach, ReachAmount, FokLiquidity;
    var f;
    b, f := TwoAsksRest(a, c);
    ReachIsTotal(b, f, o, true, Shown);
    BothInReach(f.list, a, c, o);
    DepthIsShown(b, o);
    AcceptedExactlyWhen(b, o);
    RejectedLeavesNoTrace(b, o);
  }

  lemma BothInReach(list: seq<Resting>, a: OrderState, c: OrderState, o: OrderState)
    requires WantsTooMuch(a, c, o) && list == [Resting(a, 0), Resting(c, 1)]
    ensures Total(list, Shown, ReachOf(o, true)) == a.total + c.total
  {
    assert list[1..] == [Resting(c, 1)];
    assert Total(list[1..][1..], Shown, ReachOf(o, true)) == 0;
  }

  /** A fill-or-kill bid for more than the depth of the cut-down iceberg's level, but no more than the
      iceberg shows. */
  predicate WantsTheClip(h: OrderState, t: OrderState, qty: Qty, o: OrderState) {
    && Refills(h, t, qty) && AsBuilt(o) && o.id != h.id && o.side == BUY && o.kind == FOK && o.price >= h.price
    && Min(h.display, h.total) - t.total < o.total <= Min(h.display, qty - t.total)
  }

  /** It is rejected, although the iceberg shows enough. */
  lemma ShrunkIcebergRejects(h: OrderState, t: OrderState, qty: Qty, o: OrderState) returns (b: BookState)
    requires WantsTheClip(h, t, qty, o)
    ensures Inv(EMPTY_BOOK) && Runs(EMPTY_BOOK, [Add(h), Add(t), Modify(h.id, h.price, qty)], b)
    ensures Inv(b) && Addable(b, o) && ShownReach(b, o) >= o.total && AddOrder(b, o) == b
  {
    hide InvBut, AddOrder, Exact, Runs, DepthReach, ReachAmount, FokLiquidity;
    b := ShrunkIcebergLosesDepth(h, t, qty);
    OneLevelReach(b, o, h.price);
    SingleSum(b, SELL, h.price);
    AcceptedExactlyWhen(b, o);
    RejectedLeavesNoTrace(b, o);
  }

  lemma AmountOfOne(b: BookState, p: Price, limit: Price, m: Measure)
    requires limit >= p
    ensures AmountWithin(b, [p], BUY, limit, true, m) == SumQueue(b.Queue(SELL, p), b.orders, m)
  {
    hide SumQueue;
    assert [p][..0] == [];
    assert AmountWithin(b, [], BUY, limit, true, m) == 0;
  }

  lemma DepthOfOne(b: BookState, p: Price, limit: Price)
    requires p in b.asks.levels && limit >= p
    ensures DepthWithin(b, [p], BUY, limit) == b.asks.levels[p].openQty
  {
    assert [p][..0] == [];
    assert DepthWithin(b, [], BUY, limit) == 0;
  }

  lemma OneLevelAmount(b: BookState, o: OrderState, p: Price, m: Measure)
    requires Inv(b) && b.asks.levels.Keys == {p} && o.side == BUY && o.price >= p
    ensures ReachAmount(b, o, true, m) == SumQueue(b.Queue(SELL, p), b.orders, m)
  {
    hide InvBut, SumQueue, AmountWithin, Ascending, SideState.NonEmpty;
    AllOccupied(b, SELL);
    AscendingOne(p);
    AmountOfOne(b, p, o.price, m);
    assert b.SideOf(Opposite(o.side)).NonEmpty() == {p};
  }

  lemma OneLevelReach(b: BookState, o: OrderState, p: Price)
    requires Inv(b) && b.asks.levels.Keys == {p} && o.side == BUY && o.price >= p
    ensures DepthReach(b, o) == b.asks.levels[p].openQty
    ensures ShownReach(b, o) == SumQueue(b.Queue(SELL, p), b.orders, Shown)
  {
    hide InvBut, SumQueue, AmountWithin, DepthWithin, Ascending, SideState.NonEmpty;
    AllOccupied(b, SELL);
    AscendingOne(p);
    assert p in b.asks.levels.Keys;
    OneLevelAmount(b, o, p, Shown);
    DepthOfOne(b, p, o.price);
    assert b.SideOf(Opposite(o.side)).NonEmpty() == {p};
  }

  lemma AscendingOne(p: Price)
    ensures Ascending({p}) == [p]
  {
    BestIsUnique(BUY, {p}, p);
    assert {p} - {p} == {};
    assert Ascending({}) == [];
  }

  // ---- the number of trades -------------------------------------------------------------------------

  /** A larger ask, a smaller one behind it at the same price, and a bid for the larger one. */
  predicate LargerFirst(a: OrderState, c: OrderState, o: OrderState) {
    && TwoAsks(a, c) && a.price == c.price && c.total < a.total
    && AsBuilt(o) && o.id != a.id && o.id != c.id && o.side == BUY && o.kind == LIMIT && o.price == a.price
    && o.total == a.total
  }

  /** The book hits the older order and makes one trade, the research matcher the smaller pair first and
      makes two. */
  lemma TradeCountsDiffer(a: OrderState, c: OrderState, o: OrderState) returns (b: BookState)
    requires LargerFirst(a, c, o)
    ensures var ops := [Add(a), Add(c), Add(o)];
      && Inv(EMPTY_BOOK) && Runs(EMPTY_BOOK, ops, b) && (forall i :: 0 <= i < |ops| ==> IsLimit(ops[i]))
      && |b.trades| == 1 && MatchRows(RowsOf(ops)).trades == 2
  {
    hide InvBut, AddOrder, Sim, FlatOk, Runs, NaiveProcess, MatchRows, Accepts;
    var b2, f2 := TwoAsksRest(a, c);
    OneMore([Add(a), Add(c)], b2, Add(o));
    assert [Add(a), Add(c)] + [Add(o)] == [Add(a), Add(c), Add(o)];
    b := AddOrder(b2, o);
    SimApply(b2, f2, Add(o));
    SameTrades(b, NaiveProcess(f2, o, Accepts(b2, Add(o))));
    OneTradeOnly(f2, a, c, o, Accepts(b2, Add(o)));
    HeapMakesTwo(a.price, a.total, c.total);
    ThreeRows(a, c, o);
  }

  lemma ThreeRows(a: OrderState, c: OrderState, o: OrderState)
    requires IsLimit(Add(a)) && IsLimit(Add(c)) && IsLimit(Add(o))
    ensures forall i :: 0 <= i < |[Add(a), Add(c), Add(o)]| ==> IsLimit([Add(a), Add(c), Add(o)][i])
    ensures RowsOf([Add(a), Add(c), Add(o)]) == [RowOf(a), RowOf(c), RowOf(o)]
  {
    assert [Add(a), Add(c), Add(o)][1..] == [Add(c), Add(o)];
    assert [Add(c), Add(o)][1..] == [Add(o)];
    assert [Add(o)][1..] == [];
    assert RowsOf([Add(o)]) == [RowOf(o)];
    assert RowsOf([Add(c), Add(o)]) == [RowOf(c), RowOf(o)];
  }

  lemma OneTradeOnly(f: FlatBook, a: OrderState, c: OrderState, o: OrderState, accept: bool)
    requires LargerFirst(a, c, o) && FlatOk(f) && f.list == [Resting(a, 0), Resting(c, 1)] && f.trades == []
    ensures |NaiveProcess(f, o, accept).trades| == 1
  {
    FrontIsBest(f.list, SELL);
    assert f.list[0].order.side == SELL;
    assert Front(f.list, SELL) == Some(0);
    var (f', o') := NaiveStep(f, o);
    assert |f'.trades| == 1 && o'.Pending() == 0;
    NaiveStepKeeps(f, o);
    assert NaiveLoop(f', o', true) == (f', o');
  }

  lemma HeapMakesTwo(p: Price, large: Qty, small: Qty)
    requires 0 < small < large
    ensures MatchRows([Row("SELL", p, large), Row("SELL", p, small), Row("BUY", p, large)]).trades == 2
  {
    hide MatchRow;
    var rows := [Row("SELL", p, large), Row("SELL", p, small), Row("BUY", p, large)];
    assert rows[..2][..1] == rows[..1] && rows[..1][..0] == [];
    AskRows(p, large, small);
    BidRow(p, large, small);
    assert MatchRows(rows[..1]) == MatchRow(NO_BOOKS, rows[0]);
    assert MatchRows(rows[..2]) == MatchRow(MatchRows(rows[..1]), rows[1]);
  }

  lemma AskRows(p: Price, large: Qty, small: Qty)
    requires 0 < small < large
    ensures MatchRow(NO_BOOKS, Row("SELL", p, large)) == Books([], [Quote(p, large)], 0, 0)
    ensures HeapOk([Quote(p, large)])
    ensures MatchRow(Books([], [Quote(p, large)], 0, 0), Row("SELL", p, small)) ==
      Books([], [Quote(p, small), Quote(p, large)], 0, 0)
  {
    assert |"SELL"| != |"BUY"|;
    var h := [Quote(p, large)];
    assert HeapOk(h);
    assert Push(h, Quote(p, small)) == [Quote(p, small)] + h;
  }

  lemma BidRow(p: Price, large: Qty, small: Qty)
    requires 0 < small < large
    ensures BooksOk(Books([], [Quote(p, small), Quote(p, large)], 0, 0))
    ensures MatchRow(Books([], [Quote(p, small), Quote(p, large)], 0, 0), Row("BUY", p, large)).trades == 2
  {
    var h, h1, h2 := [Quote(p, small), Quote(p, large)], [Quote(p, large)], [Quote(p, small)];
    assert HeapOk(h) && HeapOk(h1) && HeapOk(h2);
    assert AfterHit(h, small) == h1;
    assert AfterHit(h1, large - small) == h2 by {
      assert h1[1..] == [];
    }
    assert Hit(h2, p, 0).trades == 0;
    assert Hit(h1, p, large - small).trades == 1;
  }
}
