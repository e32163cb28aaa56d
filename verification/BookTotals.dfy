/**
  Quantities of whole operations on the book: what an added order trades is exactly the smaller of
  what it wants and what is in its reach, and a fill-or-kill order is filled completely or leaves
  the book as it was.
 */
module BookTotals {
  import opened Types
  import opened Orders
  import opened PriceLevels
  import opened PriceWindows
  import opened BookSpec
  import opened BookInvariant
  import opened BookOps
  import opened FlatBooks
  import opened Simulation
  import opened Listing
  import opened Conservation

  // ---- amounts in the book --------------------------------------------------------------------------

  predicate Within(s: Side, limit: Price, respectPrice: bool, p: Price) {
    respectPrice ==> Crosses(s, limit, p)
  }

  /** The amount at those of the given prices that an order of side s may trade at. */
  ghost function AmountWithin(b: BookState, prices: seq<Price>, s: Side, limit: Price, respectPrice: bool,
      m: Measure): nat {
    if prices == [] then 0 else
    var last := prices[|prices| - 1];
    AmountWithin(b, prices[..|prices| - 1], s, limit, respectPrice, m) +
    if Within(s, limit, respectPrice, last) then SumQueue(b.Queue(Opposite(s), last), b.orders, m) else 0
  }

  /** The amount an order may trade with, level by level. */
  ghost function ReachAmount(b: BookState, o: OrderState, respectPrice: bool, m: Measure): nat {
    AmountWithin(b, Ascending(b.SideOf(Opposite(o.side)).NonEmpty()), o.side, o.price, respectPrice, m)
  }

  // ---- the same amounts in the flat list ------------------------------------------------------------

  lemma {:induction false} SumQueueIsTotal(q: seq<Entry>, orders: map<OrderId, OrderState>, list: seq<Resting>,
      m: Measure, s: Side, p: Price)
    requires Stored(q, orders) && Pick(list, s, p) == Resolve(q, orders)
    ensures SumQueue(q, orders, m) == Total(list, m, AtPrices(s, {p}))
    decreases |list|
  {
    if list != [] {
      var here := list[0].order.side == s && list[0].order.price == p;
      if here {
        assert Resolve(q[1..], orders) == Resolve(q, orders)[1..] == Pick(list[1..], s, p);
        assert Resolve(q, orders)[0] == list[0].order;
        SumQueueIsTotal(q[1..], orders, list[1..], m, s, p);
      } else {
        SumQueueIsTotal(q, orders, list[1..], m, s, p);
      }
    }
  }

  lemma {:induction false} OnePriceMore(list: seq<Resting>, m: Measure, s: Side, prices: set<Price>, p: Price,
      more: set<Price>)
    requires p !in prices && forall q :: q in more <==> q in prices || q == p
    ensures Total(list, m, AtPrices(s, more)) == Total(list, m, AtPrices(s, prices)) + Total(list, m, AtPrices(s, {p}))
  {
    if list != [] {
      OnePriceMore(list[1..], m, s, prices, p, more);
    }
  }

  ghost function Chosen(prices: seq<Price>, s: Side, limit: Price, respectPrice: bool): set<Price> {
    set p | p in prices && Within(s, limit, respectPrice, p)
  }

  lemma {:induction false} AmountIsTotal(b: BookState, f: FlatBook, prices: seq<Price>, s: Side, limit: Price,
      respectPrice: bool, m: Measure)
    requires Inv(b) && Sim(b, f)
    requires forall i, j :: 0 <= i < j < |prices| ==> prices[i] < prices[j]
    ensures AmountWithin(b, prices, s, limit, respectPrice, m) ==
      Total(f.list, m, AtPrices(Opposite(s), Chosen(prices, s, limit, respectPrice)))
  {
    hide Inv, Sim, SumQueue, Total, Within;
    if prices == [] {
      TotalNone(f.list, m, AtPrices(Opposite(s), Chosen(prices, s, limit, respectPrice)));
    } else {
      var k := |prices| - 1;
      AmountIsTotal(b, f, prices[..k], s, limit, respectPrice, m);
      var before, after := Chosen(prices[..k], s, limit, respectPrice), Chosen(prices, s, limit, respectPrice);
      if Within(s, limit, respectPrice, prices[k]) {
        SimQueue(b, f, Opposite(s), prices[k]);
        SumQueueIsTotal(b.Queue(Opposite(s), prices[k]), b.orders, f.list, m, Opposite(s), prices[k]);
        OnePriceMore(f.list, m, Opposite(s), before, prices[k], after);
      } else {
        assert before == after;
      }
    }
  }

  /** Level by level or order by order, the amount in reach is the same. */
  lemma ReachIsTotal(b: BookState, f: FlatBook, o: OrderState, respectPrice: bool, m: Measure)
    requires Inv(b) && Sim(b, f) && FlatOk(f)
    ensures ReachAmount(b, o, respectPrice, m) == Total(f.list, m, ReachOf(o, respectPrice))
  {
    var s := Opposite(o.side);
    var prices := Ascending(b.SideOf(s).NonEmpty());
    AscendingIsSorted(b.SideOf(s).NonEmpty());
    AmountIsTotal(b, f, prices, o.side, o.price, respectPrice, m);
    var chosen := Chosen(prices, o.side, o.price, respectPrice);
    forall i | 0 <= i < |f.list|
      ensures Selects(AtPrices(s, chosen), f.list[i].order) <==> Selects(ReachOf(o, respectPrice), f.list[i].order)
    {
      ListedSide(f, i);
      var j := ListedIsQueued(b, None, f, i);
    }
    TotalAlike(f.list, m, AtPrices(s, chosen), ReachOf(o, respectPrice));
  }

  /** What is in reach of an order depends only on the opposite side and the orders indexed there. */
  lemma ReachFrame(b: BookState, b': BookState, o: OrderState, respectPrice: bool)
    requires Inv(b) && o.side != INVALID && b'.SideOf(Opposite(o.side)) == b.SideOf(Opposite(o.side))
    requires forall c :: c in b.refs && b.refs[c].side == Opposite(o.side) ==>
      c in b.orders && c in b'.orders && b'.orders[c] == b.orders[c]
    ensures forall m :: ReachAmount(b', o, respectPrice, m) == ReachAmount(b, o, respectPrice, m)
    ensures FokLiquidity(b', o) <==> FokLiquidity(b, o)
  {
    hide Inv, SumDepth, AmountWithin, Ascending;
    forall m: Measure
      ensures ReachAmount(b', o, respectPrice, m) == ReachAmount(b, o, respectPrice, m)
    {
      AmountFrame(b, b', Ascending(b.SideOf(Opposite(o.side)).NonEmpty()), o.side, o.price, respectPrice, m);
    }
  }

  lemma {:induction false} AmountFrame(b: BookState, b': BookState, prices: seq<Price>, s: Side, limit: Price,
      respectPrice: bool, m: Measure)
    requires Inv(b) && s != INVALID && b'.SideOf(Opposite(s)) == b.SideOf(Opposite(s))
    requires forall c :: c in b.refs && b.refs[c].side == Opposite(s) ==>
      c in b.orders && c in b'.orders && b'.orders[c] == b.orders[c]
    ensures AmountWithin(b', prices, s, limit, respectPrice, m) == AmountWithin(b, prices, s, limit, respectPrice, m)
  {
    hide Inv, SumQueue, Within;
    if prices != [] {
      var k := |prices| - 1;
      AmountFrame(b, b', prices[..k], s, limit, respectPrice, m);
      QueueFrame(b, b', Opposite(s), prices[k], m);
    }
  }

  lemma QueueFrame(b: BookState, b': BookState, s: Side, p: Price, m: Measure)
    requires Inv(b) && s != INVALID && b'.SideOf(s) == b.SideOf(s)
    requires forall c :: c in b.refs && b.refs[c].side == s ==>
      c in b.orders && c in b'.orders && b'.orders[c] == b.orders[c]
    ensures b'.Queue(s, p) == b.Queue(s, p)
    ensures SumQueue(b'.Queue(s, p), b'.orders, m) == SumQueue(b.Queue(s, p), b.orders, m)
  {
    forall i | 0 <= i < |b.Queue(s, p)|
      ensures var c := b.Queue(s, p)[i].id; c in b.orders && c in b'.orders && b'.orders[c] == b.orders[c]
    {
      QueuedIsLive(b, None, s, p, i);
    }
    hide Inv;
    SumQueueFrame(b.Queue(s, p), b.orders, b'.orders, m);
  }

  // ---- matching -------------------------------------------------------------------------------------

  /** One match fills the incoming order by exactly the smaller of what it shows and what is in reach,
      reports that much, and takes it off what is in reach. */
  lemma LoopTrades(b: BookState, id: OrderId, respectPrice: bool)
    requires MatchInv(b, id)
    ensures var o := b.orders[id]; var m := MatchLoop(b, id, respectPrice);
      var t := Min(o.Pending(), ReachAmount(b, o, respectPrice, Whole));
      && MatchInv(m, id) && m.orders[id] == o.(filled := o.filled + t) && m.orders[id].Pending() == o.Pending() - t
      && SumQty(m.trades) == SumQty(b.trades) + t
      && ReachAmount(m, o, respectPrice, Whole) == ReachAmount(b, o, respectPrice, Whole) - t
  {
    hide Inv, Sim, FlatOk, MatchLoop, NaiveLoop, Total, SumQty, AmountWithin;
    StoredOrder(b, id);
    var f := HasFlat(b);
    var o, m := b.orders[id], MatchLoop(b, id, respectPrice);
    var f' := NaiveLoop(f, o, respectPrice).0;
    MatchLoopKeeps(b, id, respectPrice);
    NaiveLoopKeeps(f, o, respectPrice);
    SimLoop(b, f, id, respectPrice);
    LoopConserves(f, o, respectPrice);
    ReachIsTotal(b, f, o, respectPrice, Whole);
    ReachIsTotal(m, f', o, respectPrice, Whole);
    SameTrades(b, f);
    SameTrades(m, f');
  }

  lemma RestedIsLive(b: BookState, id: OrderId)
    requires MatchInv(b, id)
    ensures Live(Rest(b, id), id)
    ensures Rest(b, id).orders[id].filled == b.orders[id].filled
  {
    StoredOrder(b, id);
    RestShape(b, id);
    var o, b' := b.orders[id].Refresh(), Rest(b, id);
    var level := b.SideOf(o.side).EnsureLevel(o.side, o.price).levels[o.price];
    hide Inv, Rest, SideState.EnsureLevel, OrderState.Refresh;
    var q := b'.Queue(o.side, o.price);
    assert q[|q| - 1] == Entry(id, level.NextSlot());
  }

  /** Coming to rest, or being released, changes nothing on the other side. */
  lemma AftermathReach(m: BookState, id: OrderId, o: OrderState, respectPrice: bool)
    requires MatchInv(m, id) && o.side == m.orders[id].side
    ensures ReachAmount(Rest(m, id), o, respectPrice, Whole) == ReachAmount(m, o, respectPrice, Whole)
    ensures ReachAmount(Release(m, id), o, respectPrice, Whole) == ReachAmount(m, o, respectPrice, Whole)
  {
    hide Inv, Rest, ReachAmount, OrderState.Refresh, SideState.EnsureLevel, FokLiquidity;
    StoredOrder(m, id);
    IndexedStored(m);
    RestShape(m, id);
    ReachFrame(m, Rest(m, id), o, respectPrice);
    ReachFrame(m, Release(m, id), o, respectPrice);
  }

  /** What an executed order leaves behind. */
  lemma ExecuteTrades(b: BookState, id: OrderId, respectPrice: bool, allowRest: bool)
    requires MatchInv(b, id)
    ensures var o := b.orders[id]; var b' := ExecuteMatch(b, id, respectPrice, allowRest);
      var t := Min(o.Pending(), ReachAmount(b, o, respectPrice, Whole));
      && SumQty(b'.trades) == SumQty(b.trades) + t
      && ReachAmount(b', o, respectPrice, Whole) == ReachAmount(b, o, respectPrice, Whole) - t
      && (id in b'.orders <==> allowRest && t < o.Pending())
      && (id in b'.orders ==>
            o.filled + t <= o.total && b'.orders[id] == o.(filled := o.filled + t).Refresh() && Live(b', id))
  {
    hide Inv, MatchLoop, Rest, SumQty, ReachAmount, Live, OrderState.Refresh, SideState.EnsureLevel;
    LoopTrades(b, id, respectPrice);
    var m := MatchLoop(b, id, respectPrice);
    StoredOrder(m, id);
    RestShape(m, id);
    RestedIsLive(m, id);
    AftermathReach(m, id, b.orders[id], respectPrice);
  }

  // ---- one operation --------------------------------------------------------------------------------

  /** The part of an order that is matched when it comes in: an iceberg works only its first clip,
      and a fill-or-kill order works nothing unless the depth is enough. */
  ghost function Worked(b: BookState, o: OrderState): Qty {
    if o.kind == ICEBERG && o.display > 0 then Min(o.display, o.Remaining())
    else if o.kind == FOK && !FokLiquidity(b, o) then 0
    else o.Remaining()
  }

  ghost predicate RespectsPrice(o: OrderState) {
    o.kind != MARKET
  }

  /** What an incoming order trades. */
  ghost function Executed(b: BookState, o: OrderState): nat {
    Min(Worked(b, o), ReachAmount(b, o, RespectsPrice(o), Whole))
  }

  /** The order stays on the book: it may rest, and the part it works is not filled. */
  ghost predicate ComesToRest(b: BookState, o: OrderState) {
    o.kind in {LIMIT, ICEBERG} && Executed(b, o) < Worked(b, o)
  }

  /** What becomes of an incoming order o and of the orders in its reach, when b becomes b'. */
  ghost predicate TradesExactly(b: BookState, o: OrderState, b': BookState) {
    var t := Executed(b, o);
    && SumQty(b'.trades) == SumQty(b.trades) + t
    && ReachAmount(b', o, RespectsPrice(o), Whole) == ReachAmount(b, o, RespectsPrice(o), Whole) - t
    && (o.id in b'.orders <==> ComesToRest(b, o))
    && (o.id in b'.orders ==>
          o.filled + t <= o.total && b'.orders[o.id] == Rested(o, t) && Live(b', o.id))
  }

  /** Preparing an iceberg changes nothing but the order itself. */
  lemma PreparedReach(b: BookState, id: OrderId, o: OrderState, respectPrice: bool)
    requires MatchInv(b, id) && o.id == id && o.side == b.orders[id].side
    ensures forall m ::
      ReachAmount(b.WithOrder(o), b.orders[id], respectPrice, m) == ReachAmount(b, b.orders[id], respectPrice, m)
  {
    hide Inv, ReachAmount, FokLiquidity;
    StoredOrder(b, id);
    IndexedStored(b);
    ReachFrame(b, b.WithOrder(o), b.orders[id], respectPrice);
  }

  lemma IcebergTrades(b: BookState, id: OrderId)
    requires MatchInv(b, id) && b.orders[id].kind == ICEBERG
    ensures TradesExactly(b, b.orders[id], ProcessOrder(b, id))
  {
    hide Inv, ExecuteMatch, SumQty, AmountWithin, Live, OrderState.HandleIceberg, OrderState.Refresh, Rested,
      FokLiquidity;
    IcebergKeeps(b, id);
    StoredOrder(b, id);
    var o := b.orders[id];
    var o' := o.HandleIceberg();
    PreparedIceberg(o);
    PreparedReach(b, id, o', true);
    ExecuteTrades(b.WithOrder(o'), id, true, true);
    RestsAs(o, Executed(b, o));
  }

  lemma RestsAs(o: OrderState, t: nat)
    ensures var o1 := if o.kind == ICEBERG then o.HandleIceberg() else o; o1.total == o.total
    ensures o.filled + t <= o.total ==>
      var o1 := if o.kind == ICEBERG then o.HandleIceberg() else o;
      o1.(filled := o1.filled + t).Refresh() == Rested(o, t)
  {
    if o.filled + t <= o.total {
      RestedIs(o, t);
    }
  }

  lemma PreparedIceberg(o: OrderState)
    requires o.Sane() && o.kind == ICEBERG
    ensures var o' := o.HandleIceberg();
      && o'.side == o.side && o'.price == o.price && o'.filled == o.filled && o'.id == o.id
      && o'.Pending() == if o.display > 0 then Min(o.display, o.Remaining()) else o.Remaining()
  {
  }

  /** An order that is processed trades exactly the smaller of what it works and what is in its reach,
      hidden iceberg quantity included; the orders in its reach lose exactly that; and it stays on the
      book exactly when it may rest and the part it works was not filled. */
  lemma ProcessTrades(b: BookState, id: OrderId)
    requires MatchInv(b, id) && (b.orders[id].kind == ICEBERG || b.orders[id].Pending() == b.orders[id].Remaining())
    ensures TradesExactly(b, b.orders[id], ProcessOrder(b, id))
  {
    hide Inv, ExecuteMatch, SumQty, ReachAmount, Live, OrderState.Refresh, Rested, FokLiquidity;
    var o := b.orders[id];
    StoredOrder(b, id);
    RestsAs(o, Executed(b, o));
    match o.kind {
      case LIMIT => ExecuteTrades(b, id, true, true);
      case MARKET => ExecuteTrades(b, id, false, false);
      case IOC => ExecuteTrades(b, id, true, false);
      case FOK =>
        if FokLiquidity(b, o) {
          ExecuteTrades(b, id, true, false);
        } else {
          AftermathReach(b, id, o, true);
        }
      case ICEBERG => IcebergTrades(b, id);
    }
  }

  /** A book that gets an order it does not index offers the order what it offered before. */
  lemma StoredReach(b: BookState, o: OrderState)
    requires Inv(b) && o.id !in b.refs && o.side != INVALID
    ensures Executed(b.WithOrder(o), o) == Executed(b, o) && Worked(b.WithOrder(o), o) == Worked(b, o)
    ensures ReachAmount(b.WithOrder(o), o, RespectsPrice(o), Whole) == ReachAmount(b, o, RespectsPrice(o), Whole)
  {
    hide Inv, ReachAmount, FokLiquidity;
    IndexedStored(b);
    ReachFrame(b, b.WithOrder(o), o, RespectsPrice(o));
  }

  /** Adding an order trades exactly the smaller of what it works and what is in its reach. */
  lemma AddTrades(b: BookState, o: OrderState)
    requires Inv(b) && Addable(b, o)
    ensures TradesExactly(b, o, AddOrder(b, o))
  {
    hide InvBut, ProcessOrder, SumQty, ReachAmount, FokLiquidity, Live;
    AddedIsStored(b, o);
    IndexedStored(b);
    StoredReach(b, o);
    ProcessTrades(b.WithOrder(o), o.id);
  }

  /** The modification sends the order through matching again. */
  ghost predicate Reenters(b: BookState, id: OrderId, price: Price, qty: Qty) {
    && Live(b, id) && (price != b.orders[id].price || qty > b.orders[id].total)
    && qty >= b.orders[id].filled
  }

  /** A live order has left the book; what the other side offers is what it offered. */
  lemma LeftReach(b: BookState, id: OrderId, o: OrderState, respectPrice: bool)
    requires Inv(b) && Live(b, id) && o.side == b.refs[id].side != INVALID && o.id == id
    ensures Inv(Unqueue(b, id)) && id !in Unqueue(b, id).refs && Unqueue(b, id).trades == b.trades
    ensures forall m :: ReachAmount(Unqueue(b, id), o, respectPrice, m) == ReachAmount(b, o, respectPrice, m)
  {
    hide InvBut, Unqueue, ReachAmount, Live, FokLiquidity;
    InvIsInvBut(b);
    UnqueueKeeps(b, None, id);
    UnqueueShape(b, id);
    IndexedStored(b);
    hide Inv;
    ReachFrame(b, Unqueue(b, id), o, respectPrice);
  }

  lemma ReenteredShows(o: OrderState, price: Price, qty: Qty)
    requires o.Restable() && qty >= o.filled
    ensures Reenter(o, price, qty) == Some(Resized(o, price, qty))
    ensures var o' := Resized(o, price, qty);
      && o'.id == o.id && o'.side == o.side && o'.kind == o.kind && o'.filled == o.filled && o'.kind in {LIMIT, ICEBERG}
      && (o'.kind == ICEBERG || o'.Pending() == o'.Remaining())
  {
  }

  lemma LiveFits(b: BookState, id: OrderId)
    requires Inv(b) && Live(b, id)
    ensures id in b.orders && id in b.refs && b.orders[id].id == id && b.orders[id].Restable()
    ensures b.orders[id].side == b.refs[id].side != INVALID && b.orders[id].price == b.refs[id].price
    ensures b.refs[id].price in b.SideOf(b.refs[id].side).levels
  {
    var k := LivePlace(b, None, id);
    StoredFit(b, None, id);
  }

  /** Modifying an order that goes through matching again trades exactly the smaller of what it then
      works and what is in its reach; any other modification trades nothing. */
  lemma ModifyTrades(b: BookState, id: OrderId, price: Price, qty: Qty)
    requires Inv(b)
    ensures if Reenters(b, id, price, qty)
      then TradesExactly(b, Resized(b.orders[id], price, qty), ModifyOrder(b, id, price, qty))
      else ModifyOrder(b, id, price, qty).trades == b.trades
  {
    hide InvBut, ReenterBook, SumQty, ReachAmount, Live, Reenter, FokLiquidity, TradesExactly;
    if Live(b, id) {
      LiveFits(b, id);
      if qty < b.orders[id].filled {
        RefusedGoes(b, id, price, qty);
      } else {
        ReenterTrades(b, id, price, qty);
      }
    }
  }

  lemma RefusedGoes(b: BookState, id: OrderId, price: Price, qty: Qty)
    requires Inv(b) && Live(b, id) && qty < b.orders[id].filled
    ensures ReenterBook(b, id, price, qty).trades == b.trades && b.orders[id].ModifyQty(qty) == None
  {
    hide InvBut, Unqueue, Live;
    UnqueueKeepsStore(b, id);
    ReenteredIsStored(b, id, price, qty);
  }

  lemma ReenterTrades(b: BookState, id: OrderId, price: Price, qty: Qty)
    requires Inv(b) && Live(b, id) && qty >= b.orders[id].filled
    ensures Reenter(b.orders[id], price, qty) == Some(Resized(b.orders[id], price, qty))
    ensures TradesExactly(b, Resized(b.orders[id], price, qty), ReenterBook(b, id, price, qty))
  {
    hide InvBut, Unqueue, ProcessOrder, SumQty, ReachAmount, Live, FokLiquidity, OrderState.Refresh,
      OrderState.Restable;
    LiveFits(b, id);
    ReenteredShows(b.orders[id], price, qty);
    var o := Resized(b.orders[id], price, qty);
    ReenteredIsStored(b, id, price, qty);
    LeftReach(b, id, o, true);
    StoredReach(Unqueue(b, id), o);
    ProcessTrades(Unqueue(b, id).WithOrder(o), id);
  }

  /** A rejected fill-or-kill order leaves the book exactly as it was. */
  lemma RejectedLeavesNoTrace(b: BookState, o: OrderState)
    requires Inv(b) && Addable(b, o) && o.kind == FOK
    ensures FokLiquidity(b.WithOrder(o), o) <==> FokLiquidity(b, o)
    ensures !FokLiquidity(b, o) ==> AddOrder(b, o) == b
  {
    hide ExecuteMatch, SumDepth;
    var b1 := b.WithOrder(o);
    assert b1.SideOf(Opposite(o.side)) == b.SideOf(Opposite(o.side));
    if !FokLiquidity(b, o) {
      assert o.id !in b.refs;
      assert Drop(b1.orders, o.id) == b.orders;
      assert Drop(b1.refs, o.id) == b.refs;
    }
  }

  // ---- the trade log of one operation ---------------------------------------------------------------

  /** The log is only extended, and the new trades against side s get worse from one to the next. */
  predicate Worsening(before: seq<TradeEvent>, after: seq<TradeEvent>, s: Side) {
    && before <= after
    && forall i, j :: |before| <= i < j < |after| ==> NoWorse(s, after[i].price, after[j].price)
  }

  lemma ExecuteWorsens(b: BookState, id: OrderId, respectPrice: bool, allowRest: bool)
    requires MatchInv(b, id)
    ensures Worsening(b.trades, ExecuteMatch(b, id, respectPrice, allowRest).trades, Opposite(b.orders[id].side))
  {
    hide Inv, Sim, FlatOk, MatchLoop, NaiveLoop, Rest, AtBest;
    StoredOrder(b, id);
    var f := HasFlat(b);
    SimLoop(b, f, id, respectPrice);
    SameTrades(b, f);
    var m, o := MatchLoop(b, id, respectPrice), b.orders[id];
    SameTrades(m, NaiveLoop(f, o, respectPrice).0);
    var q := SomeBest(f.list, Opposite(o.side));
    LoopWorsens(f, o, respectPrice, |f.trades|, q);
    MatchLoopKeeps(b, id, respectPrice);
    StoredOrder(m, id);
    RestShape(m, id);
  }

  lemma SomeBest(list: seq<Resting>, s: Side) returns (q: Price)
    ensures AtBest(list, s, q)
  {
    FrontIsBest(list, s);
    q := if Front(list, s).Some? then list[Front(list, s).value].order.price else 0;
  }

  lemma ProcessWorsens(b: BookState, id: OrderId)
    requires MatchInv(b, id)
    ensures Worsening(b.trades, ProcessOrder(b, id).trades, Opposite(b.orders[id].side))
  {
    hide Inv, ExecuteMatch, OrderState.Refresh, FokLiquidity;
    match b.orders[id].kind {
      case LIMIT => ExecuteWorsens(b, id, true, true);
      case MARKET => ExecuteWorsens(b, id, false, false);
      case IOC => ExecuteWorsens(b, id, true, false);
      case FOK => ExecuteWorsens(b, id, true, false);
      case ICEBERG =>
        IcebergKeeps(b, id);
        ExecuteWorsens(b.WithOrder(b.orders[id].HandleIceberg()), id, true, true);
    }
  }

  /** Adding an order only extends the trade log, and the new trades start at the best opposite price
      and get worse from one to the next. */
  lemma AddWorsens(b: BookState, o: OrderState)
    requires Inv(b) && Addable(b, o)
    ensures Worsening(b.trades, AddOrder(b, o).trades, Opposite(o.side))
  {
    hide InvBut, ProcessOrder;
    AddedIsStored(b, o);
    ProcessWorsens(b.WithOrder(o), o.id);
  }

  /** So does modifying one; without the order there is nothing to report. */
  lemma ModifyWorsens(b: BookState, id: OrderId, price: Price, qty: Qty)
    requires Inv(b)
    ensures var b' := ModifyOrder(b, id, price, qty);
      if id in b.orders then Worsening(b.trades, b'.trades, Opposite(b.orders[id].side)) else b' == b
  {
    hide Inv, ReenterBook, Live, Reenter, OrderState.Restable, OrderState.ModifyQty;
    IndexedStored(b);
    if Live(b, id) {
      LiveFits(b, id);
      ReenterWorsens(b, id, price, qty);
    }
  }

  lemma ReenterWorsens(b: BookState, id: OrderId, price: Price, qty: Qty)
    requires Inv(b) && Live(b, id)
    ensures Worsening(b.trades, ReenterBook(b, id, price, qty).trades, Opposite(b.orders[id].side))
  {
    hide InvBut, Unqueue, ProcessOrder, Live;
    UnqueueKeepsStore(b, id);
    ReenteredIsStored(b, id, price, qty);
    var again := Reenter(b.orders[id], price, qty);
    if again.Some? {
      ProcessWorsens(Unqueue(b, id).WithOrder(again.value), id);
    }
  }
}
