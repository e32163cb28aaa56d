/**
  What single operations do to the orders they are about, told from the order's own fields: each branch
  of cancelling and modifying, an iceberg from its entry to a later increase, and every trade that an
  incoming order reports.
 */
module Outcomes {
  import opened Types
  import opened Orders
  import opened BookSpec
  import opened BookInvariant
  import opened BookOps
  import opened FlatBooks
  import opened Simulation
  import opened Listing
  import opened BookTotals

  // ---- cancelling and modifying ---------------------------------------------------------------------

  /** Cancelling answers yes exactly for a live order, which is then gone.  An order the price window has
      dropped only loses its index entry: it stays stored.  Nothing else changes. */
  lemma CancelOutcome(b: BookState, id: OrderId)
    requires Inv(b)
    ensures var (b', found) := CancelOrder(b, id);
      && (found <==> Live(b, id))
      && id !in b'.refs && (forall c :: c != id ==> (c in b'.refs <==> c in b.refs))
      && (forall c :: c != id && c in b.refs ==> b'.refs[c] == b.refs[c])
      && (id in b'.orders <==> id in b.orders && !Live(b, id))
      && (forall c :: c in b'.orders <==> c in b.orders && !(c == id && found))
      && (forall c :: c in b'.orders ==> b'.orders[c] == b.orders[c])
      && b'.trades == b.trades
  {
    hide InvBut, Unqueue, Live;
    if Live(b, id) {
      IndexedStored(b);
      LiveFits(b, id);
      UnqueueKeepsStore(b, id);
      UnqueueShape(b, id);
    }
  }

  /** Modifying, branch by branch.  Nothing happens to an unknown order, to one whose level is gone, or
      when a quantity below what is filled is asked for at an unchanged price.  At an unchanged price and
      with no larger quantity the order keeps its place and is resized.  Otherwise a live order comes in
      anew, resized and at the new price, but is lost if its quantity would be below what is filled; an
      order that is not live is left alone. */
  lemma ModifyOutcome(b: BookState, id: OrderId, price: Price, qty: Qty)
    requires Inv(b)
    ensures var b' := ModifyOrder(b, id, price, qty);
      if id !in b.refs || b.refs[id].price !in b.SideOf(b.refs[id].side).levels then b' == b
      else
        && id in b.orders
        && var o := b.orders[id];
        if price == o.price && qty <= o.total then
          if qty < o.filled then b' == b
          else
            && b'.orders == b.orders[id := Resized(o, price, qty)] && b'.refs == b.refs && b'.trades == b.trades
            && forall s, p :: b'.Queue(s, p) == b.Queue(s, p)
        else if !Live(b, id) then b' == b
        else if qty < o.filled then
          && b'.orders == Drop(b.orders, id) && b'.refs == Drop(b.refs, id) && b'.trades == b.trades
        else TradesExactly(b, Resized(o, price, qty), b')
  {
    hide InvBut, Unqueue, ModifyInPlace, ReenterBook, Live, TradesExactly, OrderState.ModifyQty;
    if id in b.refs && b.refs[id].price in b.SideOf(b.refs[id].side).levels {
      IndexedOrder(b, id);
      var o := b.orders[id];
      ModifiedIs(o, qty);
      if price == o.price && qty <= o.total {
        if qty >= o.filled {
          InPlaceShape(b, id, Resized(o, price, qty));
        }
      } else if Live(b, id) {
        if qty >= o.filled {
          ReenterTrades(b, id, price, qty);
        } else {
          RefusedIsLost(b, id, price, qty);
        }
      }
    }
  }

  lemma RefusedIsLost(b: BookState, id: OrderId, price: Price, qty: Qty)
    requires Inv(b) && Live(b, id) && id in b.orders && qty < b.orders[id].filled
    ensures var b' := ReenterBook(b, id, price, qty);
      b'.orders == Drop(b.orders, id) && b'.refs == Drop(b.refs, id) && b'.trades == b.trades
  {
    hide InvBut, Unqueue, Live;
    LiveFits(b, id);
    ReenteredIs(b.orders[id], price, qty);
    UnqueueShape(b, id);
  }

  // ---- an iceberg -----------------------------------------------------------------------------------

  /** An iceberg that is added and comes to rest has the display quantity it was given, or its whole
      quantity if it was given none, and shows one clip of what it did not trade.  If it is then given any
      quantity that is not below what is filled, and stays, it still has that display quantity and shows
      one clip of the new rest. */
  lemma IcebergDisplay(b: BookState, o: OrderState, price: Price, qty: Qty)
    requires Inv(b) && Addable(b, o) && o.kind == ICEBERG && o.id in AddOrder(b, o).orders
    ensures Inv(AddOrder(b, o))
    ensures var display := if o.display > 0 then o.display else o.total; var b1 := AddOrder(b, o);
      && b1.orders[o.id].display == display && b1.orders[o.id].filled == Executed(b, o) <= o.total
      && b1.orders[o.id].Pending() == Min(display, o.total - Executed(b, o))
      && (qty >= Executed(b, o) && o.id in ModifyOrder(b1, o.id, price, qty).orders ==>
            var o2 := ModifyOrder(b1, o.id, price, qty).orders[o.id];
            && o2.display == display && o2.total == qty && Executed(b, o) <= o2.filled <= qty
            && o2.Pending() == Min(display, qty - o2.filled))
  {
    hide InvBut, AddOrder, ModifyOrder, Executed, Live, SumQueue, ReachAmount;
    AddOrderKeeps(b, o);
    AddTrades(b, o);
    if qty >= Executed(b, o) {
      ModifiedOrder(AddOrder(b, o), o.id, price, qty);
    }
  }

  // ---- the trades -----------------------------------------------------------------------------------

  /** A report of a trade between the incoming order o and the resting order r: at r's price, which is
      within o's limit if it has one, for no more than is left of r and for no more than one clip. */
  ghost predicate TradeFits(t: TradeEvent, o: OrderState, limited: bool, r: OrderState) {
    && t.aggressorId == o.id && t.aggressorSide == o.side && t.instrument == o.instrument
    && t.restingId == r.id && t.restingSide == r.side && t.price == r.price
    && r.side != o.side
    && (limited ==> if o.side == BUY then t.price <= o.price else t.price >= o.price)
    && 0 < t.quantity <= r.total - r.filled
    && (r.kind == ICEBERG ==> t.quantity <= r.display)
  }

  lemma NaiveStepTrade(f: FlatBook, o: OrderState, limited: bool)
    requires FlatOk(f) && o.Sane() && o.side != INVALID && NaiveCanMatch(f, o, limited)
    ensures var k := Front(f.list, Opposite(o.side)).value; var f' := NaiveStep(f, o).0;
      && f.trades <= f'.trades
      && forall i :: |f.trades| <= i < |f'.trades| ==> TradeFits(f'.trades[i], o, limited, f.list[k].order)
  {
    hide Front, TakeOut, OrderState.AddFill, OrderState.Refresh;
    var k := Front(f.list, Opposite(o.side)).value;
    ListedFit(f, k);
  }

  lemma NaiveStepList(f: FlatBook, o: OrderState, i: nat) returns (k: nat)
    requires FlatOk(f) && o.Sane() && Front(f.list, Opposite(o.side)).Some? && i < |NaiveStep(f, o).0.list|
    ensures k < |f.list| && LaterOf(f.list[k].order, NaiveStep(f, o).0.list[i].order)
  {
    hide Front, OrderState.AddFill, OrderState.Refresh;
    var at := Front(f.list, Opposite(o.side)).value;
    var r := f.list[at].order;
    ListedFit(f, at);
    FilledOrder(r, Min(o.Pending(), r.Pending()));
    var r' := r.AddFill(Min(o.Pending(), r.Pending()));
    k := if r'.Pending() > 0 then i else if i == |f.list| - 1 then at else if i < at then i else i + 1;
  }

  /** Every trade of a match is with an order that was in the list before it. */
  lemma {:induction false} NaiveLoopTrades(f: FlatBook, o: OrderState, limited: bool, i: nat) returns (k: nat)
    requires FlatOk(f) && o.Sane() && o.side != INVALID
    requires |f.trades| <= i < |NaiveLoop(f, o, limited).0.trades|
    ensures k < |f.list| && TradeFits(NaiveLoop(f, o, limited).0.trades[i], o, limited, f.list[k].order)
    decreases o.Pending(), |f.list|
  {
    hide FlatOk, Front, NaiveStep, LaterOf;
    k := 0;
    NaiveStepKeeps(f, o);
    NaiveStepTrade(f, o, limited);
    var (f', o') := NaiveStep(f, o);
    if i < |f'.trades| {
      LoopExtends(f', o', limited);
      k := Front(f.list, Opposite(o.side)).value;
    } else {
      var k' := NaiveLoopTrades(f', o', limited, i);
      k := NaiveStepList(f, o, k');
      LaterFits(NaiveLoop(f, o, limited).0.trades[i], o, o', limited, f.list[k].order, f'.list[k'].order);
    }
  }

  lemma LaterFits(t: TradeEvent, o: OrderState, o': OrderState, limited: bool, r: OrderState, r': OrderState)
    requires LaterOf(o, o') && LaterOf(r, r') && TradeFits(t, o', limited, r')
    ensures TradeFits(t, o, limited, r)
  {
  }

  lemma {:induction false} LoopExtends(f: FlatBook, o: OrderState, limited: bool)
    requires FlatOk(f) && o.Sane()
    ensures f.trades <= NaiveLoop(f, o, limited).0.trades
    decreases o.Pending(), |f.list|
  {
    hide FlatOk, Front;
    if NaiveCanMatch(f, o, limited) {
      NaiveStepKeeps(f, o);
      LoopExtends(NaiveStep(f, o).0, NaiveStep(f, o).1, limited);
    }
  }

  /** Every trade that b' has more than b is one of order o with an order that was live in b. */
  ghost predicate ReportsOf(b: BookState, o: OrderState, limited: bool, b': BookState) {
    && b.trades <= b'.trades
    && forall i :: |b.trades| <= i < |b'.trades| ==>
         var t := b'.trades[i];
         t.restingId in b.orders && Live(b, t.restingId) && TradeFits(t, o, limited, b.orders[t.restingId])
  }

  lemma LoopReports(b: BookState, id: OrderId, limited: bool)
    requires MatchInv(b, id)
    ensures ReportsOf(b, b.orders[id], limited, MatchLoop(b, id, limited))
  {
    hide Inv, InvBut, Sim, FlatOk, MatchLoop, NaiveLoop, TradeFits, Live, Resolve, Pick;
    StoredOrder(b, id);
    InvIsInvBut(b);
    var f := HasFlat(b);
    var o, m := b.orders[id], MatchLoop(b, id, limited);
    SimLoop(b, f, id, limited);
    SameTrades(b, f);
    SameTrades(m, NaiveLoop(f, o, limited).0);
    LoopExtends(f, o, limited);
    forall i | |b.trades| <= i < |m.trades|
      ensures var t := m.trades[i];
        t.restingId in b.orders && Live(b, t.restingId) && TradeFits(t, o, limited, b.orders[t.restingId])
    {
      var k := NaiveLoopTrades(f, o, limited, i);
      ListedLive(b, f, k);
      FitsNamed(m.trades[i], o, limited, f.list[k].order);
    }
  }

  lemma FitsNamed(t: TradeEvent, o: OrderState, limited: bool, r: OrderState)
    requires TradeFits(t, o, limited, r)
    ensures t.restingId == r.id
  {
  }

  lemma ListedLive(b: BookState, f: FlatBook, k: nat)
    requires Inv(b) && Sim(b, f) && FlatOk(f) && k < |f.list|
    ensures var r := f.list[k].order; r.id in b.orders && b.orders[r.id] == r && Live(b, r.id)
  {
    ListedSide(f, k);
    var j := ListedIsQueued(b, None, f, k);
    QueuedIsLive(b, None, f.list[k].order.side, f.list[k].order.price, j);
  }

  lemma ExecuteReports(b: BookState, id: OrderId, limited: bool, allowRest: bool)
    requires MatchInv(b, id)
    ensures ReportsOf(b, b.orders[id], limited, ExecuteMatch(b, id, limited, allowRest))
  {
    hide Inv, MatchLoop, Rest, TradeFits, Live, OrderState.Refresh;
    LoopReports(b, id, limited);
    MatchLoopKeeps(b, id, limited);
    var m := MatchLoop(b, id, limited);
    StoredOrder(m, id);
    RestShape(m, id);
  }

  lemma ProcessReports(b: BookState, id: OrderId)
    requires MatchInv(b, id)
    ensures ReportsOf(b, b.orders[id], RespectsPrice(b.orders[id]), ProcessOrder(b, id))
  {
    hide Inv, ExecuteMatch, FokLiquidity, ReportsOf, OrderState.Refresh;
    StoredOrder(b, id);
    var o := b.orders[id];
    match o.kind {
      case LIMIT => ExecuteReports(b, id, true, true);
      case MARKET => ExecuteReports(b, id, false, false);
      case IOC => ExecuteReports(b, id, true, false);
      case FOK =>
        ExecuteReports(b, id, true, false);
        NoReports(b, o, true, Release(b, id));
      case ICEBERG =>
        IcebergKeeps(b, id);
        ExecuteReports(b.WithOrder(o.HandleIceberg()), id, true, true);
        SameReports(b, b.WithOrder(o.HandleIceberg()), o, o.HandleIceberg(), true, ProcessOrder(b, id));
    }
  }

  lemma NoReports(b: BookState, o: OrderState, limited: bool, b': BookState)
    requires b'.trades == b.trades
    ensures ReportsOf(b, o, limited, b')
  {
  }

  /** Storing an order that is not indexed makes nothing else live. */
  lemma SameReports(b: BookState, b1: BookState, o: OrderState, o1: OrderState, limited: bool, b': BookState)
    requires Inv(b) && o1.id !in b.refs && b1 == b.WithOrder(o1) && ReportsOf(b1, o1, limited, b')
    requires o1.id == o.id && o1.side == o.side && o1.price == o.price && o1.instrument == o.instrument
    ensures ReportsOf(b, o, limited, b')
  {
    IndexedStored(b);
    hide Inv;
    forall i | |b.trades| <= i < |b'.trades|
      ensures var t := b'.trades[i];
        t.restingId in b.orders && Live(b, t.restingId) && TradeFits(t, o, limited, b.orders[t.restingId])
    {
      var t := b'.trades[i];
      assert t.restingId in b1.orders && Live(b1, t.restingId) && TradeFits(t, o1, limited, b1.orders[t.restingId]);
    }
  }

  /** Every trade that adding an order reports is its own, with an order that was live before, at that
      order's price and within the limit of the new one. */
  lemma AddReports(b: BookState, o: OrderState)
    requires Inv(b) && Addable(b, o)
    ensures ReportsOf(b, o, RespectsPrice(o), AddOrder(b, o))
  {
    hide InvBut, ProcessOrder, ReportsOf;
    AddedIsStored(b, o);
    IndexedStored(b);
    ProcessReports(b.WithOrder(o), o.id);
    SameReports(b, b.WithOrder(o), o, o, RespectsPrice(o), AddOrder(b, o));
  }

  /** So is every trade that a modification reports, with the order's new price as its limit; only an
      order that comes in anew reports any. */
  lemma ModifyReports(b: BookState, id: OrderId, price: Price, qty: Qty)
    requires Inv(b)
    ensures if Reenters(b, id, price, qty)
      then ReportsOf(b, Resized(b.orders[id], price, qty), true, ModifyOrder(b, id, price, qty))
      else ModifyOrder(b, id, price, qty).trades == b.trades
  {
    hide InvBut, ReenterBook, Live, Reenter, ReportsOf, TradesExactly, FokLiquidity;
    ModifyTrades(b, id, price, qty);
    if Reenters(b, id, price, qty) {
      LiveFits(b, id);
      ReenterReports(b, id, price, qty);
    }
  }

  lemma ReenterReports(b: BookState, id: OrderId, price: Price, qty: Qty)
    requires Inv(b) && Live(b, id) && id in b.orders && qty >= b.orders[id].filled
    ensures ReportsOf(b, Resized(b.orders[id], price, qty), true, ReenterBook(b, id, price, qty))
  {
    hide InvBut, Unqueue, ProcessOrder, Live, TradeFits, OrderState.Restable, OrderState.Refresh;
    LiveFits(b, id);
    InvIsInvBut(b);
    ReenteredShows(b.orders[id], price, qty);
    ReenteredIsStored(b, id, price, qty);
    UnqueueShape(b, id);
    var left, o := Unqueue(b, id), Resized(b.orders[id], price, qty);
    var b' := ReenterBook(b, id, price, qty);
    ProcessReports(left.WithOrder(o), id);
    SameReports(left, left.WithOrder(o), o, o, true, b');
    forall i | |b.trades| <= i < |b'.trades|
      ensures var t := b'.trades[i];
        t.restingId in b.orders && Live(b, t.restingId) && TradeFits(t, o, true, b.orders[t.restingId])
    {
      WasLive(b, id, b'.trades[i].restingId);
    }
  }

  lemma WasLive(b: BookState, id: OrderId, c: OrderId)
    requires Inv(b) && Live(b, id) && Live(Unqueue(b, id), c)
    ensures Live(b, c)
  {
    hide InvBut, Unqueue;
    InvIsInvBut(b);
    LiveFits(b, id);
    UnqueueShape(b, id);
    var k := LivePlace(b, None, id);
    var at := Unqueue(b, id).refs[c];
    IndexedOrder(b, c);
    UnqueuedQueue(b, None, id, k, at.side, at.price);
  }
}
