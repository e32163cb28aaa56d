/**
  When one order is forgotten.  A live order that an operation is not about, and that the operation does
  not fill, stays on its queue unless another order comes to rest on its side and moves the window away
  from its price.  Nothing is asked of the other orders of the book.
 */
module Forgetting {
  import opened Types
  import opened Orders
  import opened PriceWindows
  import opened BookSpec
  import opened BookInvariant
  import opened BookOps
  import opened Simulation
  import opened BookTotals
  import opened OrderHistory
  import opened Retention

  lemma WindowCovers(b: BookState, s: Side, price: Price)
    requires Inv(b) && s != INVALID
    ensures b.SideOf(s).EnsureLevel(s, price).base.Some?
    ensures forall p: Price :: InWindow(b.SideOf(s).EnsureLevel(s, price).base.value, p) <==>
      CoversAfter(b.SideOf(s).base, BestOf(s, b.SideOf(s).levels.Keys), price, p)
  {
    AllOccupied(b, s);
    WindowedSide(b, s);
    NewWindow(s, b.SideOf(s), price);
    hide Inv, SideState.EnsureLevel, CoversAfter;
  }

  /** If order c is still stored in b', it is live there, on the side and at the price it had. */
  ghost predicate SamePlace(b: BookState, b': BookState, c: OrderId)
    requires c in b.orders
  {
    c in b'.orders ==>
      Live(b', c) && b'.orders[c].side == b.orders[c].side && b'.orders[c].price == b.orders[c].price
  }

  // ---- what each change of the book does to a live order --------------------------------------------

  /** Coming to rest leaves another order live exactly when its price is in the new window. */
  lemma RestStays(b: BookState, id: OrderId, c: OrderId)
    requires MatchInv(b, id) && Live(b, c)
    ensures var o, b' := b.orders[id], Rest(b, id);
      && c in b'.orders && b'.orders[c] == b.orders[c] && b.SideOf(o.side).EnsureLevel(o.side, o.price).base.Some?
      && (Live(b', c) <==> (b.orders[c].side == o.side ==>
            InWindow(b.SideOf(o.side).EnsureLevel(o.side, o.price).base.value, b.orders[c].price)))
  {
    hide InvBut, Rest, OrderState.Refresh, SideState.EnsureLevel;
    StoredOrder(b, id);
    IndexedOrder(b, c);
    RestShape(b, id);
    RestedQueue(b, id, b.refs[c].side, b.refs[c].price);
  }

  lemma StoredStays(b: BookState, b': BookState, c: OrderId)
    requires b'.bids == b.bids && b'.asks == b.asks && c in b.refs && c in b'.refs && b'.refs[c] == b.refs[c]
    requires c in b.orders && c in b'.orders
    ensures Live(b', c) <==> Live(b, c)
  {
  }

  lemma RemoveRestingStays(b: BookState, h: OrderId, c: OrderId)
    requires InvBut(b, Some(h)) && Live(b, h) && Live(b, c)
    ensures SamePlace(b, RemoveResting(b, h), c) && (c != h ==> c in RemoveResting(b, h).orders)
  {
    hide InvBut, Unqueue, Rest, Live, OrderState.Refresh, SideState.EnsureLevel;
    LiveInWindow(b, Some(h), h);
    StoredFit(b, Some(h), h);
    UnqueueKeepsStore(b, h);
    UnqueueKeepsStore(b, c);
    UnqueueKeeps(b, Some(h), h);
    RemoveRestingStore(b, h);
    UnqueueShape(b, h);
    var o, b1 := b.orders[h], Unqueue(b, h);
    IndexedStored(b1);
    if c != h {
      UnqueueOther(b, Some(h), h, c);
    }
    if o.HasDisplay() && o.Remaining() > 0 {
      RefreshExposes(o);
      var b2 := b1.WithOrder(o.Refresh());
      SetOrderKeeps(b1, None, o.Refresh());
      if c == h {
        RestedIsLive(b2, h);
      } else {
        StoredStays(b1, b2, c);
        InsideRetains(b2, o.side, o.price);
        OtherStaysLive(b2, h, c);
      }
    } else if c != h {
      StoredStays(b1, Release(b1, h), c);
    }
  }

  lemma FillStays(b: BookState, id: OrderId, c: OrderId)
    requires MatchInv(b, id) && BestPrice(b, Opposite(b.orders[id].side)).Some? && Live(b, c)
    ensures c in Fill(b, id).orders && SamePlace(b, Fill(b, id), c)
  {
    hide InvBut, Fill, Head, BestPrice, OrderState.AddFill;
    HeadEntry(b, id);
    FillShape(b, id);
    IndexedOrder(b, c);
    AddFillSame(b.orders[c]);
    FillQueues(b, id, b.refs[c].side, b.refs[c].price);
  }

  lemma AddFillSame(o: OrderState)
    ensures forall q :: o.AddFill(q).side == o.side && o.AddFill(q).price == o.price
  {
  }

  lemma MatchStepStays(b: BookState, id: OrderId, c: OrderId)
    requires MatchInv(b, id) && BestPrice(b, Opposite(b.orders[id].side)).Some? && Live(b, c)
    ensures SamePlace(b, MatchStep(b, id), c)
  {
    hide InvBut, Fill, RemoveResting, Live, Head, BestPrice;
    FilledIsLive(b, id);
    FillKeeps(b, id);
    FillStays(b, id, c);
    if Fill(b, id).orders[Head(b, id)].Pending() == 0 {
      RemoveRestingStays(Fill(b, id), Head(b, id), c);
    }
  }

  lemma MatchStepStores(b: BookState, id: OrderId, c: OrderId)
    requires MatchInv(b, id) && BestPrice(b, Opposite(b.orders[id].side)).Some?
    requires c in MatchStep(b, id).orders
    ensures c in b.orders
  {
    hide Inv, InvBut, Fill, RemoveResting, Head, BestPrice, Live, OrderState.Refresh;
    HeadIsLive(b, id);
    FillShape(b, id);
    FilledIsLive(b, id);
    FillKeeps(b, id);
    if Fill(b, id).orders[Head(b, id)].Pending() == 0 {
      RemoveRestingStore(Fill(b, id), Head(b, id));
    }
  }

  lemma {:induction false} MatchLoopStores(b: BookState, id: OrderId, respectPrice: bool, c: OrderId)
    requires MatchInv(b, id) && c in MatchLoop(b, id, respectPrice).orders
    ensures c in b.orders
    decreases b.orders[id].Pending(), |b.orders|
  {
    hide Inv, MatchStep, BestPrice;
    if CanMatch(b, id, respectPrice) {
      MatchStepKeeps(b, id);
      MatchLoopStores(MatchStep(b, id), id, respectPrice, c);
      MatchStepStores(b, id, c);
    }
  }

  /** A match leaves every resting order that it does not fill where it was. */
  lemma {:induction false} MatchLoopStays(b: BookState, id: OrderId, respectPrice: bool, c: OrderId)
    requires MatchInv(b, id) && Live(b, c)
    ensures SamePlace(b, MatchLoop(b, id, respectPrice), c)
    decreases b.orders[id].Pending(), |b.orders|
  {
    hide Inv, MatchStep, BestPrice, Live;
    UnqueueKeepsStore(b, c);
    if CanMatch(b, id, respectPrice) {
      MatchStepKeeps(b, id);
      MatchStepStays(b, id, c);
      if c in MatchStep(b, id).orders {
        MatchLoopStays(MatchStep(b, id), id, respectPrice, c);
      } else if c in MatchLoop(b, id, respectPrice).orders {
        MatchLoopStores(MatchStep(b, id), id, respectPrice, c);
      }
    }
  }

  // ---- operations -----------------------------------------------------------------------------------

  /** If order o comes to rest, the window that takes in its price still covers the price of order c,
      unless c is on the other side. */
  ghost predicate StillCovered(b: BookState, o: OrderState, rests: bool, c: OrderId)
    requires c in b.orders
  {
    rests && b.orders[c].side == o.side ==>
      var st := b.SideOf(o.side);
      CoversAfter(st.base, BestOf(o.side, st.levels.Keys), o.price, b.orders[c].price)
  }

  lemma ExecuteStays(b: BookState, id: OrderId, respectPrice: bool, allowRest: bool, c: OrderId)
    requires MatchInv(b, id) && Live(b, c)
    ensures var b' := ExecuteMatch(b, id, respectPrice, allowRest);
      Live(b', c) <==> c in b'.orders && StillCovered(b, b.orders[id], id in b'.orders, c)
  {
    hide InvBut, MatchLoop, Rest, Live, CoversAfter, OrderState.Refresh, SideState.EnsureLevel;
    UnqueueKeepsStore(b, c);
    MatchLoopKeeps(b, id, respectPrice);
    MatchLoopStays(b, id, respectPrice, c);
    MatchLoopOwnSide(b, id, respectPrice);
    var m, o := MatchLoop(b, id, respectPrice), b.orders[id];
    StoredOrder(b, id);
    StoredOrder(m, id);
    WindowCovers(b, o.side, o.price);
    NotLiveUnlessStored(ExecuteMatch(b, id, respectPrice, allowRest), c);
    if c in m.orders {
      UnqueueKeepsStore(m, c);
      if allowRest && m.orders[id].Pending() > 0 {
        RestShape(m, id);
        RestStays(m, id, c);
      } else {
        StoredStays(m, Release(m, id), c);
      }
    } else {
      RestShape(m, id);
    }
  }

  lemma NotLiveUnlessStored(b: BookState, c: OrderId)
    ensures Live(b, c) ==> c in b.orders
  {
  }

  lemma ProcessStays(b: BookState, id: OrderId, c: OrderId)
    requires MatchInv(b, id) && Live(b, c)
    ensures var b' := ProcessOrder(b, id);
      Live(b', c) <==> c in b'.orders && StillCovered(b, b.orders[id], id in b'.orders, c)
  {
    hide InvBut, ExecuteMatch, Live, CoversAfter, FokLiquidity, OrderState.Refresh;
    UnqueueKeepsStore(b, c);
    StoredOrder(b, id);
    var o := b.orders[id];
    match o.kind {
      case LIMIT => ExecuteStays(b, id, true, true, c);
      case MARKET => ExecuteStays(b, id, false, false, c);
      case IOC => ExecuteStays(b, id, true, false, c);
      case FOK =>
        ExecuteStays(b, id, true, false, c);
        StoredStays(b, Release(b, id), c);
      case ICEBERG =>
        IcebergKeeps(b, id);
        StoredStays(b, b.WithOrder(o.HandleIceberg()), c);
        ExecuteStays(b.WithOrder(o.HandleIceberg()), id, true, true, c);
    }
  }

  /** If an order comes to rest in the operation, the window that takes it in still covers the price of
      order c, unless c is on the other side: told from base, best price and prices before. */
  ghost predicate Covered(b: BookState, op: Op, c: OrderId)
    requires c in b.orders
  {
    match op
    case Add(o) => StillCovered(b, o, ComesToRest(b, o), c)
    case Cancel(id) => true
    case Modify(id, price, qty) =>
      Reenters(b, id, price, qty) && ComesToRest(b, Resized(b.orders[id], price, qty)) ==>
        var s := b.orders[id].side;
        b.orders[c].side == s ==>
          CoversAfter(b.SideOf(s).base, BestOf(s, PricesWithout(b, s, id)), price, b.orders[c].price)
  }

  lemma AddStays(b: BookState, o: OrderState, c: OrderId)
    requires Inv(b) && Addable(b, o) && Live(b, c)
    ensures var b' := AddOrder(b, o);
      c in b.orders && (Live(b', c) <==> c in b'.orders && StillCovered(b, o, ComesToRest(b, o), c))
  {
    hide InvBut, ProcessOrder, Live, CoversAfter, ComesToRest;
    UnqueueKeepsStore(b, c);
    AddedIsStored(b, o);
    AddTrades(b, o);
    StoredStays(b, b.WithOrder(o), c);
    ProcessStays(b.WithOrder(o), o.id, c);
  }

  lemma CancelStays(b: BookState, id: OrderId, c: OrderId)
    requires Inv(b) && Live(b, c) && c != id
    ensures c in CancelOrder(b, id).0.orders && Live(CancelOrder(b, id).0, c)
  {
    hide InvBut, Unqueue, Live;
    UnqueueKeepsStore(b, c);
    if Live(b, id) {
      UnqueueKeepsStore(b, id);
      LiveFits(b, id);
      UnqueueShape(b, id);
      UnqueueOther(b, None, id, c);
      StoredStays(Unqueue(b, id), Release(Unqueue(b, id), id), c);
    } else if id in b.refs {
      StoredStays(b, CancelOrder(b, id).0, c);
    }
  }

  lemma ReenterStays(b: BookState, id: OrderId, price: Price, qty: Qty, c: OrderId)
    requires Inv(b) && Live(b, id) && Live(b, c) && c != id && id in b.orders && c in b.orders
    ensures var b' := ReenterBook(b, id, price, qty); var s := b.orders[id].side;
      var covered :=
        (qty >= b.orders[id].filled && ComesToRest(b, Resized(b.orders[id], price, qty)) ==>
          b.orders[c].side == s ==>
          CoversAfter(b.SideOf(s).base, BestOf(s, PricesWithout(b, s, id)), price, b.orders[c].price));
      Live(b', c) <==> c in b'.orders && covered
  {
    hide InvBut, Unqueue, ProcessOrder, Live, CoversAfter, ComesToRest, PricesWithout, OrderState.Refresh,
      OrderState.Restable;
    LiveFits(b, id);
    ReenteredIsStored(b, id, price, qty);
    UnqueueKeepsStore(b, id);
    UnqueueKeepsStore(b, c);
    UnqueueShape(b, id);
    UnqueueOther(b, None, id, c);
    LeftPrices(b, id);
    var left := Unqueue(b, id);
    var again := Reenter(b.orders[id], price, qty);
    if again.None? {
      StoredStays(left, left.(orders := Drop(left.orders, id)), c);
    } else {
      StoredStays(left, left.WithOrder(again.value), c);
      ReenterTrades(b, id, price, qty);
      ProcessStays(left.WithOrder(again.value), id, c);
    }
  }

  lemma ModifyStays(b: BookState, id: OrderId, price: Price, qty: Qty, c: OrderId)
    requires Inv(b) && Live(b, c) && c != id && c in b.orders
    ensures var b' := ModifyOrder(b, id, price, qty);
      Live(b', c) <==> c in b'.orders && Covered(b, Modify(id, price, qty), c)
  {
    hide InvBut, ReenterBook, ModifyInPlace, Live, CoversAfter, ComesToRest, PricesWithout,
      Reenter, OrderState.ModifyQty;
    UnqueueKeepsStore(b, c);
    if Live(b, id) {
      LiveFits(b, id);
    }
    if id in b.refs && b.refs[id].price in b.SideOf(b.refs[id].side).levels {
      IndexedOrder(b, id);
      var o := b.orders[id];
      if price == o.price && qty <= o.total {
        if o.ModifyQty(qty).Some? {
          InPlaceStays(b, id, o.ModifyQty(qty).value, c);
        }
      } else if Live(b, id) {
        ReenterStays(b, id, price, qty, c);
      }
    }
  }

  lemma InPlaceStays(b: BookState, id: OrderId, o: OrderState, c: OrderId)
    requires Live(b, c) && c != id
    requires id in b.refs && id in b.orders && b.refs[id].price in b.SideOf(b.refs[id].side).levels
    ensures c in ModifyInPlace(b, id, o).orders && Live(ModifyInPlace(b, id, o), c)
  {
    InPlaceShape(b, id, o);
    hide ModifyInPlace;
  }

  /** An operation on other orders leaves a live order live exactly when it does not fill it, so that it
      is still stored, and the window still covers its price. */
  lemma StaysLive(b: BookState, op: Op, c: OrderId)
    requires Inv(b) && Allowed(b, op) && Live(b, c) && Spares(op, c) && c in b.orders
    ensures Live(Apply(b, op), c) <==> c in Apply(b, op).orders && Covered(b, op, c)
  {
    hide InvBut, ProcessOrder, CancelOrder, ModifyOrder, Live, StillCovered, ComesToRest, Reenters;
    match op {
      case Add(o) => AddStays(b, o, c);
      case Cancel(id) => CancelStays(b, id, c);
      case Modify(id, price, qty) => ModifyStays(b, id, price, qty, c);
    }
  }
}
