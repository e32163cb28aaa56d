/**
  The operations of the book: the match loop, processing an order by its type, adding, cancelling
  and modifying, and whole runs of them.
 */
module BookOps {
  import opened Types
  import opened Orders
  import opened PriceLevels
  import opened BookSpec
  import opened BookInvariant

  // ---- the match loop -----------------------------------------------------------------------------

  /** After a fill the resting order is still where it was. */
  lemma FilledIsLive(b: BookState, id: OrderId)
    requires MatchInv(b, id) && BestPrice(b, Opposite(b.orders[id].side)).Some?
    ensures Head(b, id) in b.orders && Live(Fill(b, id), Head(b, id))
    ensures var o, h := b.orders[id], Head(b, id); var t := TradeQty(o, b.orders[h]); var f := Fill(b, id);
      && h != id && id in f.orders && id !in f.refs && id in b.orders
      && f.orders[id] == o.AddFill(t) && f.orders[h] == b.orders[h].AddFill(t)
  {
    HeadIsLive(b, id);
    FillShape(b, id);
    FillKeeps(b, id);
    var s := Opposite(b.orders[id].side);
    QueuedIsLive(Fill(b, id), Some(Head(b, id)), s, BestPrice(b, s).value, 0);
  }

  /** One round of the loop: a fill, and the resting order gives way if it shows nothing. */
  ghost function MatchStep(b: BookState, id: OrderId): BookState
    requires MatchInv(b, id) && BestPrice(b, Opposite(b.orders[id].side)).Some?
  {
    FilledIsLive(b, id);
    var f := Fill(b, id);
    var h := Head(b, id);
    if f.orders[h].Pending() == 0 then RemoveResting(f, h) else f
  }

  /** The resting order was filled to nothing: only an iceberg can have more in reserve. */
  lemma ExhaustedHead(head: OrderState, t: Qty)
    requires head.Restable() && t <= head.Pending() && head.AddFill(t).Pending() == 0
    ensures head.AddFill(t).HasDisplay() || head.AddFill(t).Remaining() == 0
  {
  }

  /** What taking a live order off and putting it back or dropping it does to the store. */
  lemma RemoveRestingStore(b: BookState, h: OrderId)
    requires InvBut(b, Some(h)) && Live(b, h)
    ensures var o := b.orders[h]; var b' := RemoveResting(b, h);
      && b'.orders == (if o.HasDisplay() && o.Remaining() > 0 then b.orders[h := o.Refresh()] else Drop(b.orders, h))
      && b'.trades == b.trades
      && (forall k :: k !in b.refs ==> k == h || k !in b'.refs)
  {
    hide InvBut, Unqueue, Rest, OrderState.Refresh;
    StoredFit(b, Some(h), h);
    UnqueueKeepsStore(b, h);
    UnqueueShape(b, h);
    var o := b.orders[h];
    if o.HasDisplay() && o.Remaining() > 0 {
      var b1 := Unqueue(b, h).(orders := b.orders[h := o.Refresh()]);
      RestShape(b1, h);
      RefreshExposes(o);
      assert b1.orders[h := o.Refresh()] == b1.orders;
    }
  }

  /** Each round keeps the invariant and comes closer to the end: either the incoming order has less
      left, or it has as much left and one order fewer is stored. */
  lemma MatchStepKeeps(b: BookState, id: OrderId)
    requires MatchInv(b, id) && BestPrice(b, Opposite(b.orders[id].side)).Some?
    requires b.orders[id].Pending() > 0
    ensures var b' := MatchStep(b, id); var t := TradeQty(b.orders[id], b.orders[Head(b, id)]);
      && MatchInv(b', id) && b'.orders[id] == b.orders[id].AddFill(t)
      && b'.orders[id].Pending() == b.orders[id].Pending() - t
      && (t == 0 ==> |b'.orders| < |b.orders|)
  {
    hide Fill, Head, BestPrice, RemoveResting, Live, InvBut, EntryOk, OrderState.AddFill, OrderState.Restable,
      OrderState.Refresh;
    FilledIsLive(b, id);
    FillKeeps(b, id);
    HeadIsLive(b, id);
    FillShape(b, id);
    var f, h := Fill(b, id), Head(b, id);
    var o, head := b.orders[id], b.orders[h];
    var t := TradeQty(o, head);
    StoredOrder(b, id);
    HeadFits(b, id);
    FilledOrder(o, t);
    FilledOrder(head, t);
    if f.orders[h].Pending() == 0 {
      ExhaustedHead(head, t);
      RemoveRestingKeeps(f, h);
      RemoveRestingStore(f, h);
      if t == 0 {
        assert f.orders.Keys == b.orders.Keys;
        assert Drop(f.orders, h).Keys == b.orders.Keys - {h};
      }
    } else {
      SettledAgain(f, h);
    }
  }

  lemma HeadFits(b: BookState, id: OrderId)
    requires MatchInv(b, id) && BestPrice(b, Opposite(b.orders[id].side)).Some?
    ensures Head(b, id) in b.orders
    ensures var head := b.orders[Head(b, id)]; head.Restable() && head.Settled() && head.Sane()
  {
    HeadIsLive(b, id);
  }

  lemma SettledAgain(b: BookState, h: OrderId)
    requires InvBut(b, Some(h)) && h in b.orders && b.orders[h].Settled()
    ensures Inv(b)
  {
    forall s, p | s != INVALID && p in b.SideOf(s).levels
      ensures LevelOk(s, p, b.SideOf(s).levels[p], b, None)
    {
      var level := b.SideOf(s).levels[p];
      assert LevelOk(s, p, level, b, Some(h));
      forall i | 0 <= i < |level.queue|
        ensures EntryOk(s, p, level.queue[i], b, None)
      {
        assert EntryOk(s, p, level.queue[i], b, Some(h));
      }
    }
    assert b.SideOf(BUY) == b.bids && b.SideOf(SELL) == b.asks;
  }

  /** The while loop of executeMatch. */
  ghost function MatchLoop(b: BookState, id: OrderId, respectPrice: bool): BookState
    requires MatchInv(b, id)
    decreases b.orders[id].Pending(), |b.orders|
  {
    if CanMatch(b, id, respectPrice) then
      MatchStepKeeps(b, id);
      MatchLoop(MatchStep(b, id), id, respectPrice)
    else b
  }

  /** The loop keeps the invariant and stops only when the order is filled or nothing is in reach. */
  lemma {:induction false} MatchLoopKeeps(b: BookState, id: OrderId, respectPrice: bool)
    requires MatchInv(b, id)
    ensures MatchInv(MatchLoop(b, id, respectPrice), id)
    ensures !CanMatch(MatchLoop(b, id, respectPrice), id, respectPrice)
    ensures var o, o' := b.orders[id], MatchLoop(b, id, respectPrice).orders[id];
      o' == o.(filled := o'.filled) && o.filled <= o'.filled <= o'.working
    decreases b.orders[id].Pending(), |b.orders|
  {
    if CanMatch(b, id, respectPrice) {
      MatchStepKeeps(b, id);
      FilledOrder(b.orders[id], TradeQty(b.orders[id], b.orders[Head(b, id)]));
      MatchLoopKeeps(MatchStep(b, id), id, respectPrice);
    }
  }

  /** b' has the same orders on side s as b. */
  ghost predicate SameOnSide(b: BookState, b': BookState, s: Side) {
    && b'.SideOf(s) == b.SideOf(s)
    && forall c :: c in b.refs && b.refs[c].side == s ==>
         c in b'.refs && b'.refs[c] == b.refs[c] && c in b.orders && c in b'.orders && b'.orders[c] == b.orders[c]
  }

  lemma MatchStepOwnSide(b: BookState, id: OrderId)
    requires MatchInv(b, id) && BestPrice(b, Opposite(b.orders[id].side)).Some?
    ensures SameOnSide(b, MatchStep(b, id), b.orders[id].side)
  {
    hide Inv, InvBut, Fill, Unqueue, Rest, Live, Head, BestPrice, OrderState.Refresh, OrderState.AddFill;
    IndexedStored(b);
    HeadIsLive(b, id);
    FillShape(b, id);
    FilledIsLive(b, id);
    FillKeeps(b, id);
    var f, h := Fill(b, id), Head(b, id);
    if f.orders[h].Pending() == 0 {
      StoredFit(f, Some(h), h);
      UnqueueShape(f, h);
      RefreshSame(f.orders[h]);
      RestShape(Unqueue(f, h).(orders := f.orders[h := f.orders[h].Refresh()]), h);
    }
  }

  lemma RefreshSame(o: OrderState)
    ensures o.Refresh().side == o.side && o.Refresh().price == o.price && o.Refresh().id == o.id
  {
  }

  /** Matching does not touch the incoming order's own side. */
  lemma {:induction false} MatchLoopOwnSide(b: BookState, id: OrderId, respectPrice: bool)
    requires MatchInv(b, id)
    ensures SameOnSide(b, MatchLoop(b, id, respectPrice), b.orders[id].side)
    decreases b.orders[id].Pending(), |b.orders|
  {
    hide Inv, MatchStep, BestPrice;
    if CanMatch(b, id, respectPrice) {
      MatchStepKeeps(b, id);
      MatchStepOwnSide(b, id);
      MatchLoopOwnSide(MatchStep(b, id), id, respectPrice);
    } else {
      IndexedStored(b);
    }
  }

  // ---- processing an order ------------------------------------------------------------------------

  ghost function ExecuteMatch(b: BookState, id: OrderId, respectPrice: bool, allowRest: bool): BookState
    requires MatchInv(b, id)
  {
    MatchLoopKeeps(b, id, respectPrice);
    var m := MatchLoop(b, id, respectPrice);
    if allowRest && m.orders[id].Pending() > 0 then Rest(m, id) else Release(m, id)
  }

  ghost predicate FokLiquidity(b: BookState, o: OrderState) {
    Liquidity(b, o.side, o.price) >= o.Pending()
  }

  ghost function ProcessOrder(b: BookState, id: OrderId): BookState
    requires MatchInv(b, id)
  {
    var o := b.orders[id];
    match o.kind
    case LIMIT => ExecuteMatch(b, id, true, true)
    case MARKET => ExecuteMatch(b, id, false, false)
    case IOC => ExecuteMatch(b, id, true, false)
    case FOK => if FokLiquidity(b, o) then ExecuteMatch(b, id, true, false) else Release(b, id)
    case ICEBERG =>
      IcebergKeeps(b, id);
      ExecuteMatch(b.WithOrder(o.HandleIceberg()), id, true, true)
  }

  /** Preparing an iceberg: a given display quantity stays and a missing one becomes all that remains; then
      the order shows one clip. */
  lemma IcebergKeeps(b: BookState, id: OrderId)
    requires MatchInv(b, id) && b.orders[id].kind == ICEBERG
    ensures var o0 := b.orders[id]; var o := o0.HandleIceberg();
      && o.id == id && MatchInv(b.WithOrder(o), id)
      && o.kind == ICEBERG && (o.display > 0 || o.Pending() == 0)
      && o0.Sane() && o == Rested(o0, 0)
      && o.display == (if o0.display > 0 then o0.display else o0.total - o0.filled)
      && o.Pending() == Min(o.display, o.Remaining()) && o.Remaining() == b.orders[id].Remaining()
  {
    var o := b.orders[id].HandleIceberg();
    assert b.orders[id].Sane();
    PreparedIs(b.orders[id]);
    RefreshExposes(if b.orders[id].HasDisplay() then b.orders[id]
      else b.orders[id].(display := b.orders[id].Remaining()));
    SetOrderKeeps(b, None, o);
  }

  /** When the loop stops with something left, no opposite level is in reach. */
  lemma StoppedIsClear(b: BookState, id: OrderId)
    requires MatchInv(b, id) && !CanMatch(b, id, true) && b.orders[id].Pending() > 0
    ensures Clear(b, b.orders[id])
  {
    var o := b.orders[id];
    var s := Opposite(o.side);
    forall q | q in b.SideOf(s).levels
      ensures !Crosses(o.side, o.price, q)
    {
      assert LevelOk(s, q, b.SideOf(s).levels[q], b, None);
      assert q in b.SideOf(s).NonEmpty();
    }
  }

  lemma ExecuteMatchKeeps(b: BookState, id: OrderId, respectPrice: bool, allowRest: bool)
    requires MatchInv(b, id)
    requires allowRest && b.orders[id].Pending() > 0 ==> respectPrice && MayRest(b.orders[id])
    ensures Inv(ExecuteMatch(b, id, respectPrice, allowRest))
  {
    MatchLoopKeeps(b, id, respectPrice);
    var m := MatchLoop(b, id, respectPrice);
    if allowRest && m.orders[id].Pending() > 0 {
      StoppedIsClear(m, id);
      RestKeeps(m, id);
    } else {
      ReleaseKeeps(m, id);
    }
  }

  lemma ProcessOrderKeeps(b: BookState, id: OrderId)
    requires MatchInv(b, id)
    ensures Inv(ProcessOrder(b, id))
  {
    var o := b.orders[id];
    match o.kind {
      case LIMIT => ExecuteMatchKeeps(b, id, true, true);
      case MARKET => ExecuteMatchKeeps(b, id, false, false);
      case IOC => ExecuteMatchKeeps(b, id, true, false);
      case FOK =>
        if FokLiquidity(b, o) {
          ExecuteMatchKeeps(b, id, true, false);
        } else {
          ReleaseKeeps(b, id);
        }
      case ICEBERG =>
        IcebergKeeps(b, id);
        ExecuteMatchKeeps(b.WithOrder(o.HandleIceberg()), id, true, true);
    }
  }

  // ---- the public operations ----------------------------------------------------------------------

  ghost predicate Addable(b: BookState, o: OrderState) {
    AsBuilt(o) && o.id !in b.orders
  }

  lemma AddedIsStored(b: BookState, o: OrderState)
    requires Inv(b) && Addable(b, o)
    ensures MatchInv(b.WithOrder(o), o.id)
  {
    assert o.id !in b.refs;
    SetOrderKeeps(b, None, o);
  }

  ghost function AddOrder(b: BookState, o: OrderState): BookState
    requires Inv(b) && Addable(b, o)
  {
    AddedIsStored(b, o);
    ProcessOrder(b.WithOrder(o), o.id)
  }

  ghost function CancelOrder(b: BookState, id: OrderId): (BookState, bool) {
    if id !in b.refs then (b, false)
    else if Live(b, id) then (Release(Unqueue(b, id), id), true)
    else (b.(refs := Drop(b.refs, id)), false)
  }

  /** The order keeps its place; its level's depth follows the order down but not up. */
  function ModifyInPlace(b: BookState, id: OrderId, o: OrderState): BookState
    requires id in b.refs && id in b.orders && b.refs[id].price in b.SideOf(b.refs[id].side).levels
  {
    var ref := b.refs[id];
    var st := b.SideOf(ref.side);
    var level := st.levels[ref.price];
    var before, after := b.orders[id].Pending(), o.Pending();
    var depth := if after < before then SaturatingSub(level.openQty, before - after) else level.openQty;
    b.WithSide(ref.side, st.(levels := st.levels[ref.price := level.(openQty := depth)])).(
      orders := b.orders[id := o])
  }

  /** The order goes back through matching with its new price and quantity. */
  function Reenter(o: OrderState, newPrice: Price, newQty: Qty): Option<OrderState> {
    var modified := o.ModifyQty(newQty);
    if modified.None? then None else Some(modified.value.(price := newPrice).Refresh())
  }

  /** An order with a quantity that is not below what is filled enters again with its new price and
      quantity and is otherwise as it was. */
  lemma ReenteredIs(o: OrderState, newPrice: Price, newQty: Qty)
    ensures Reenter(o, newPrice, newQty) ==
      if newQty < o.filled then None else Some(Resized(o, newPrice, newQty))
  {
    ModifiedIs(o, newQty);
  }

  lemma ReenteredIsStored(b: BookState, id: OrderId, newPrice: Price, newQty: Qty)
    requires Inv(b) && Live(b, id)
    ensures Inv(Unqueue(b, id)) && id !in Unqueue(b, id).refs
    ensures var o := Reenter(b.orders[id], newPrice, newQty);
      o.Some? ==> o.value.id == id && MatchInv(Unqueue(b, id).WithOrder(o.value), id)
  {
    UnqueueKeeps(b, None, id);
    var o := b.orders[id];
    var k := LivePlace(b, None, id);
    UnqueueShape(b, id);
    if newQty >= o.filled {
      RefreshExposes(o.(total := newQty));
      RefreshExposes(o.(total := newQty).Refresh().(price := newPrice));
      SetOrderKeeps(Unqueue(b, id), None, Reenter(o, newPrice, newQty).value);
    }
  }

  /** A live order leaves the book and is processed anew; if its quantity is refused it is gone. */
  ghost function ReenterBook(b: BookState, id: OrderId, newPrice: Price, newQty: Qty): BookState
    requires Inv(b) && Live(b, id)
  {
    ReenteredIsStored(b, id, newPrice, newQty);
    var again := Reenter(b.orders[id], newPrice, newQty);
    var left := Unqueue(b, id);
    if again.None? then left.(orders := Drop(left.orders, id))
    else ProcessOrder(left.WithOrder(again.value), id)
  }

  ghost function ModifyOrder(b: BookState, id: OrderId, newPrice: Price, newQty: Qty): BookState
    requires Inv(b)
  {
    if id !in b.refs then b
    else
      assert b.refs[id] == b.refs[id];
      var ref, o := b.refs[id], b.orders[id];
      if ref.price !in b.SideOf(ref.side).levels then b
      else if newPrice == o.price && newQty <= o.total then
        var modified := o.ModifyQty(newQty);
        if modified.None? then b else ModifyInPlace(b, id, modified.value)
      else if !Live(b, id) then b
      else ReenterBook(b, id, newPrice, newQty)
  }

  lemma AddOrderKeeps(b: BookState, o: OrderState)
    requires Inv(b) && Addable(b, o)
    ensures Inv(AddOrder(b, o))
  {
    AddedIsStored(b, o);
    ProcessOrderKeeps(b.WithOrder(o), o.id);
  }

  lemma CancelOrderKeeps(b: BookState, id: OrderId)
    requires Inv(b)
    ensures Inv(CancelOrder(b, id).0)
  {
    if id in b.refs {
      if Live(b, id) {
        UnqueueKeeps(b, None, id);
        ReleaseKeeps(Unqueue(b, id), id);
      } else {
        ForgetKeeps(b, id);
      }
    }
  }

  /** An index entry of an order that is on no queue may be cleared. */
  lemma ForgetKeeps(b: BookState, id: OrderId)
    requires Inv(b) && id in b.refs && !Live(b, id)
    ensures Inv(b.(refs := Drop(b.refs, id)))
  {
    var b' := b.(refs := Drop(b.refs, id));
    assert RefsOk(b');
    forall s, p | s != INVALID && p in b.SideOf(s).levels
      ensures LevelOk(s, p, b.SideOf(s).levels[p], b', None)
    {
      NotInQueue(b, id, s, p);
      assert LevelOk(s, p, b.SideOf(s).levels[p], b, None);
      hide LevelOk;
      LevelFrame(s, p, b.SideOf(s).levels[p], b, None, b', None);
    }
    hide LevelOk;
    assert b.SideOf(BUY) == b.bids && b.SideOf(SELL) == b.asks;
  }

  lemma NotInQueue(b: BookState, id: OrderId, s: Side, p: Price)
    requires Inv(b) && s != INVALID && p in b.SideOf(s).levels
    requires !Live(b, id) || b.refs[id].side != s || b.refs[id].price != p
    ensures forall i :: 0 <= i < |b.SideOf(s).levels[p].queue| ==> b.SideOf(s).levels[p].queue[i].id != id
  {
    forall i | 0 <= i < |b.SideOf(s).levels[p].queue|
      ensures b.SideOf(s).levels[p].queue[i].id != id
    {
      QueuedIsLive(b, None, s, p, i);
    }
  }

  /** The sum over a queue when one of its orders, or none, is replaced. */
  lemma SumQueueReplace(q: seq<Entry>, orders: map<OrderId, OrderState>, o: OrderState, m: Measure)
    requires forall i :: 0 <= i < |q| ==> q[i].id in orders
    requires forall i, j :: 0 <= i < j < |q| ==> q[i].id != q[j].id
    requires o.id in orders
    ensures SumQueue(q, orders[o.id := o], m) == SumQueue(q, orders, m) +
      if exists k :: 0 <= k < |q| && q[k].id == o.id then Amount(m, o) - Amount(m, orders[o.id]) else 0
  {
    if k :| 0 <= k < |q| && q[k].id == o.id {
      var r := q[..k] + q[k + 1..];
      SumQueueCut(q, k, orders, m);
      SumQueueCut(q, k, orders[o.id := o], m);
      SumQueueFrame(r, orders, orders[o.id := o], m);
    } else {
      SumQueueFrame(q, orders, orders[o.id := o], m);
    }
  }

  /** Modifying in place changes the order and a depth, and no queue. */
  lemma InPlaceShape(b: BookState, id: OrderId, o: OrderState)
    requires id in b.refs && id in b.orders && b.refs[id].price in b.SideOf(b.refs[id].side).levels
    ensures var b' := ModifyInPlace(b, id, o);
      && b'.orders == b.orders[id := o] && b'.refs == b.refs && b'.trades == b.trades
      && b'.bids.base == b.bids.base && b'.asks.base == b.asks.base
      && forall s, p :: b'.Queue(s, p) == b.Queue(s, p)
    ensures var b' := ModifyInPlace(b, id, o); var ref := b.refs[id]; var level := b.SideOf(ref.side).levels[ref.price];
      var before, after := b.orders[id].Pending(), o.Pending();
      var depth := if after < before then SaturatingSub(level.openQty, before - after) else level.openQty;
      && (ref.side != INVALID ==> b'.SideOf(Opposite(ref.side)) == b.SideOf(Opposite(ref.side)))
      && b'.SideOf(ref.side) == b.SideOf(ref.side).SetLevel(ref.price, level.(openQty := depth))
  {
  }

  lemma ShrunkFit(o: OrderState, newQty: Qty)
    requires o.Sane() && o.filled <= newQty <= o.total
    ensures var o' := o.ModifyQty(newQty).value;
      && o'.Sane() && o'.id == o.id && o'.side == o.side && o'.price == o.price
      && (o.Restable() ==> o'.Restable() && o'.Settled())
  {
    RefreshExposes(o.(total := newQty));
  }

  lemma ModifyInPlaceKeeps(b: BookState, id: OrderId, newQty: Qty)
    requires Inv(b) && id in b.refs && id in b.orders && b.refs[id].price in b.SideOf(b.refs[id].side).levels
    requires b.orders[id].filled <= newQty <= b.orders[id].total
    ensures Inv(ModifyInPlace(b, id, b.orders[id].ModifyQty(newQty).value))
  {
    hide Inv, InvBut, LevelOk, ModifyInPlace, OrderState.Refresh, OrderState.Restable;
    IndexedOrder(b, id);
    var o, o' := b.orders[id], b.orders[id].ModifyQty(newQty).value;
    var b' := ModifyInPlace(b, id, o');
    ShrunkFit(o, newQty);
    InPlaceShape(b, id, o');
    LevelAt(b, o.side, o.price);
    OnlyOnce(b, o.side, o.price);
    assert b.Queue(o.side, o.price) == b.SideOf(o.side).levels[o.price].queue;
    ShrunkLevelOk(o.side, o.price, b.SideOf(o.side).levels[o.price], b, o', b');
    ShrunkBookOk(b, o', b');
  }

  lemma NotInQueueFrame(b: BookState, id: OrderId, s: Side, p: Price, b': BookState)
    requires Inv(b) && id in b.refs && b.refs[id].price != p
    requires s != INVALID && p in b.SideOf(s).levels && LevelOk(s, p, b.SideOf(s).levels[p], b, None)
    requires b'.refs == b.refs && forall k :: k in b.orders && k != id ==> k in b'.orders && b'.orders[k] == b.orders[k]
    ensures LevelOk(s, p, b.SideOf(s).levels[p], b', None)
  {
    NotInQueue(b, id, s, p);
    var level := b.SideOf(s).levels[p];
    assert forall i :: 0 <= i < |level.queue| ==> EntryOk(s, p, level.queue[i], b, None);
    LevelFrame(s, p, level, b, None, b', None);
  }

  /** A book that differs from a right one by the depth of a level and an order at its price. */
  lemma ShrunkBookOk(b: BookState, o': OrderState, b': BookState)
    requires Inv(b) && o'.id in b.orders && o'.id in b.refs && o'.Sane()
    requires o'.side == b.orders[o'.id].side && o'.price == b.orders[o'.id].price && o'.side != INVALID
    requires b'.orders == b.orders[o'.id := o'] && b'.refs == b.refs
    requires b'.SideOf(Opposite(o'.side)) == b.SideOf(Opposite(o'.side))
    requires o'.price in b.SideOf(o'.side).levels && o'.price in b'.SideOf(o'.side).levels
    requires b'.SideOf(o'.side) == b.SideOf(o'.side).SetLevel(o'.price, b'.SideOf(o'.side).levels[o'.price])
    requires LevelOk(o'.side, o'.price, b'.SideOf(o'.side).levels[o'.price], b', None)
    ensures Inv(b')
  {
    hide LevelOk;
    assert OrdersOk(b') && RefsOk(b') && Uncrossed(b');
    var s, id := o'.side, o'.id;
    var st, st' := b.SideOf(s), b'.SideOf(s);
    forall r | r in st'.levels
      ensures LevelOk(s, r, st'.levels[r], b', None)
    {
      if r != o'.price {
        assert LevelOk(s, r, st.levels[r], b, None);
        NotInQueueFrame(b, id, s, r, b');
      }
    }
    assert SideOk(s, st', b', None);
    SideFrame(Opposite(s), b.SideOf(Opposite(s)), b, None, b', None);
  }

  /** The level of an order modified in place. */
  lemma ShrunkLevelOk(s: Side, p: Price, level: LevelState, b: BookState, o': OrderState, b': BookState)
    requires LevelOk(s, p, level, b, None) && o'.id in b.orders
    requires forall i, j :: 0 <= i < j < |level.queue| ==> level.queue[i].id != level.queue[j].id
    requires b'.orders == b.orders[o'.id := o'] && b'.refs == b.refs
    requires b.orders[o'.id].Restable() ==> o'.Restable() && o'.Settled()
    requires o'.side == b.orders[o'.id].side && o'.price == b.orders[o'.id].price
    ensures var before, after := b.orders[o'.id].Pending(), o'.Pending();
      var depth := if after < before then SaturatingSub(level.openQty, before - after) else level.openQty;
      LevelOk(s, p, level.(openQty := depth), b', None)
  {
    assert forall i :: 0 <= i < |level.queue| ==> EntryOk(s, p, level.queue[i], b, None);
    SumQueueReplace(level.queue, b.orders, o', Shown);
    hide SumQueue;
    assert forall depth :: level.(openQty := depth).WellFormed() == level.WellFormed();
    hide LevelState.WellFormed;
    forall i | 0 <= i < |level.queue|
      ensures EntryOk(s, p, level.queue[i], b', None)
    {
      assert EntryOk(s, p, level.queue[i], b, None);
    }
  }

  lemma ModifyOrderKeeps(b: BookState, id: OrderId, newPrice: Price, newQty: Qty)
    requires Inv(b)
    ensures Inv(ModifyOrder(b, id, newPrice, newQty))
  {
    if id in b.refs && b.refs[id].price in b.SideOf(b.refs[id].side).levels {
      var o := b.orders[id];
      if newPrice == o.price && newQty <= o.total {
        if newQty >= o.filled {
          ModifyInPlaceKeeps(b, id, newQty);
        }
      } else if Live(b, id) {
        ReenteredIsStored(b, id, newPrice, newQty);
        var again := Reenter(o, newPrice, newQty);
        if again.None? {
          ReleaseKeeps(Unqueue(b, id), id);
          assert Release(Unqueue(b, id), id) == ReenterBook(b, id, newPrice, newQty);
        } else {
          ProcessOrderKeeps(Unqueue(b, id).WithOrder(again.value), id);
        }
      }
    }
  }

  // ---- what becomes of the order itself -----------------------------------------------------------

  /** What an executed order is if it is still stored: the order that came, less what it traded. */
  lemma ExecutedIs(b: BookState, id: OrderId, respectPrice: bool, allowRest: bool)
    requires MatchInv(b, id)
    ensures var o, b' := b.orders[id], ExecuteMatch(b, id, respectPrice, allowRest);
      id in b'.orders ==>
        && allowRest && o.filled <= b'.orders[id].filled <= o.total
        && b'.orders[id] == o.(filled := b'.orders[id].filled).Refresh()
  {
    hide Inv, MatchLoop, Rest, OrderState.Refresh;
    MatchLoopKeeps(b, id, respectPrice);
    var m := MatchLoop(b, id, respectPrice);
    StoredOrder(m, id);
    RestShape(m, id);
  }

  lemma ProcessedIs(b: BookState, id: OrderId)
    requires MatchInv(b, id)
    ensures var o, b' := b.orders[id], ProcessOrder(b, id);
      id in b'.orders ==>
        && o.filled <= b'.orders[id].filled <= o.total
        && b'.orders[id] == Rested(o, b'.orders[id].filled - o.filled)
  {
    hide Inv, ExecuteMatch, FokLiquidity, OrderState.Refresh, OrderState.HandleIceberg, Rested;
    var o, b' := b.orders[id], ProcessOrder(b, id);
    StoredOrder(b, id);
    match o.kind {
      case LIMIT => ExecutedIs(b, id, true, true);
      case MARKET => ExecutedIs(b, id, false, false);
      case IOC => ExecutedIs(b, id, true, false);
      case FOK => ExecutedIs(b, id, true, false);
      case ICEBERG =>
        IcebergKeeps(b, id);
        PreparedSame(o);
        ExecutedIs(b.WithOrder(o.HandleIceberg()), id, true, true);
    }
    if id in b'.orders && o.filled <= b'.orders[id].filled <= o.total {
      RestedIs(o, b'.orders[id].filled - o.filled);
    }
  }

  lemma PreparedSame(o: OrderState)
    ensures o.HandleIceberg().filled == o.filled && o.HandleIceberg().total == o.total
  {
  }

  /** A live order that is modified to a quantity not below what is filled, and is still stored then, has
      the new price and quantity.  It shows one clip of what is left if it is an iceberg, and all that is
      left otherwise. */
  lemma ModifiedOrder(b: BookState, id: OrderId, price: Price, qty: Qty)
    requires Inv(b) && Live(b, id) && qty >= b.orders[id].filled
    ensures var o, b' := b.orders[id], ModifyOrder(b, id, price, qty);
      id in b'.orders ==>
        var o' := b'.orders[id]; var left := qty - o'.filled;
        && o'.price == price && o'.total == qty && o.filled <= o'.filled <= qty
        && o'.working == o'.filled + (if o.kind == ICEBERG then Min(o.display, left) else left)
        && o'.id == id && o'.instrument == o.instrument && o'.side == o.side
        && o'.display == o.display && o'.kind == o.kind
  {
    hide InvBut, Unqueue, ModifyInPlace, ProcessOrder, Live, OrderState.Refresh;
    var k := LivePlace(b, None, id);
    IndexedOrder(b, id);
    LiveKind(b, id);
    var o := b.orders[id];
    if price == o.price && qty <= o.total {
      ModifiedIs(o, qty);
      InPlaceShape(b, id, Resized(o, price, qty));
    } else {
      ReenteredIs(o, price, qty);
      ReenteredIsStored(b, id, price, qty);
      ProcessedIs(Unqueue(b, id).WithOrder(Resized(o, price, qty)), id);
    }
  }

  lemma LiveKind(b: BookState, id: OrderId)
    requires Inv(b) && Live(b, id)
    ensures var o := b.orders[id]; o.kind == LIMIT || (o.kind == ICEBERG && o.display > 0)
  {
    var k := LivePlace(b, None, id);
  }

  // ---- runs ---------------------------------------------------------------------------------------

  datatype Op =
    | Add(order: OrderState)
    | Cancel(id: OrderId)
    | Modify(id: OrderId, price: Price, qty: Qty)

  /** New orders come as built and under an id that is not in use. */
  ghost predicate Allowed(b: BookState, op: Op) {
    op.Add? ==> Addable(b, op.order)
  }

  ghost function Apply(b: BookState, op: Op): BookState
    requires Inv(b) && Allowed(b, op)
  {
    match op
    case Add(o) => AddOrder(b, o)
    case Cancel(id) => CancelOrder(b, id).0
    case Modify(id, price, qty) => ModifyOrder(b, id, price, qty)
  }

  lemma ApplyKeeps(b: BookState, op: Op)
    requires Inv(b) && Allowed(b, op)
    ensures Inv(Apply(b, op))
  {
    match op {
      case Add(o) => AddOrderKeeps(b, o);
      case Cancel(id) => CancelOrderKeeps(b, id);
      case Modify(id, price, qty) => ModifyOrderKeeps(b, id, price, qty);
    }
  }

  /** b' is the book after the operations, each of them allowed when it came, starting from b. */
  ghost predicate Runs(b: BookState, ops: seq<Op>, b': BookState)
    requires Inv(b)
    decreases |ops|
  {
    if ops == [] then b' == b
    else Allowed(b, ops[0]) && (ApplyKeeps(b, ops[0]); Runs(Apply(b, ops[0]), ops[1..], b'))
  }

  /** The book after any run from the empty book. */
  ghost predicate Reachable(b: BookState) {
    EmptyBookOk();
    exists ops :: Runs(EMPTY_BOOK, ops, b)
  }

  lemma {:induction false} RunKeeps(b: BookState, ops: seq<Op>, b': BookState)
    requires Inv(b) && Runs(b, ops, b')
    ensures Inv(b')
    decreases |ops|
  {
    if ops != [] {
      ApplyKeeps(b, ops[0]);
      hide Inv, Apply;
      RunKeeps(Apply(b, ops[0]), ops[1..], b');
    }
  }

  /** One more operation at the end of a run. */
  lemma {:induction false} RunThen(b: BookState, ops: seq<Op>, b': BookState, op: Op)
    requires Inv(b) && Runs(b, ops, b') && Inv(b') && Allowed(b', op)
    ensures Runs(b, ops + [op], Apply(b', op))
    decreases |ops|
  {
    hide Inv, Apply, Allowed;
    if ops == [] {
      assert ops + [op] == [op];
      ApplyKeeps(b, op);
      assert Runs(Apply(b, op), [op][1..], Apply(b, op));
    } else {
      ApplyKeeps(b, ops[0]);
      RunThen(Apply(b, ops[0]), ops[1..], b', op);
      assert (ops + [op])[1..] == ops[1..] + [op];
    }
  }

  /** An allowed operation leads from a reachable book to a reachable book: so a book object that
      starts empty and is only used through its operations is always reachable. */
  lemma ReachableStep(b: BookState, op: Op)
    requires Reachable(b) && Inv(b) && Allowed(b, op)
    ensures Reachable(Apply(b, op))
  {
    hide Inv, Apply, Allowed;
    EmptyBookOk();
    var ops :| Runs(EMPTY_BOOK, ops, b);
    RunThen(EMPTY_BOOK, ops, b, op);
  }

  /** In every reachable state queues, index and store agree, and the book is not crossed. */
  lemma ReachableIsOk(b: BookState)
    requires Reachable(b)
    ensures Inv(b)
  {
    EmptyBookOk();
    var ops :| Runs(EMPTY_BOOK, ops, b);
    RunKeeps(EMPTY_BOOK, ops, b);
  }
}
