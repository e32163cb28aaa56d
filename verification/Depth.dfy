/**
  The running depth of a level.  It never exceeds what the orders of the level show (part of the
  invariant); here is when the two are equal, and which operations on a book with exact depths leave one
  that is too small.
 */
module Depths {
  import opened Types
  import opened Orders
  import opened PriceLevels
  import opened PriceWindows
  import opened BookSpec
  import opened BookInvariant
  import opened BookOps
  import opened Simulation
  import opened Clips

  /** The depth of a level, if there is one, is what its orders show. */
  ghost predicate ExactAt(b: BookState, s: Side, p: Price) {
    p in b.SideOf(s).levels ==> b.SideOf(s).levels[p].openQty == SumQueue(b.Queue(s, p), b.orders, Shown)
  }

  ghost predicate Exact(b: BookState) {
    forall s, p {:trigger ExactAt(b, s, p)} :: s != INVALID ==> ExactAt(b, s, p)
  }

  /** The depth at a price, and what its orders show. */
  ghost function DepthAt(b: BookState, s: Side, p: Price): Qty {
    if p in b.SideOf(s).levels then b.SideOf(s).levels[p].openQty else 0
  }

  ghost function ShownAt(b: BookState, s: Side, p: Price): nat {
    SumQueue(b.Queue(s, p), b.orders, Shown)
  }

  lemma ExactMeans(b: BookState, s: Side, p: Price)
    ensures ExactAt(b, s, p) <==> DepthAt(b, s, p) == ShownAt(b, s, p)
  {
  }

  lemma {:induction false} ShownIsLess(q: seq<Entry>, orders: map<OrderId, OrderState>)
    requires forall i :: 0 <= i < |q| ==> q[i].id in orders && orders[q[i].id].Restable()
    ensures SumQueue(q, orders, Shown) <= SumQueue(q, orders, FullClip) <= SumQueue(q, orders, Whole)
  {
    if q != [] {
      assert q[0].id in orders;
      ShownIsLess(q[1..], orders);
    }
  }

  lemma ShownIsLessAt(b: BookState, x: Option<OrderId>, s: Side, p: Price)
    requires InvBut(b, x) && s != INVALID
    ensures SumQueue(b.Queue(s, p), b.orders, Shown) <= SumQueue(b.Queue(s, p), b.orders, FullClip)
    ensures SumQueue(b.Queue(s, p), b.orders, FullClip) <= SumQueue(b.Queue(s, p), b.orders, Whole)
  {
    forall i | 0 <= i < |b.Queue(s, p)|
      ensures b.Queue(s, p)[i].id in b.orders && b.orders[b.Queue(s, p)[i].id].Restable()
    {
      QueuedIsLive(b, x, s, p, i);
    }
    ShownIsLess(b.Queue(s, p), b.orders);
  }

  // ---- frames ---------------------------------------------------------------------------------------

  /** A queue whose orders are what they were has the sums it had. */
  lemma SameSums(b: BookState, x: Option<OrderId>, b': BookState, s: Side, p: Price)
    requires InvBut(b, x) && s != INVALID
    requires b'.Queue(s, p) == b.Queue(s, p)
    requires forall c :: c in b.refs && b.refs[c].side == s && b.refs[c].price == p ==>
      c in b.orders && c in b'.orders && b'.orders[c] == b.orders[c]
    ensures forall m :: SumQueue(b'.Queue(s, p), b'.orders, m) == SumQueue(b.Queue(s, p), b.orders, m)
  {
    forall i | 0 <= i < |b.Queue(s, p)|
      ensures var c := b.Queue(s, p)[i].id; c in b.orders && c in b'.orders && b'.orders[c] == b.orders[c]
    {
      QueuedIsLive(b, x, s, p, i);
    }
    forall m: Measure
      ensures SumQueue(b'.Queue(s, p), b'.orders, m) == SumQueue(b.Queue(s, p), b.orders, m)
    {
      SumQueueFrame(b.Queue(s, p), b.orders, b'.orders, m);
    }
  }

  /** A level that is what it was, or gone, is as exact as it was. */
  lemma OtherAt(b: BookState, x: Option<OrderId>, b': BookState, s: Side, p: Price)
    requires InvBut(b, x) && s != INVALID
    requires p in b'.SideOf(s).levels ==> p in b.SideOf(s).levels && b'.SideOf(s).levels[p] == b.SideOf(s).levels[p]
    requires forall c :: c in b.refs && b.refs[c].side == s && b.refs[c].price == p ==>
      c in b.orders && c in b'.orders && b'.orders[c] == b.orders[c]
    ensures ExactAt(b, s, p) ==> ExactAt(b', s, p)
  {
    if p in b'.SideOf(s).levels {
      SameSums(b, x, b', s, p);
    } else {
      assert b'.Queue(s, p) == [];
    }
  }

  /** A side whose levels and orders are what they were is as exact as it was. */
  lemma SameAt(b: BookState, x: Option<OrderId>, b': BookState, s: Side, p: Price)
    requires InvBut(b, x) && s != INVALID && b'.SideOf(s) == b.SideOf(s)
    requires forall c :: c in b.refs && b.refs[c].side == s ==>
      c in b.orders && c in b'.orders && b'.orders[c] == b.orders[c]
    ensures ExactAt(b, s, p) <==> ExactAt(b', s, p)
    ensures DepthAt(b', s, p) == DepthAt(b, s, p) && ShownAt(b', s, p) == ShownAt(b, s, p)
  {
    SameSums(b, x, b', s, p);
  }

  /** Changing only orders that are not indexed changes no depth. */
  lemma SameDepth(b: BookState, x: Option<OrderId>, b': BookState)
    requires InvBut(b, x) && b'.bids == b.bids && b'.asks == b.asks
    requires forall c :: c in b.refs ==> c in b.orders && c in b'.orders && b'.orders[c] == b.orders[c]
    ensures Exact(b) <==> Exact(b')
  {
    hide InvBut, ExactAt, SumQueue;
    forall s, p | s != INVALID
      ensures ExactAt(b, s, p) <==> ExactAt(b', s, p)
    {
      SameAt(b, x, b', s, p);
    }
  }

  // ---- what each change of the book does to one depth -----------------------------------------------

  lemma HeadReplaced(q: seq<Entry>, orders: map<OrderId, OrderState>, orders': map<OrderId, OrderState>, m: Measure)
    requires q != [] && q[0].id in orders && q[0].id in orders'
    requires forall i :: 0 < i < |q| ==> q[i].id in orders && q[i].id in orders' && orders'[q[i].id] == orders[q[i].id]
    ensures SumQueue(q, orders', m) - Amount(m, orders'[q[0].id]) ==
      SumQueue(q, orders, m) - Amount(m, orders[q[0].id]) >= 0
  {
    SumQueueFrame(q[1..], orders, orders', m);
  }

  /** A fill takes the traded quantity off what the level shows and, as far as it goes, off its depth. */
  lemma FillAt(b: BookState, id: OrderId)
    requires MatchInv(b, id) && BestPrice(b, Opposite(b.orders[id].side)).Some?
    ensures Head(b, id) in b.orders
    ensures var s := Opposite(b.orders[id].side); var p := BestPrice(b, s).value;
      var t := TradeQty(b.orders[id], b.orders[Head(b, id)]);
      && ShownAt(b, s, p) >= b.orders[Head(b, id)].Pending()
      && ShownAt(Fill(b, id), s, p) == ShownAt(b, s, p) - t
      && DepthAt(Fill(b, id), s, p) == SaturatingSub(DepthAt(b, s, p), t)
  {
    hide Inv, InvBut, Fill, Head, BestPrice, Live, SumQueue, OrderState.AddFill, OrderState.Restable;
    HeadIsLive(b, id);
    HeadFits(b, id);
    FillShape(b, id);
    var s := Opposite(b.orders[id].side);
    var p := BestPrice(b, s).value;
    BehindHead(b, id, s, p);
    FilledOrder(b.orders[Head(b, id)], TradeQty(b.orders[id], b.orders[Head(b, id)]));
    HeadReplaced(b.Queue(s, p), b.orders, Fill(b, id).orders, Shown);
  }

  /** Elsewhere a fill changes nothing. */
  lemma FillElsewhere(b: BookState, id: OrderId, s: Side, p: Price)
    requires MatchInv(b, id) && BestPrice(b, Opposite(b.orders[id].side)).Some? && s != INVALID
    requires s != Opposite(b.orders[id].side) || p != BestPrice(b, s).value
    ensures var b' := Fill(b, id);
      && DepthAt(b', s, p) == DepthAt(b, s, p) && ShownAt(b', s, p) == ShownAt(b, s, p)
      && b'.Queue(s, p) == b.Queue(s, p)
      && forall i :: 0 <= i < |b.Queue(s, p)| ==> var c := b.Queue(s, p)[i].id;
           c in b.orders && c in b'.orders && b'.orders[c] == b.orders[c]
  {
    hide Inv, InvBut, Fill, Head, BestPrice, SumQueue, Live, OrderState.AddFill;
    HeadIsLive(b, id);
    FillShape(b, id);
    IndexedStored(b);
    StoredOrder(b, id);
    var b' := Fill(b, id);
    FillQueues(b, id, s, p);
    ElsewhereIds(b, None, Head(b, id), s, p);
    SumQueueFrame(b.Queue(s, p), b.orders, b'.orders, Shown);
  }

  /** The orders of a queue that another order is not in. */
  lemma ElsewhereIds(b: BookState, x: Option<OrderId>, h: OrderId, s: Side, p: Price)
    requires InvBut(b, x) && h in b.refs && s != INVALID && (b.refs[h].side != s || b.refs[h].price != p)
    ensures forall i :: 0 <= i < |b.Queue(s, p)| ==>
      var c := b.Queue(s, p)[i].id; c in b.orders && c in b.refs && c != h
  {
    forall i | 0 <= i < |b.Queue(s, p)|
      ensures var c := b.Queue(s, p)[i].id; c in b.orders && c in b.refs && c != h
    {
      QueuedIsLive(b, x, s, p, i);
    }
  }

  lemma CutQueue(level: LevelState, k: nat, pending: Qty)
    requires level.WellFormed() && k < |level.queue|
    ensures level.Remove(level.queue[k], pending).queue == level.queue[..k] + level.queue[k + 1..]
    ensures level.Remove(level.queue[k], pending).openQty == SaturatingSub(level.openQty, pending)
  {
    RemoveKeepsWellFormed(level, k, pending);
  }

  /** An order that leaves takes what it shows off what the level shows and, as far as it goes, off its
      depth; an empty level has no depth. */
  lemma UnqueueAt(b: BookState, x: Option<OrderId>, id: OrderId)
    requires InvBut(b, x) && Live(b, id) && b.refs[id].side != INVALID
    ensures var s, p := b.refs[id].side, b.refs[id].price; var b' := Unqueue(b, id);
      && ShownAt(b', s, p) == ShownAt(b, s, p) - b.orders[id].Pending()
      && (b'.Queue(s, p) == [] ==> ShownAt(b', s, p) == 0)
      && DepthAt(b', s, p) ==
           if b'.Queue(s, p) == [] then 0 else SaturatingSub(DepthAt(b, s, p), b.orders[id].Pending())
  {
    var k := LivePlace(b, x, id);
    var s, p := b.refs[id].side, b.refs[id].price;
    var q := b.Queue(s, p);
    CutQueue(b.SideOf(s).levels[p], k, b.orders[id].Pending());
    SumQueueCut(q, k, b.orders, Shown);
    hide InvBut, LevelOk, LevelState.Remove;
    assert Unqueue(b, id).Queue(s, p) == q[..k] + q[k + 1..];
  }

  lemma LeftOther(b: BookState, id: OrderId, s: Side, p: Price)
    requires Live(b, id) && b.refs[id].side != INVALID && s != INVALID
    requires s != b.refs[id].side || p != b.refs[id].price
    ensures var b' := Unqueue(b, id);
      && (p in b'.SideOf(s).levels <==> p in b.SideOf(s).levels)
      && (p in b'.SideOf(s).levels ==> b'.SideOf(s).levels[p] == b.SideOf(s).levels[p])
      && b'.Queue(s, p) == b.Queue(s, p) && b'.orders == b.orders
  {
    hide LevelState.Remove;
  }

  /** The level an order comes to rest in. */
  lemma GrownLevel(b: BookState, id: OrderId) returns (e: Entry)
    requires MatchInv(b, id)
    ensures var o := b.orders[id].Refresh(); var b' := Rest(b, id);
      && e.id == id
      && b'.Queue(o.side, o.price) == b.Queue(o.side, o.price) + [e]
      && b'.orders == b.orders[id := o]
      && o.price in b'.SideOf(o.side).levels
      && b'.SideOf(o.side).levels[o.price].openQty == WrapAdd(
           if o.price in b.SideOf(o.side).levels then b.SideOf(o.side).levels[o.price].openQty else 0, o.Pending())
  {
    hide Inv, InvBut, Rest, OrderState.Refresh, SideState.EnsureLevel;
    StoredOrder(b, id);
    var o := b.orders[id].Refresh();
    RestShape(b, id);
    WindowedSide(b, o.side);
    NewLevelIsEmpty(o.side, b.SideOf(o.side), o.price);
    e := Entry(id, b.SideOf(o.side).EnsureLevel(o.side, o.price).levels[o.price].NextSlot());
  }

  lemma AppendedSum(q: seq<Entry>, e: Entry, orders: map<OrderId, OrderState>, o: OrderState, m: Measure)
    requires forall i :: 0 <= i < |q| ==> q[i].id in orders && q[i].id != o.id
    requires e.id == o.id
    ensures SumQueue(q + [e], orders[o.id := o], m) == SumQueue(q, orders, m) + Amount(m, o)
  {
    SumQueueFrame(q, orders, orders[o.id := o], m);
    SumQueueConcat(q, [e], orders[o.id := o], m);
    assert SumQueue([e], orders[o.id := o], m) == Amount(m, o) + SumQueue([], orders[o.id := o], m);
  }

  /** An order that comes to rest adds its full clip to what the level shows and, wrapping around, to its
      depth. */
  lemma RestAt(b: BookState, id: OrderId)
    requires MatchInv(b, id)
    ensures var o := b.orders[id]; var b' := Rest(b, id);
      && ShownAt(b', o.side, o.price) == ShownAt(b, o.side, o.price) + Amount(FullClip, o)
      && Amount(FullClip, o) < QTY_MOD
      && DepthAt(b', o.side, o.price) == WrapAdd(DepthAt(b, o.side, o.price), Amount(FullClip, o))
  {
    hide Inv, InvBut, Rest, SumQueue, OrderState.Refresh;
    StoredOrder(b, id);
    RefreshFills(b.orders[id]);
    var o := b.orders[id].Refresh();
    var e := GrownLevel(b, id);
    var q := b.Queue(o.side, o.price);
    QueueIsIndexed(b, o.side, o.price);
    forall i | 0 <= i < |q|
      ensures q[i].id in b.orders && q[i].id != id
    {
      assert q[i].id in b.refs;
    }
    AppendedSum(q, e, b.orders, o, Shown);
  }

  lemma RestOther(b: BookState, id: OrderId, s: Side, p: Price)
    requires MatchInv(b, id) && s != INVALID && (s != b.orders[id].side || p != b.orders[id].price)
    ensures var b' := Rest(b, id);
      p in b'.SideOf(s).levels ==> p in b.SideOf(s).levels && b'.SideOf(s).levels[p] == b.SideOf(s).levels[p]
  {
    var o := b.orders[id];
    StoredOrder(b, id);
    RestShape(b, id);
    EnsureLevelKeeps(o.side, b.SideOf(o.side), o.price);
    hide Rest, SideState.EnsureLevel, LevelState.Add, InvBut, OrderState.Refresh;
  }

  /** A fill takes the traded quantity off the depth and off what the head shows. */
  lemma FillDepth(b: BookState, id: OrderId)
    requires MatchInv(b, id) && BestPrice(b, Opposite(b.orders[id].side)).Some? && Exact(b)
    ensures Exact(Fill(b, id))
  {
    hide Inv, Fill, Head, BestPrice, SumQueue, ExactAt, DepthAt, ShownAt, OrderState.AddFill;
    StoredOrder(b, id);
    FillAt(b, id);
    forall s, p | s != INVALID
      ensures ExactAt(Fill(b, id), s, p)
    {
      assert ExactAt(b, s, p);
      ExactMeans(b, s, p);
      ExactMeans(Fill(b, id), s, p);
      if s != Opposite(b.orders[id].side) || p != BestPrice(b, s).value {
        FillElsewhere(b, id, s, p);
      }
    }
  }

  /** An order that leaves takes what it shows off the depth. */
  lemma UnqueueDepth(b: BookState, x: Option<OrderId>, id: OrderId)
    requires InvBut(b, x) && Live(b, id) && Exact(b)
    ensures Exact(Unqueue(b, id))
  {
    hide InvBut, Unqueue, Live, LevelOk, EntryOk, ExactAt, DepthAt, ShownAt;
    var k := LivePlace(b, x, id);
    UnqueueAt(b, x, id);
    var b' := Unqueue(b, id);
    forall s, p | s != INVALID
      ensures ExactAt(b', s, p)
    {
      assert ExactAt(b, s, p);
      ExactMeans(b, s, p);
      ExactMeans(b', s, p);
      if s != b.refs[id].side || p != b.refs[id].price {
        LeftElsewhere(b, id, s, p);
      }
    }
  }

  lemma LeftElsewhere(b: BookState, id: OrderId, s: Side, p: Price)
    requires Live(b, id) && b.refs[id].side != INVALID && s != INVALID
    requires s != b.refs[id].side || p != b.refs[id].price
    ensures DepthAt(Unqueue(b, id), s, p) == DepthAt(b, s, p) && ShownAt(Unqueue(b, id), s, p) == ShownAt(b, s, p)
  {
    hide Live, Unqueue, SumQueue;
    LeftOther(b, id, s, p);
  }

  /** An order that comes to rest keeps the depths exact exactly when the sum does not overflow. */
  lemma RestDepth(b: BookState, id: OrderId)
    requires MatchInv(b, id) && Exact(b)
    ensures var o := b.orders[id];
      Exact(Rest(b, id)) <==> ShownAt(b, o.side, o.price) + Amount(FullClip, o) < QTY_MOD
  {
    hide Inv, InvBut, Rest, SumQueue, DepthAt, ShownAt, OrderState.Refresh, SideState.EnsureLevel, LevelState.Add;
    IndexedStored(b);
    StoredOrder(b, id);
    var o, b' := b.orders[id], Rest(b, id);
    RestShape(b, id);
    RestAt(b, id);
    assert ExactAt(b, o.side, o.price);
    ExactMeans(b, o.side, o.price);
    ExactMeans(b', o.side, o.price);
    forall s, p | s != INVALID && (s != o.side || p != o.price)
      ensures ExactAt(b', s, p)
    {
      assert ExactAt(b, s, p);
      RestOther(b, id, s, p);
      OtherAt(b, None, b', s, p);
    }
    assert Exact(b') <==> ExactAt(b', o.side, o.price);
  }

  // ---- modifying in place ---------------------------------------------------------------------------

  /** The sums of the level of an order modified in place. */
  lemma ModifiedSums(b: BookState, id: OrderId, o': OrderState, m: Measure)
    requires Inv(b) && id in b.refs && id in b.orders && b.refs[id].price in b.SideOf(b.refs[id].side).levels
    requires o'.id == id && b.refs[id].side != INVALID
    ensures var ref := b.refs[id]; var b' := ModifyInPlace(b, id, o');
      SumQueue(b'.Queue(ref.side, ref.price), b'.orders, m) == SumQueue(b.Queue(ref.side, ref.price), b.orders, m) +
        if Live(b, id) then Amount(m, o') - Amount(m, b.orders[id]) else 0
  {
    hide SumQueue, InvBut;
    var s, p := b.refs[id].side, b.refs[id].price;
    var q := b.Queue(s, p);
    OnlyOnce(b, s, p);
    forall i | 0 <= i < |q|
      ensures q[i].id in b.orders
      ensures Live(b, q[i].id)
    {
      QueuedIsLive(b, None, s, p, i);
    }
    SumQueueReplace(q, b.orders, o', m);
    if Live(b, id) {
      var k :| 0 <= k < |q| && q[k] == Entry(id, b.refs[id].slot.value);
    }
  }

  /** Modifying in place keeps the depths exact exactly when a queued order does not come to show
      more than before, or, for an order the window has dropped, when there is nothing to take off. */
  lemma InPlaceDepth(b: BookState, id: OrderId, newQty: Qty)
    requires Inv(b) && Exact(b) && id in b.refs && id in b.orders
    requires b.refs[id].price in b.SideOf(b.refs[id].side).levels
    requires b.orders[id].filled <= newQty <= b.orders[id].total
    ensures var o, o' := b.orders[id], Resized(b.orders[id], b.orders[id].price, newQty);
      Exact(ModifyInPlace(b, id, o')) <==>
        if Live(b, id) then o'.Pending() <= o.Pending()
        else o'.Pending() >= o.Pending() || ShownAt(b, o.side, o.price) == 0
  {
    hide SumQueue, InvBut, OrderState.Refresh, Live, OrderState.Pending, OrderState.Remaining;
    var o, o' := b.orders[id], Resized(b.orders[id], b.orders[id].price, newQty);
    IndexedOrder(b, id);
    var b' := ModifyInPlace(b, id, o');
    var s, p := b.refs[id].side, b.refs[id].price;
    ModifiedSums(b, id, o', Shown);
    if Live(b, id) {
      LiveInSum(b, id);
    }
    forall s', p' | s' != INVALID && (s' != s || p' != p)
      ensures ExactAt(b', s', p')
    {
      assert ExactAt(b, s', p');
      OtherAt(b, None, b', s', p');
    }
    assert ExactAt(b, s, p);
    assert Exact(b') <==> ExactAt(b', s, p);
  }

  /** What a queued order shows is part of the sum of its queue. */
  lemma LiveInSum(b: BookState, id: OrderId)
    requires Inv(b) && Live(b, id)
    ensures forall m :: SumQueue(b.Queue(b.refs[id].side, b.refs[id].price), b.orders, m) >= Amount(m, b.orders[id])
  {
    var k := LivePlace(b, None, id);
    var q := b.Queue(b.refs[id].side, b.refs[id].price);
    forall m: Measure
      ensures SumQueue(q, b.orders, m) >= Amount(m, b.orders[id])
    {
      SumQueueCut(q, k, b.orders, m);
    }
  }

  // ---- a resting order that gives way ---------------------------------------------------------------

  /** A resting order that gives way keeps the depths exact exactly when it has nothing hidden, or its
      next clip does not overflow its level. */
  lemma RemoveRestingDepth(b: BookState, h: OrderId)
    requires InvBut(b, Some(h)) && Live(b, h) && Exact(b)
    ensures h in b.orders
    ensures var o := b.orders[h];
      Exact(RemoveResting(b, h)) <==>
        (o.HasDisplay() && o.Remaining() > 0 ==>
          ShownAt(b, o.side, o.price) - o.Pending() + Amount(FullClip, o) < QTY_MOD)
  {
    hide InvBut, Unqueue, Rest, SumQueue, Live, Exact, DepthAt, ShownAt, OrderState.Refresh;
    LiveInWindow(b, Some(h), h);
    StoredFit(b, Some(h), h);
    UnqueueKeepsStore(b, h);
    UnqueueKeeps(b, Some(h), h);
    UnqueueAt(b, Some(h), h);
    UnqueueDepth(b, Some(h), h);
    var o, b1 := b.orders[h], Unqueue(b, h);
    IndexedStored(b1);
    if o.HasDisplay() && o.Remaining() > 0 {
      RefreshExposes(o);
      RefreshFills(o);
      var b2 := b1.WithOrder(o.Refresh());
      SetOrderKeeps(b1, None, o.Refresh());
      SameDepth(b1, None, b2);
      SameAt(b1, None, b2, o.side, o.price);
      RestDepth(b2, h);
    } else {
      SameDepth(b1, None, Release(b1, h));
    }
  }

  /** What giving way does to the level, when other orders or a next clip stay there. */
  lemma RemoveRestingAt(b: BookState, h: OrderId)
    requires InvBut(b, Some(h)) && Live(b, h)
    ensures h in b.orders
    ensures var o := b.orders[h]; var b' := RemoveResting(b, h); var s, p := o.side, o.price;
      var left: Qty := if Unqueue(b, h).Queue(s, p) == [] then 0 else SaturatingSub(DepthAt(b, s, p), o.Pending());
      && (Unqueue(b, h).Queue(s, p) == [] ==> ShownAt(b, s, p) == o.Pending())
      && if o.HasDisplay() && o.Remaining() > 0
         then
           && Amount(FullClip, o) < QTY_MOD
           && ShownAt(b', s, p) == ShownAt(b, s, p) - o.Pending() + Amount(FullClip, o)
           && DepthAt(b', s, p) == WrapAdd(left, Amount(FullClip, o))
         else ShownAt(b', s, p) == ShownAt(b, s, p) - o.Pending() && DepthAt(b', s, p) == left
  {
    hide InvBut, Unqueue, Rest, Live, DepthAt, OrderState.Refresh;
    LiveInWindow(b, Some(h), h);
    StoredFit(b, Some(h), h);
    UnqueueKeepsStore(b, h);
    UnqueueKeeps(b, Some(h), h);
    UnqueueAt(b, Some(h), h);
    var o, b1 := b.orders[h], Unqueue(b, h);
    IndexedStored(b1);
    hide SumQueue;
    if o.HasDisplay() && o.Remaining() > 0 {
      RefreshExposes(o);
      RefreshFills(o);
      var b2 := b1.WithOrder(o.Refresh());
      SetOrderKeeps(b1, None, o.Refresh());
      SameAt(b1, None, b2, o.side, o.price);
      RestAt(b2, h);
    } else {
      SameAt(b1, None, Release(b1, h), o.side, o.price);
    }
  }

  /** A level that a resting order elsewhere does not touch when it comes to rest inside the window. */
  lemma RestElsewhere(b: BookState, id: OrderId, s: Side, p: Price)
    requires MatchInv(b, id) && s != INVALID && (s != b.orders[id].side || p != b.orders[id].price)
    requires var base := b.SideOf(b.orders[id].side).base; base.Some? && InWindow(base.value, b.orders[id].price)
    ensures DepthAt(Rest(b, id), s, p) == DepthAt(b, s, p) && Rest(b, id).Queue(s, p) == b.Queue(s, p)
  {
    StoredOrder(b, id);
    RestShape(b, id);
    hide Inv, Rest, LevelState.Add, OrderState.Refresh;
  }

  /** Other levels do not notice when a resting order gives way. */
  lemma RemoveElsewhere(b: BookState, h: OrderId, s: Side, p: Price)
    requires InvBut(b, Some(h)) && Live(b, h) && s != INVALID && (s != b.refs[h].side || p != b.refs[h].price)
    ensures var b' := RemoveResting(b, h);
      && DepthAt(b', s, p) == DepthAt(b, s, p) && ShownAt(b', s, p) == ShownAt(b, s, p)
      && b'.Queue(s, p) == b.Queue(s, p)
      && forall i :: 0 <= i < |b.Queue(s, p)| ==> var c := b.Queue(s, p)[i].id;
           c in b.orders && c in b'.orders && b'.orders[c] == b.orders[c]
  {
    hide InvBut, Unqueue, Rest, SumQueue, Live, OrderState.Refresh;
    LiveInWindow(b, Some(h), h);
    StoredFit(b, Some(h), h);
    UnqueueKeepsStore(b, h);
    UnqueueKeeps(b, Some(h), h);
    ElsewhereIds(b, Some(h), h, s, p);
    LeftOther(b, h, s, p);
    RemoveRestingStore(b, h);
    var o, b1 := b.orders[h], Unqueue(b, h);
    IndexedStored(b1);
    if o.HasDisplay() && o.Remaining() > 0 {
      RefreshExposes(o);
      var b2 := b1.WithOrder(o.Refresh());
      SetOrderKeeps(b1, None, o.Refresh());
      RestElsewhere(b2, h, s, p);
    }
    SumQueueFrame(b.Queue(s, p), b.orders, RemoveResting(b, h).orders, Shown);
  }

  // ---- one round of a match -------------------------------------------------------------------------

  /** If the round uses up the clip of the head and the head has another one, that one fits its level. */
  ghost predicate StepFits(b: BookState, id: OrderId)
    requires id in b.orders && BestPrice(b, Opposite(b.orders[id].side)).Some? && Head(b, id) in b.orders
  {
    var s := Opposite(b.orders[id].side);
    var h := b.orders[Head(b, id)];
    var after := h.AddFill(TradeQty(b.orders[id], h));
    after.Pending() == 0 && after.HasDisplay() && after.Remaining() > 0 ==>
      ShownAt(b, s, BestPrice(b, s).value) - h.Pending() + Amount(FullClip, after) < QTY_MOD
  }

  /** A round keeps the depths exact exactly when the next clip of its head fits. */
  lemma MatchStepDepth(b: BookState, id: OrderId)
    requires MatchInv(b, id) && BestPrice(b, Opposite(b.orders[id].side)).Some? && Exact(b)
    ensures Head(b, id) in b.orders && (Exact(MatchStep(b, id)) <==> StepFits(b, id))
  {
    hide Inv, InvBut, Fill, RemoveResting, Exact, Live, Head, BestPrice, ShownAt, OrderState.AddFill,
      OrderState.Restable;
    HeadIsLive(b, id);
    HeadFits(b, id);
    FilledIsLive(b, id);
    FillKeeps(b, id);
    FillDepth(b, id);
    FillAt(b, id);
    var f, h := Fill(b, id), Head(b, id);
    FilledOrder(b.orders[h], TradeQty(b.orders[id], b.orders[h]));
    if f.orders[h].Pending() == 0 {
      RemoveRestingDepth(f, h);
    }
  }

  /** Other levels do not notice a round. */
  lemma StepElsewhere(b: BookState, id: OrderId, p: Price)
    requires MatchInv(b, id) && BestPrice(b, Opposite(b.orders[id].side)).Some?
    requires p != BestPrice(b, Opposite(b.orders[id].side)).value
    ensures var s := Opposite(b.orders[id].side); var b' := MatchStep(b, id);
      && DepthAt(b', s, p) == DepthAt(b, s, p) && ShownAt(b', s, p) == ShownAt(b, s, p)
      && b'.Queue(s, p) == b.Queue(s, p)
      && forall i :: 0 <= i < |b.Queue(s, p)| ==> var c := b.Queue(s, p)[i].id;
           c in b.orders && c in b'.orders && b'.orders[c] == b.orders[c]
  {
    hide Inv, InvBut, Fill, RemoveResting, Live, Head, BestPrice, ShownAt, DepthAt, OrderState.AddFill;
    StoredOrder(b, id);
    HeadIsLive(b, id);
    FillShape(b, id);
    FilledIsLive(b, id);
    FillKeeps(b, id);
    var s, f := Opposite(b.orders[id].side), Fill(b, id);
    FillElsewhere(b, id, s, p);
    if f.orders[Head(b, id)].Pending() == 0 {
      RemoveElsewhere(f, Head(b, id), s, p);
    }
  }

  // ---- an overflow lasts ----------------------------------------------------------------------------

  /** A depth is too small, and the level shows more than the incoming order can still take. */
  ghost predicate TooSmall(b: BookState, id: OrderId, p: Price)
    requires id in b.orders
  {
    var s := Opposite(b.orders[id].side);
    DepthAt(b, s, p) < ShownAt(b, s, p) && ShownAt(b, s, p) > b.orders[id].Pending()
  }

  lemma StillTooSmall(b: BookState, id: OrderId, p: Price)
    requires MatchInv(b, id) && BestPrice(b, Opposite(b.orders[id].side)).Some? && b.orders[id].Pending() > 0
    requires TooSmall(b, id, p)
    ensures id in MatchStep(b, id).orders && TooSmall(MatchStep(b, id), id, p)
  {
    hide Inv, InvBut, Fill, RemoveResting, Live, Head, BestPrice, ShownAt, DepthAt, OrderState.AddFill,
      OrderState.Restable;
    StoredOrder(b, id);
    HeadIsLive(b, id);
    HeadFits(b, id);
    FillShape(b, id);
    FilledIsLive(b, id);
    FillKeeps(b, id);
    MatchStepKeeps(b, id);
    MatchStepSide(b, id);
    var s := Opposite(b.orders[id].side);
    if p == BestPrice(b, s).value {
      FillAt(b, id);
      var f, h := Fill(b, id), Head(b, id);
      FilledOrder(b.orders[h], TradeQty(b.orders[id], b.orders[h]));
      if f.orders[h].Pending() == 0 {
        RemoveRestingAt(f, h);
      }
    } else {
      StepElsewhere(b, id, p);
    }
  }

  lemma MatchStepSide(b: BookState, id: OrderId)
    requires MatchInv(b, id) && BestPrice(b, Opposite(b.orders[id].side)).Some? && b.orders[id].Pending() > 0
    ensures id in MatchStep(b, id).orders && MatchStep(b, id).orders[id].side == b.orders[id].side
    ensures MatchStep(b, id).orders[id].price == b.orders[id].price
  {
    hide Inv, MatchStep, Head, BestPrice;
    MatchStepKeeps(b, id);
  }

  lemma {:induction false} EndsTooSmall(b: BookState, id: OrderId, respectPrice: bool, p: Price)
    requires MatchInv(b, id) && TooSmall(b, id, p)
    ensures !Exact(MatchLoop(b, id, respectPrice))
    decreases b.orders[id].Pending(), |b.orders|
  {
    hide Inv, MatchStep, BestPrice, DepthAt, ShownAt, ExactAt;
    StoredOrder(b, id);
    if CanMatch(b, id, respectPrice) {
      MatchStepKeeps(b, id);
      StillTooSmall(b, id, p);
      EndsTooSmall(MatchStep(b, id), id, respectPrice, p);
    } else {
      ExactMeans(b, Opposite(b.orders[id].side), p);
    }
  }

  /** A next clip that does not fit leaves a depth too small by 2^32 and more than enough to take. */
  lemma OverflowIsTooSmall(b: BookState, id: OrderId)
    requires MatchInv(b, id) && BestPrice(b, Opposite(b.orders[id].side)).Some? && b.orders[id].Pending() > 0
    requires Exact(b) && Head(b, id) in b.orders && !StepFits(b, id)
    ensures id in MatchStep(b, id).orders
    ensures TooSmall(MatchStep(b, id), id, BestPrice(b, Opposite(b.orders[id].side)).value)
  {
    hide Inv, InvBut, Fill, RemoveResting, Live, Head, BestPrice, ShownAt, DepthAt, ExactAt,
      OrderState.AddFill, OrderState.Restable;
    StoredOrder(b, id);
    HeadIsLive(b, id);
    HeadFits(b, id);
    FillShape(b, id);
    FilledIsLive(b, id);
    FillKeeps(b, id);
    FillAt(b, id);
    MatchStepSide(b, id);
    var f, h, s := Fill(b, id), Head(b, id), Opposite(b.orders[id].side);
    assert ExactAt(b, s, BestPrice(b, s).value);
    ExactMeans(b, s, BestPrice(b, s).value);
    FilledOrder(b.orders[h], TradeQty(b.orders[id], b.orders[h]));
    RemoveRestingAt(f, h);
  }

}
