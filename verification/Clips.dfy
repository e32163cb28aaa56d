/**
  In every reachable book only the first order of a queue can have a partly used clip: orders come to
  rest with a full one, only the first one is traded with, and a modification in place refills it.
 */
module Clips {
  import opened Types
  import opened Orders
  import opened PriceLevels
  import opened PriceWindows
  import opened BookSpec
  import opened BookInvariant
  import opened BookOps
  import opened Simulation

  /** The order shows all that a refresh would show. */
  predicate Full(o: OrderState) {
    o.Pending() == Amount(FullClip, o)
  }

  /** From the k-th one on, the orders of the queue show full clips. */
  ghost predicate FullFrom(b: BookState, s: Side, p: Price, k: nat) {
    forall i {:trigger b.Queue(s, p)[i]} :: k <= i < |b.Queue(s, p)| ==>
      b.Queue(s, p)[i].id in b.orders && Full(b.orders[b.Queue(s, p)[i].id])
  }

  ghost predicate OnlyHeadsUsed(b: BookState) {
    forall s, p {:trigger FullFrom(b, s, p, 1)} :: s != INVALID ==> FullFrom(b, s, p, 1)
  }

  /** A refreshed order shows its full clip. */
  lemma RefreshFills(o: OrderState)
    requires o.Sane()
    ensures o.Refresh().Pending() == Amount(FullClip, o.Refresh()) == Amount(FullClip, o)
    ensures Full(o.Refresh())
  {
  }

  // ---- what each change of the book does to clips ---------------------------------------------------

  lemma FullFrame(b: BookState, x: Option<OrderId>, b': BookState, s: Side, p: Price, k: nat)
    requires InvBut(b, x) && s != INVALID && FullFrom(b, s, p, k)
    requires b'.Queue(s, p) == b.Queue(s, p) || b'.Queue(s, p) == []
    requires forall c :: c in b.refs && b.refs[c].side == s && b.refs[c].price == p && c in b.orders ==>
      c in b'.orders && b'.orders[c] == b.orders[c]
    ensures FullFrom(b', s, p, k)
  {
    QueueIsStored(b, x, s, p);
    forall i | k <= i < |b'.Queue(s, p)|
      ensures b'.Queue(s, p)[i].id in b'.orders && Full(b'.orders[b'.Queue(s, p)[i].id])
    {
      QueuedIsLive(b, x, s, p, i);
      assert b.Queue(s, p)[i] == b'.Queue(s, p)[i];
    }
  }

  /** Changing only orders that are not indexed changes no clip. */
  lemma SameUsed(b: BookState, x: Option<OrderId>, b': BookState)
    requires InvBut(b, x) && OnlyHeadsUsed(b) && b'.bids == b.bids && b'.asks == b.asks
    requires forall c :: c in b.refs && Live(b, c) ==> c in b'.orders && b'.orders[c] == b.orders[c]
    ensures OnlyHeadsUsed(b')
  {
    hide InvBut;
    forall s, p | s != INVALID
      ensures FullFrom(b', s, p, 1)
    {
      assert FullFrom(b, s, p, 1);
      forall i | 1 <= i < |b'.Queue(s, p)|
        ensures b'.Queue(s, p)[i].id in b'.orders && Full(b'.orders[b'.Queue(s, p)[i].id])
      {
        QueuedIsLive(b, x, s, p, i);
        assert b.Queue(s, p)[i] == b'.Queue(s, p)[i];
      }
    }
  }

  lemma QueueIsIndexed(b: BookState, s: Side, p: Price)
    requires Inv(b) && s != INVALID
    ensures forall i :: 0 <= i < |b.Queue(s, p)| ==> b.Queue(s, p)[i].id in b.refs && b.Queue(s, p)[i].id in b.orders
  {
    QueueIsStored(b, None, s, p);
  }

  /** The other orders of the queue are not touched by a fill of its head. */
  lemma BehindHead(b: BookState, id: OrderId, s: Side, p: Price)
    requires MatchInv(b, id) && BestPrice(b, Opposite(b.orders[id].side)).Some?
    requires s == Opposite(b.orders[id].side) && p == BestPrice(b, s).value
    ensures Fill(b, id).Queue(s, p) == b.Queue(s, p) != [] && b.Queue(s, p)[0].id == Head(b, id)
    ensures forall i :: 0 < i < |b.Queue(s, p)| ==> var c := b.Queue(s, p)[i].id;
      c in b.orders && c in Fill(b, id).orders && Fill(b, id).orders[c] == b.orders[c]
  {
    hide Inv, InvBut, Fill, Head, BestPrice, Live, OrderState.AddFill, OrderState.Restable;
    HeadIsLive(b, id);
    FillShape(b, id);
    FillQueues(b, id, s, p);
    OnlyOnce(b, s, p);
    QueueIsIndexed(b, s, p);
  }

  lemma FillUsed(b: BookState, id: OrderId)
    requires MatchInv(b, id) && BestPrice(b, Opposite(b.orders[id].side)).Some? && OnlyHeadsUsed(b)
    ensures OnlyHeadsUsed(Fill(b, id))
  {
    hide Inv, InvBut, Fill, Head, BestPrice, Live, Full, OrderState.AddFill, OrderState.Restable;
    IndexedStored(b);
    HeadIsLive(b, id);
    FillShape(b, id);
    var b', h := Fill(b, id), Head(b, id);
    forall s, p | s != INVALID
      ensures FullFrom(b', s, p, 1)
    {
      assert FullFrom(b, s, p, 1);
      FillQueues(b, id, s, p);
      if s == b.refs[h].side && p == b.refs[h].price {
        BehindHead(b, id, s, p);
      } else {
        FullFrame(b, None, b', s, p, 1);
      }
    }
  }

  /** When the first order leaves, its queue shows full clips only. */
  lemma UnqueueUsed(b: BookState, x: Option<OrderId>, id: OrderId)
    requires InvBut(b, x) && Live(b, id) && OnlyHeadsUsed(b)
    ensures OnlyHeadsUsed(Unqueue(b, id)) && b.refs[id].side != INVALID
    ensures var s, p := b.refs[id].side, b.refs[id].price;
      b.Queue(s, p)[0].id == id ==> FullFrom(Unqueue(b, id), s, p, 0)
  {
    hide InvBut, Unqueue, Live, EntryOk, LevelOk, Full;
    var k := LivePlace(b, x, id);
    UnqueueKeepsStore(b, id);
    UnqueueShape(b, id);
    var b' := Unqueue(b, id);
    forall s, p | s != INVALID
      ensures FullFrom(b', s, p, 1)
    {
      assert FullFrom(b, s, p, 1);
      UnqueuedQueue(b, x, id, k, s, p);
      CutFull(b, b', s, p, k, 1);
    }
    var s, p := b.refs[id].side, b.refs[id].price;
    assert FullFrom(b, s, p, 1);
    UnqueuedQueue(b, x, id, k, s, p);
    if b.Queue(s, p)[0].id == id {
      CutFull(b, b', s, p, k, 0);
    }
  }

  lemma CutFull(b: BookState, b': BookState, s: Side, p: Price, k: nat, from: nat)
    requires FullFrom(b, s, p, 1) && b'.orders == b.orders
    requires (b'.Queue(s, p) == b.Queue(s, p) && from == 1) ||
      (k < |b.Queue(s, p)| && b'.Queue(s, p) == b.Queue(s, p)[..k] + b.Queue(s, p)[k + 1..] && (from == 1 || k == 0))
    ensures FullFrom(b', s, p, from)
  {
    hide Full;
    if b'.Queue(s, p) != b.Queue(s, p) {
      forall i | from <= i < |b'.Queue(s, p)|
        ensures b'.Queue(s, p)[i].id in b'.orders && Full(b'.orders[b'.Queue(s, p)[i].id])
      {
        assert b'.Queue(s, p)[i] == b.Queue(s, p)[if i < k then i else i + 1];
      }
    }
  }

  /** An order comes to rest with a full clip. */
  lemma RestUsed(b: BookState, id: OrderId)
    requires MatchInv(b, id) && OnlyHeadsUsed(b)
    ensures OnlyHeadsUsed(Rest(b, id))
    ensures var s, p := b.orders[id].side, b.orders[id].price; FullFrom(b, s, p, 0) ==> FullFrom(Rest(b, id), s, p, 0)
  {
    hide Inv, Rest, Full, OrderState.Refresh, SideState.EnsureLevel;
    StoredOrder(b, id);
    IndexedStored(b);
    RestShape(b, id);
    RefreshFills(b.orders[id]);
    var o, b' := b.orders[id], Rest(b, id);
    forall s, p | s != INVALID
      ensures FullFrom(b', s, p, 1)
    {
      assert FullFrom(b, s, p, 1);
      RestedQueue(b, id, s, p);
      if s == o.side && p == o.price {
        JoinedFull(b, b', id, s, p, 1);
      } else {
        FullFrame(b, None, b', s, p, 1);
      }
    }
    RestedQueue(b, id, o.side, o.price);
    if FullFrom(b, o.side, o.price, 0) {
      JoinedFull(b, b', id, o.side, o.price, 0);
    }
  }

  lemma JoinedFull(b: BookState, b': BookState, id: OrderId, s: Side, p: Price, from: nat)
    requires Inv(b) && s != INVALID && id !in b.refs && FullFrom(b, s, p, from)
    requires id in b'.orders && Full(b'.orders[id]) && b'.orders == b.orders[id := b'.orders[id]]
    requires exists slot :: b'.Queue(s, p) == b.Queue(s, p) + [Entry(id, slot)]
    ensures FullFrom(b', s, p, from)
  {
    hide Inv, Full;
    QueueIsIndexed(b, s, p);
    var slot :| b'.Queue(s, p) == b.Queue(s, p) + [Entry(id, slot)];
    forall i | from <= i < |b'.Queue(s, p)|
      ensures b'.Queue(s, p)[i].id in b'.orders && Full(b'.orders[b'.Queue(s, p)[i].id])
    {
      if i < |b.Queue(s, p)| {
        assert b'.Queue(s, p)[i] == b.Queue(s, p)[i];
      }
    }
  }

  /** After the first order of a queue has given way, the queue shows full clips only. */
  lemma RemoveRestingUsed(b: BookState, h: OrderId)
    requires InvBut(b, Some(h)) && Live(b, h) && OnlyHeadsUsed(b)
    ensures h in b.orders && OnlyHeadsUsed(RemoveResting(b, h)) && b.refs[h].side != INVALID
    ensures var s, p := b.refs[h].side, b.refs[h].price;
      b.Queue(s, p)[0].id == h ==> FullFrom(RemoveResting(b, h), s, p, 0)
  {
    hide InvBut, Unqueue, Rest, Full, OnlyHeadsUsed, OrderState.Refresh;
    LiveInWindow(b, Some(h), h);
    StoredFit(b, Some(h), h);
    UnqueueKeeps(b, Some(h), h);
    UnqueueUsed(b, Some(h), h);
    var o, b1 := b.orders[h], Unqueue(b, h);
    var s, p := b.refs[h].side, b.refs[h].price;
    IndexedStored(b1);
    if o.HasDisplay() && o.Remaining() > 0 {
      RefreshExposes(o);
      var b2 := b1.(orders := b.orders[h := o.Refresh()]);
      assert b2 == b1.WithOrder(o.Refresh());
      SetOrderKeeps(b1, None, o.Refresh());
      SameUsed(b1, None, b2);
      if b.Queue(s, p)[0].id == h {
        FullFrame(b1, None, b2, s, p, 0);
      }
      RestUsed(b2, h);
    } else {
      SameUsed(b1, None, Release(b1, h));
      if b.Queue(s, p)[0].id == h {
        FullFrame(b1, None, Release(b1, h), s, p, 0);
      }
    }
  }

  // ---- matching -------------------------------------------------------------------------------------

  lemma MatchStepUsed(b: BookState, id: OrderId)
    requires MatchInv(b, id) && BestPrice(b, Opposite(b.orders[id].side)).Some? && OnlyHeadsUsed(b)
    ensures OnlyHeadsUsed(MatchStep(b, id)) && id in Fill(b, id).orders && Head(b, id) in Fill(b, id).orders
    ensures var s := Opposite(b.orders[id].side);
      Fill(b, id).orders[Head(b, id)].Pending() == 0 ==> FullFrom(MatchStep(b, id), s, BestPrice(b, s).value, 0)
  {
    hide Inv, InvBut, Fill, RemoveResting, OnlyHeadsUsed, Live, Head, BestPrice, Full;
    HeadIsLive(b, id);
    FillShape(b, id);
    FilledIsLive(b, id);
    FillKeeps(b, id);
    FillUsed(b, id);
    var f, h, s := Fill(b, id), Head(b, id), Opposite(b.orders[id].side);
    FillQueues(b, id, s, BestPrice(b, s).value);
    if f.orders[h].Pending() == 0 {
      RemoveRestingUsed(f, h);
    }
  }

  lemma {:induction false} MatchLoopUsed(b: BookState, id: OrderId, respectPrice: bool)
    requires MatchInv(b, id) && OnlyHeadsUsed(b)
    ensures OnlyHeadsUsed(MatchLoop(b, id, respectPrice))
    decreases b.orders[id].Pending(), |b.orders|
  {
    hide Inv, MatchStep, OnlyHeadsUsed, BestPrice, Fill;
    if CanMatch(b, id, respectPrice) {
      MatchStepKeeps(b, id);
      MatchStepUsed(b, id);
      MatchLoopUsed(MatchStep(b, id), id, respectPrice);
    }
  }

  lemma ExecuteUsed(b: BookState, id: OrderId, respectPrice: bool, allowRest: bool)
    requires MatchInv(b, id) && OnlyHeadsUsed(b)
    ensures OnlyHeadsUsed(ExecuteMatch(b, id, respectPrice, allowRest))
  {
    hide InvBut, MatchLoop, Rest, OnlyHeadsUsed;
    MatchLoopKeeps(b, id, respectPrice);
    MatchLoopUsed(b, id, respectPrice);
    var m := MatchLoop(b, id, respectPrice);
    RestUsed(m, id);
    SameUsed(m, None, Release(m, id));
  }

  // ---- operations and runs --------------------------------------------------------------------------

  lemma ProcessUsed(b: BookState, id: OrderId)
    requires MatchInv(b, id) && OnlyHeadsUsed(b)
    ensures OnlyHeadsUsed(ProcessOrder(b, id))
  {
    hide InvBut, ExecuteMatch, OnlyHeadsUsed, FokLiquidity, OrderState.HandleIceberg;
    match b.orders[id].kind {
      case LIMIT => ExecuteUsed(b, id, true, true);
      case MARKET => ExecuteUsed(b, id, false, false);
      case IOC => ExecuteUsed(b, id, true, false);
      case FOK =>
        ExecuteUsed(b, id, true, false);
        SameUsed(b, None, Release(b, id));
      case ICEBERG =>
        IcebergKeeps(b, id);
        var b1 := b.WithOrder(b.orders[id].HandleIceberg());
        SameUsed(b, None, b1);
        ExecuteUsed(b1, id, true, true);
    }
  }

  lemma CancelUsed(b: BookState, id: OrderId)
    requires Inv(b) && OnlyHeadsUsed(b)
    ensures OnlyHeadsUsed(CancelOrder(b, id).0)
  {
    hide InvBut, Unqueue, OnlyHeadsUsed;
    if Live(b, id) {
      UnqueueKeeps(b, None, id);
      UnqueueUsed(b, None, id);
      SameUsed(Unqueue(b, id), None, Release(Unqueue(b, id), id));
    } else {
      SameUsed(b, None, CancelOrder(b, id).0);
    }
  }

  /** A modification in place refills the clip. */
  lemma InPlaceUsed(b: BookState, id: OrderId, qty: Qty)
    requires Inv(b) && OnlyHeadsUsed(b)
    requires id in b.refs && id in b.orders && b.refs[id].price in b.SideOf(b.refs[id].side).levels
    requires b.orders[id].filled <= qty <= b.orders[id].total
    ensures OnlyHeadsUsed(ModifyInPlace(b, id, b.orders[id].ModifyQty(qty).value))
  {
    hide Inv, ModifyInPlace, Full, OrderState.Refresh;
    IndexedOrder(b, id);
    var o := b.orders[id].ModifyQty(qty).value;
    ModifiedIsFull(b.orders[id], qty);
    InPlaceShape(b, id, o);
    var b' := ModifyInPlace(b, id, o);
    forall s, p | s != INVALID
      ensures FullFrom(b', s, p, 1)
    {
      assert FullFrom(b, s, p, 1);
      assert b'.Queue(s, p) == b.Queue(s, p);
    }
  }

  lemma ModifiedIsFull(o: OrderState, qty: Qty)
    requires o.Sane() && o.filled <= qty <= o.total
    ensures Full(o.ModifyQty(qty).value)
  {
  }

  lemma ReenterUsed(b: BookState, id: OrderId, price: Price, qty: Qty)
    requires Inv(b) && Live(b, id) && OnlyHeadsUsed(b)
    ensures OnlyHeadsUsed(ReenterBook(b, id, price, qty))
  {
    hide InvBut, Unqueue, ProcessOrder, OnlyHeadsUsed;
    UnqueueKeepsStore(b, id);
    ReenteredIsStored(b, id, price, qty);
    UnqueueUsed(b, None, id);
    var left := Unqueue(b, id);
    var again := Reenter(b.orders[id], price, qty);
    if again.None? {
      SameUsed(left, None, left.(orders := Drop(left.orders, id)));
    } else {
      SameUsed(left, None, left.WithOrder(again.value));
      ProcessUsed(left.WithOrder(again.value), id);
    }
  }

  lemma ModifyUsed(b: BookState, id: OrderId, price: Price, qty: Qty)
    requires Inv(b) && OnlyHeadsUsed(b)
    ensures OnlyHeadsUsed(ModifyOrder(b, id, price, qty))
  {
    hide InvBut, ReenterBook, ModifyInPlace, OnlyHeadsUsed, Live, OrderState.Refresh;
    if id in b.refs && b.refs[id].price in b.SideOf(b.refs[id].side).levels {
      IndexedOrder(b, id);
      var o := b.orders[id];
      if price == o.price && qty <= o.total {
        if qty >= o.filled {
          InPlaceUsed(b, id, qty);
        }
      } else if Live(b, id) {
        ReenterUsed(b, id, price, qty);
      }
    }
  }

  /** Every operation keeps partly used clips to the heads of the queues. */
  lemma ApplyUsed(b: BookState, op: Op)
    requires Inv(b) && Allowed(b, op) && OnlyHeadsUsed(b)
    ensures OnlyHeadsUsed(Apply(b, op))
  {
    hide InvBut, ProcessOrder, CancelOrder, ModifyOrder, OnlyHeadsUsed;
    match op {
      case Add(o) =>
        AddedIsStored(b, o);
        SameUsed(b, None, b.WithOrder(o));
        ProcessUsed(b.WithOrder(o), o.id);
      case Cancel(id) => CancelUsed(b, id);
      case Modify(id, price, qty) => ModifyUsed(b, id, price, qty);
    }
  }

  lemma {:induction false} RunUsed(b: BookState, ops: seq<Op>, b': BookState)
    requires Inv(b) && OnlyHeadsUsed(b) && Runs(b, ops, b')
    ensures OnlyHeadsUsed(b')
    decreases |ops|
  {
    hide Inv, Apply, OnlyHeadsUsed;
    if ops != [] {
      ApplyKeeps(b, ops[0]);
      ApplyUsed(b, ops[0]);
      RunUsed(Apply(b, ops[0]), ops[1..], b');
    }
  }

  /** In every reachable book only the first order of a queue can have a partly used clip. */
  lemma ReachableIsUsed(b: BookState)
    requires Reachable(b)
    ensures Inv(b) && OnlyHeadsUsed(b)
  {
    ReachableIsOk(b);
    var ops :| Runs(EMPTY_BOOK, ops, b);
    assert OnlyHeadsUsed(EMPTY_BOOK);
    RunUsed(EMPTY_BOOK, ops, b);
  }
}
