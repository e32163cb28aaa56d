/**
  The history of one stored order over a whole run: as long as nobody modifies or cancels it, every
  bit of quantity it loses is reported in a trade.  So the clips of an iceberg add up to exactly what
  it had left before it goes.  An order that the price window drops loses nothing any more.
 */
module OrderHistory {
  import opened Types
  import opened Orders
  import opened BookSpec
  import opened BookInvariant
  import opened BookOps
  import opened Conservation

  /** What is left of an order, hidden quantity included. */
  function Left(b: BookState, c: OrderId): nat {
    if c in b.orders then b.orders[c].Remaining() else 0
  }

  /** What is left of an order and what was traded against it. */
  function Account(b: BookState, c: OrderId): nat {
    Left(b, c) + SumQtyOf(b.trades, c)
  }

  // ---- one match ------------------------------------------------------------------------------------

  /** A fill reports exactly what the resting order loses. */
  lemma FillAccount(b: BookState, id: OrderId, c: OrderId)
    requires MatchInv(b, id) && BestPrice(b, Opposite(b.orders[id].side)).Some? && c != id
    ensures Account(Fill(b, id), c) == Account(b, c)
  {
    HeadIsLive(b, id);
    HeadFits(b, id);
    FillShape(b, id);
    var o, head := b.orders[id], b.orders[Head(b, id)];
    StoredFit(b, None, Head(b, id));
    FilledOrder(head, TradeQty(o, head));
    hide Inv, InvBut, Fill, Head, BestPrice, Live, SumQtyOf, OrderState.AddFill, OrderState.Remaining;
    SumAppend(b.trades, TradeOf(o, head), c);
  }

  /** An order that gives way has nothing left, or comes back with all it has left. */
  lemma RemoveRestingAccount(b: BookState, h: OrderId, c: OrderId)
    requires InvBut(b, Some(h)) && Live(b, h) && (b.orders[h].HasDisplay() || b.orders[h].Remaining() == 0)
    ensures Account(RemoveResting(b, h), c) == Account(b, c)
  {
    hide InvBut, RemoveResting, SumQtyOf, OrderState.Refresh;
    StoredFit(b, Some(h), h);
    RemoveRestingStore(b, h);
    RefreshExposes(b.orders[h]);
  }

  lemma MatchStepAccount(b: BookState, id: OrderId, c: OrderId)
    requires MatchInv(b, id) && BestPrice(b, Opposite(b.orders[id].side)).Some? && c != id
    ensures Account(MatchStep(b, id), c) == Account(b, c)
  {
    hide Inv, InvBut, Fill, RemoveResting, Account, Head, BestPrice, Live, OrderState.AddFill, OrderState.Restable;
    FilledIsLive(b, id);
    FillKeeps(b, id);
    HeadFits(b, id);
    FillAccount(b, id, c);
    var f, h := Fill(b, id), Head(b, id);
    if f.orders[h].Pending() == 0 {
      ExhaustedHead(b.orders[h], TradeQty(b.orders[id], b.orders[h]));
      RemoveRestingAccount(f, h, c);
    }
  }

  lemma {:induction false} MatchLoopAccount(b: BookState, id: OrderId, respectPrice: bool, c: OrderId)
    requires MatchInv(b, id) && c != id
    ensures Account(MatchLoop(b, id, respectPrice), c) == Account(b, c)
    decreases b.orders[id].Pending(), |b.orders|
  {
    hide Inv, MatchStep, Account, BestPrice;
    if CanMatch(b, id, respectPrice) {
      MatchStepKeeps(b, id);
      MatchStepAccount(b, id, c);
      MatchLoopAccount(MatchStep(b, id), id, respectPrice, c);
    }
  }

  lemma ExecuteAccount(b: BookState, id: OrderId, respectPrice: bool, allowRest: bool, c: OrderId)
    requires MatchInv(b, id) && c != id
    ensures Account(ExecuteMatch(b, id, respectPrice, allowRest), c) == Account(b, c)
  {
    hide Inv, MatchLoop, Rest, SumQtyOf, OrderState.Refresh;
    MatchLoopKeeps(b, id, respectPrice);
    MatchLoopAccount(b, id, respectPrice, c);
    var m := MatchLoop(b, id, respectPrice);
    StoredOrder(m, id);
    RestShape(m, id);
  }

  // ---- one operation --------------------------------------------------------------------------------

  lemma ProcessAccount(b: BookState, id: OrderId, c: OrderId)
    requires MatchInv(b, id) && c != id
    ensures Account(ProcessOrder(b, id), c) == Account(b, c)
  {
    hide Inv, ExecuteMatch, SumQtyOf, FokLiquidity, OrderState.Refresh;
    var o := b.orders[id];
    match o.kind {
      case LIMIT => ExecuteAccount(b, id, true, true, c);
      case MARKET => ExecuteAccount(b, id, false, false, c);
      case IOC => ExecuteAccount(b, id, true, false, c);
      case FOK => ExecuteAccount(b, id, true, false, c);
      case ICEBERG =>
        IcebergKeeps(b, id);
        ExecuteAccount(b.WithOrder(o.HandleIceberg()), id, true, true, c);
    }
  }

  /** The operation is not about order c. */
  predicate Spares(op: Op, c: OrderId) {
    match op
    case Add(o) => o.id != c
    case Cancel(id) => id != c
    case Modify(id, _, _) => id != c
  }

  lemma CancelAccount(b: BookState, id: OrderId, c: OrderId)
    requires Inv(b) && c != id
    ensures Account(CancelOrder(b, id).0, c) == Account(b, c)
  {
    hide Inv, Unqueue, SumQtyOf, Live;
    if Live(b, id) {
      UnqueueKeepsStore(b, id);
    }
  }

  lemma ReenterAccount(b: BookState, id: OrderId, price: Price, qty: Qty, c: OrderId)
    requires Inv(b) && Live(b, id) && c != id
    ensures Account(ReenterBook(b, id, price, qty), c) == Account(b, c)
  {
    hide Inv, Unqueue, ProcessOrder, SumQtyOf, Live;
    UnqueueKeepsStore(b, id);
    ReenteredIsStored(b, id, price, qty);
    var again := Reenter(b.orders[id], price, qty);
    if again.Some? {
      ProcessAccount(Unqueue(b, id).WithOrder(again.value), id, c);
    }
  }

  lemma ModifyAccount(b: BookState, id: OrderId, price: Price, qty: Qty, c: OrderId)
    requires Inv(b) && c != id
    ensures Account(ModifyOrder(b, id, price, qty), c) == Account(b, c)
  {
    hide InvBut, ReenterBook, ModifyInPlace, SumQtyOf, Live, OrderState.ModifyQty, OrderState.Refresh;
    if id in b.refs && b.refs[id].price in b.SideOf(b.refs[id].side).levels {
      IndexedOrder(b, id);
      var o := b.orders[id];
      if price == o.price && qty <= o.total {
        if o.ModifyQty(qty).Some? {
          InPlaceShape(b, id, o.ModifyQty(qty).value);
        }
      } else if Live(b, id) {
        ReenterAccount(b, id, price, qty, c);
      }
    }
  }

  lemma ApplyAccount(b: BookState, op: Op, c: OrderId)
    requires Inv(b) && Allowed(b, op) && Spares(op, c)
    ensures Account(Apply(b, op), c) == Account(b, c)
  {
    hide InvBut, ProcessOrder, CancelOrder, ModifyOrder;
    match op {
      case Add(o) =>
        AddedIsStored(b, o);
        ProcessAccount(b.WithOrder(o), o.id, c);
      case Cancel(id) => CancelAccount(b, id, c);
      case Modify(id, price, qty) => ModifyAccount(b, id, price, qty, c);
    }
  }

  // ---- its terms ------------------------------------------------------------------------------------

  /** Order c, if it is still stored in b', was stored in b and asked for the same at the same price. */
  ghost predicate TermsKept(b: BookState, b': BookState, c: OrderId) {
    c in b'.orders ==> c in b.orders && LaterOf(b.orders[c], b'.orders[c])
  }

  lemma FillTerms(b: BookState, id: OrderId, c: OrderId)
    requires MatchInv(b, id) && BestPrice(b, Opposite(b.orders[id].side)).Some? && c != id
    ensures TermsKept(b, Fill(b, id), c)
  {
    hide InvBut, Fill, Head, BestPrice, Live, OrderState.AddFill, OrderState.Restable;
    HeadIsLive(b, id);
    HeadFits(b, id);
    FillShape(b, id);
    FilledOrder(b.orders[Head(b, id)], TradeQty(b.orders[id], b.orders[Head(b, id)]));
  }

  lemma MatchStepTerms(b: BookState, id: OrderId, c: OrderId)
    requires MatchInv(b, id) && BestPrice(b, Opposite(b.orders[id].side)).Some? && c != id
    ensures TermsKept(b, MatchStep(b, id), c)
  {
    hide Inv, InvBut, Fill, RemoveResting, Head, BestPrice, Live, OrderState.Refresh;
    FilledIsLive(b, id);
    FillKeeps(b, id);
    FillTerms(b, id, c);
    if Fill(b, id).orders[Head(b, id)].Pending() == 0 {
      RemoveRestingStore(Fill(b, id), Head(b, id));
    }
  }

  lemma {:induction false} MatchLoopTerms(b: BookState, id: OrderId, respectPrice: bool, c: OrderId)
    requires MatchInv(b, id) && c != id
    ensures TermsKept(b, MatchLoop(b, id, respectPrice), c)
    decreases b.orders[id].Pending(), |b.orders|
  {
    hide Inv, MatchStep, BestPrice;
    if CanMatch(b, id, respectPrice) {
      MatchStepKeeps(b, id);
      MatchStepTerms(b, id, c);
      MatchLoopTerms(MatchStep(b, id), id, respectPrice, c);
    }
  }

  lemma ExecuteTerms(b: BookState, id: OrderId, respectPrice: bool, allowRest: bool, c: OrderId)
    requires MatchInv(b, id) && c != id
    ensures TermsKept(b, ExecuteMatch(b, id, respectPrice, allowRest), c)
  {
    hide Inv, MatchLoop, Rest, OrderState.Refresh;
    MatchLoopKeeps(b, id, respectPrice);
    MatchLoopTerms(b, id, respectPrice, c);
    var m := MatchLoop(b, id, respectPrice);
    StoredOrder(m, id);
    RestShape(m, id);
  }

  lemma ProcessTerms(b: BookState, id: OrderId, c: OrderId)
    requires MatchInv(b, id) && c != id
    ensures TermsKept(b, ProcessOrder(b, id), c)
  {
    hide Inv, ExecuteMatch, FokLiquidity, OrderState.Refresh;
    var o := b.orders[id];
    match o.kind {
      case LIMIT => ExecuteTerms(b, id, true, true, c);
      case MARKET => ExecuteTerms(b, id, false, false, c);
      case IOC => ExecuteTerms(b, id, true, false, c);
      case FOK => ExecuteTerms(b, id, true, false, c);
      case ICEBERG =>
        IcebergKeeps(b, id);
        ExecuteTerms(b.WithOrder(o.HandleIceberg()), id, true, true, c);
    }
  }

  lemma ModifyTerms(b: BookState, id: OrderId, price: Price, qty: Qty, c: OrderId)
    requires Inv(b) && c != id
    ensures TermsKept(b, ModifyOrder(b, id, price, qty), c)
  {
    hide InvBut, Unqueue, ProcessOrder, ModifyInPlace, Live, OrderState.ModifyQty, OrderState.Refresh;
    if id in b.refs && b.refs[id].price in b.SideOf(b.refs[id].side).levels {
      IndexedOrder(b, id);
      var o := b.orders[id];
      if price == o.price && qty <= o.total {
        if o.ModifyQty(qty).Some? {
          InPlaceShape(b, id, o.ModifyQty(qty).value);
        }
      } else if Live(b, id) {
        UnqueueKeepsStore(b, id);
        ReenteredIsStored(b, id, price, qty);
        if Reenter(o, price, qty).Some? {
          ProcessTerms(Unqueue(b, id).WithOrder(Reenter(o, price, qty).value), id, c);
        }
      }
    }
  }

  lemma ApplyTerms(b: BookState, op: Op, c: OrderId)
    requires Inv(b) && Allowed(b, op) && Spares(op, c)
    ensures TermsKept(b, Apply(b, op), c)
  {
    hide InvBut, ProcessOrder, Unqueue, ModifyOrder, Live;
    match op {
      case Add(o) =>
        AddedIsStored(b, o);
        ProcessTerms(b.WithOrder(o), o.id, c);
      case Cancel(id) =>
        if Live(b, id) {
          UnqueueKeepsStore(b, id);
        }
      case Modify(id, price, qty) => ModifyTerms(b, id, price, qty, c);
    }
  }

  // ---- runs -----------------------------------------------------------------------------------------

  /** Over any run that is not about order c, the order keeps its side, price, total, display quantity and
      kind, and what is filled of it only grows, for as long as it is stored. */
  lemma {:induction false} TermsOverRuns(b: BookState, ops: seq<Op>, b': BookState, c: OrderId)
    requires Inv(b) && Runs(b, ops, b')
    requires forall i :: 0 <= i < |ops| ==> Spares(ops[i], c)
    ensures c in b'.orders ==> c in b.orders && LaterOf(b.orders[c], b'.orders[c])
    decreases |ops|
  {
    hide Inv, Apply, Spares;
    if ops != [] {
      ApplyKeeps(b, ops[0]);
      ApplyTerms(b, ops[0], c);
      TermsOverRuns(Apply(b, ops[0]), ops[1..], b', c);
    }
  }

  /** Over any run that is not about order c, what the order loses is exactly what the trades against
      it report; so when an iceberg is gone, its clips have added up to what it had left at the start. */
  lemma {:induction false} ClipsAddUp(b: BookState, ops: seq<Op>, b': BookState, c: OrderId)
    requires Inv(b) && Runs(b, ops, b')
    requires forall i :: 0 <= i < |ops| ==> Spares(ops[i], c)
    ensures Left(b', c) + SumQtyOf(b'.trades, c) == Left(b, c) + SumQtyOf(b.trades, c)
    ensures c !in b'.orders ==> SumQtyOf(b'.trades, c) - SumQtyOf(b.trades, c) == Left(b, c)
    decreases |ops|
  {
    hide Inv, Apply, SumQtyOf, Spares, OrderState.Remaining;
    if ops != [] {
      ApplyKeeps(b, ops[0]);
      ApplyAccount(b, ops[0], c);
      ClipsAddUp(Apply(b, ops[0]), ops[1..], b', c);
    }
  }
}
