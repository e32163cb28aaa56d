/**
  Time priority over whole runs.  Coming to rest puts an order last; nothing else moves orders past
  one another; and so no order is ever overtaken while it waits.
 */
module TimePriority {
  import opened Types
  import opened Orders
  import opened PriceWindows
  import opened BookSpec
  import opened BookInvariant
  import opened BookOps
  import opened FlatBooks
  import opened Simulation
  import opened RunProperties
  import opened Conservation
  import opened BookTotals

  /** Order c is in the queue of side s at price p. */
  ghost predicate QueuedAt(b: BookState, s: Side, p: Price, c: OrderId) {
    exists i :: 0 <= i < |b.Queue(s, p)| && b.Queue(s, p)[i].id == c
  }

  /** Order d is in front of order c in the queue of side s at price p. */
  ghost predicate InFront(b: BookState, s: Side, p: Price, d: OrderId, c: OrderId) {
    exists i, j :: 0 <= i < j < |b.Queue(s, p)| && b.Queue(s, p)[i].id == d && b.Queue(s, p)[j].id == c
  }

  ghost predicate LastAt(b: BookState, s: Side, p: Price, c: OrderId) {
    var q := b.Queue(s, p);
    q != [] && q[|q| - 1].id == c
  }

  /** From b to b' order c has not moved to another queue and nobody has got in front of it. */
  ghost predicate KeepsRank(b: BookState, b': BookState, c: OrderId) {
    && (forall s, p {:trigger QueuedAt(b', s, p, c)} :: s != INVALID && QueuedAt(b', s, p, c) ==> QueuedAt(b, s, p, c))
    && (forall s, p, d {:trigger InFront(b', s, p, d, c)} :: s != INVALID && InFront(b', s, p, d, c) ==>
      InFront(b, s, p, d, c))
  }

  lemma RankThrough(b: BookState, b1: BookState, b2: BookState, c: OrderId)
    requires KeepsRank(b, b1, c) && KeepsRank(b1, b2, c)
    ensures KeepsRank(b, b2, c)
  {
    hide QueuedAt, InFront;
  }

  // ---- what each change of the book does to ranks ---------------------------------------------------

  lemma SameRank(b: BookState, b': BookState, c: OrderId)
    requires forall s, p {:trigger b'.Queue(s, p)} :: s != INVALID ==> b'.Queue(s, p) == b.Queue(s, p)
    ensures KeepsRank(b, b', c)
  {
    forall s, p | s != INVALID && QueuedAt(b', s, p, c)
      ensures QueuedAt(b, s, p, c)
    {
      assert b'.Queue(s, p) == b.Queue(s, p);
    }
    forall s, p, d | s != INVALID && InFront(b', s, p, d, c)
      ensures InFront(b, s, p, d, c)
    {
      assert b'.Queue(s, p) == b.Queue(s, p);
    }
  }

  /** An order that leaves lets the others keep their order. */
  lemma UnqueueRank(b: BookState, x: Option<OrderId>, id: OrderId, c: OrderId)
    requires InvBut(b, x) && Live(b, id)
    ensures KeepsRank(b, Unqueue(b, id), c)
  {
    hide InvBut, Unqueue, Live, EntryOk, LevelOk;
    var k := LivePlace(b, x, id);
    var b' := Unqueue(b, id);
    forall s, p | s != INVALID && QueuedAt(b', s, p, c)
      ensures QueuedAt(b, s, p, c)
    {
      UnqueuedQueue(b, x, id, k, s, p);
      var i :| 0 <= i < |b'.Queue(s, p)| && b'.Queue(s, p)[i].id == c;
      var i' := WasAt(b, b', s, p, k, i);
    }
    forall s, p, d | s != INVALID && InFront(b', s, p, d, c)
      ensures InFront(b, s, p, d, c)
    {
      UnqueuedQueue(b, x, id, k, s, p);
      var i, j :| 0 <= i < j < |b'.Queue(s, p)| && b'.Queue(s, p)[i].id == d && b'.Queue(s, p)[j].id == c;
      var i' := WasAt(b, b', s, p, k, i);
      var j' := WasAt(b, b', s, p, k, j);
    }
  }

  /** Where an entry of a queue was before the k-th one left it. */
  lemma WasAt(b: BookState, b': BookState, s: Side, p: Price, k: nat, i: nat) returns (i': nat)
    requires i < |b'.Queue(s, p)|
    requires b'.Queue(s, p) == b.Queue(s, p) ||
      (k < |b.Queue(s, p)| && b'.Queue(s, p) == b.Queue(s, p)[..k] + b.Queue(s, p)[k + 1..])
    ensures i' < |b.Queue(s, p)| && b.Queue(s, p)[i'] == b'.Queue(s, p)[i]
    ensures i' == if b'.Queue(s, p) == b.Queue(s, p) || i < k then i else i + 1
  {
    i' := if b'.Queue(s, p) == b.Queue(s, p) || i < k then i else i + 1;
  }

  /** An order that comes to rest is the last of its queue, and gets in front of nobody. */
  lemma RestRank(b: BookState, id: OrderId, c: OrderId)
    requires MatchInv(b, id)
    ensures c != id ==> KeepsRank(b, Rest(b, id), c)
    ensures LastAt(Rest(b, id), b.orders[id].side, b.orders[id].price, id)
  {
    hide Inv, Rest, SideState.EnsureLevel;
    StoredOrder(b, id);
    var b' := Rest(b, id);
    RestedQueue(b, id, b.orders[id].side, b.orders[id].price);
    if c != id {
      forall s, p | s != INVALID && QueuedAt(b', s, p, c)
        ensures QueuedAt(b, s, p, c)
      {
        RestedQueue(b, id, s, p);
      }
      forall s, p, d | s != INVALID && InFront(b', s, p, d, c)
        ensures InFront(b, s, p, d, c)
      {
        RestedQueue(b, id, s, p);
      }
    }
  }

  /** A resting order that gives way passes nobody; with a new clip it is the last of its queue. */
  lemma RemoveRestingRank(b: BookState, h: OrderId, c: OrderId)
    requires InvBut(b, Some(h)) && Live(b, h)
    ensures h in b.orders
    ensures c != h || !b.orders[h].HasDisplay() || b.orders[h].Remaining() == 0 ==> KeepsRank(b, RemoveResting(b, h), c)
    ensures b.orders[h].HasDisplay() && b.orders[h].Remaining() > 0 ==>
      LastAt(RemoveResting(b, h), b.orders[h].side, b.orders[h].price, h)
  {
    hide InvBut, Unqueue, Rest, KeepsRank, LastAt, OrderState.Refresh;
    LiveInWindow(b, Some(h), h);
    StoredFit(b, Some(h), h);
    UnqueueKeeps(b, Some(h), h);
    UnqueueRank(b, Some(h), h, c);
    var o, b1 := b.orders[h], Unqueue(b, h);
    IndexedStored(b1);
    if o.HasDisplay() && o.Remaining() > 0 {
      RefreshExposes(o);
      var b2 := b1.(orders := b.orders[h := o.Refresh()]);
      assert b2 == b1.WithOrder(o.Refresh());
      SetOrderKeeps(b1, None, o.Refresh());
      SameRank(b1, b2, c);
      RestRank(b2, h, c);
      RankThrough(b, b1, b2, c);
      if c != h {
        RankThrough(b, b2, Rest(b2, h), c);
      }
    } else {
      SameRank(b1, Release(b1, h), c);
      RankThrough(b, b1, Release(b1, h), c);
    }
  }

  // ---- matching -------------------------------------------------------------------------------------

  /** From b to b' the trades against order c use up its clip, and it has another one in reserve. */
  predicate ShowsNextClip(b: BookState, b': BookState, c: OrderId) {
    && c in b.orders && b.orders[c].HasDisplay() && b.orders[c].Remaining() > b.orders[c].Pending()
    && SumQtyOf(b'.trades, c) >= SumQtyOf(b.trades, c) + b.orders[c].Pending()
  }

  /** What a round of the match loop does to a stored order. */
  lemma StepOn(b: BookState, id: OrderId, c: OrderId)
    requires MatchInv(b, id) && BestPrice(b, Opposite(b.orders[id].side)).Some? && c != id && b.orders[id].Pending() > 0
    ensures Head(b, id) in b.orders
    ensures var t := if c == Head(b, id) then TradeQty(b.orders[id], b.orders[c]) else 0; var b' := MatchStep(b, id);
      && SumQtyOf(b'.trades, c) == SumQtyOf(b.trades, c) + t
      && (c in b'.orders ==> c in b.orders)
      && (c in b'.orders && c != Head(b, id) ==> b'.orders[c] == b.orders[c])
      && (c == Head(b, id) ==>
            var o := b.orders[c].AddFill(t);
            && o.Pending() == b.orders[c].Pending() - t && o.Remaining() == b.orders[c].Remaining() - t
            && o.HasDisplay() == b.orders[c].HasDisplay()
            && (o.Pending() > 0 ==> c in b'.orders && b'.orders[c] == o)
            && (o.Pending() == 0 && !(o.HasDisplay() && o.Remaining() > 0) ==> c !in b'.orders))
  {
    hide Inv, InvBut, Fill, RemoveResting, Head, BestPrice, SumQtyOf, Live, OrderState.AddFill, OrderState.Restable,
      OrderState.Refresh;
    IndexedStored(b);
    HeadIsLive(b, id);
    HeadFits(b, id);
    FillShape(b, id);
    FilledIsLive(b, id);
    FillKeeps(b, id);
    StoredFit(b, None, Head(b, id));
    var o, h := b.orders[id], Head(b, id);
    FilledOrder(b.orders[h], TradeQty(o, b.orders[h]));
    SumAppend(b.trades, TradeOf(o, b.orders[h]), c);
    if Fill(b, id).orders[h].Pending() == 0 {
      RemoveRestingStore(Fill(b, id), h);
    }
  }

  lemma MatchStepRank(b: BookState, id: OrderId, c: OrderId)
    requires MatchInv(b, id) && BestPrice(b, Opposite(b.orders[id].side)).Some? && c != id && b.orders[id].Pending() > 0
    requires !ShowsNextClip(b, MatchStep(b, id), c)
    ensures KeepsRank(b, MatchStep(b, id), c)
  {
    hide Inv, InvBut, Fill, RemoveResting, Head, BestPrice, SumQtyOf, KeepsRank, LastAt, Live, OrderState.AddFill,
      OrderState.Restable;
    HeadIsLive(b, id);
    FilledIsLive(b, id);
    FillKeeps(b, id);
    StepOn(b, id, c);
    var f, h := Fill(b, id), Head(b, id);
    forall s, p | s != INVALID
      ensures f.Queue(s, p) == b.Queue(s, p)
    {
      FillQueues(b, id, s, p);
    }
    SameRank(b, f, c);
    if f.orders[h].Pending() == 0 {
      RemoveRestingRank(f, h, c);
      RankThrough(b, f, RemoveResting(f, h), c);
    }
  }

  lemma {:induction false} MatchLoopRank(b: BookState, id: OrderId, respectPrice: bool, c: OrderId)
    requires MatchInv(b, id) && c != id
    ensures SumQtyOf(MatchLoop(b, id, respectPrice).trades, c) >= SumQtyOf(b.trades, c)
    ensures !ShowsNextClip(b, MatchLoop(b, id, respectPrice), c) ==> KeepsRank(b, MatchLoop(b, id, respectPrice), c)
    decreases b.orders[id].Pending(), |b.orders|
  {
    hide Inv, MatchStep, BestPrice, Head, KeepsRank, SumQtyOf, OrderState.AddFill;
    if CanMatch(b, id, respectPrice) {
      MatchStepKeeps(b, id);
      var b1 := MatchStep(b, id);
      MatchLoopRank(b1, id, respectPrice, c);
      StepOn(b, id, c);
      if !ShowsNextClip(b, MatchLoop(b, id, respectPrice), c) {
        MatchStepRank(b, id, c);
        RankThrough(b, b1, MatchLoop(b1, id, respectPrice), c);
      }
    } else {
      SameRank(b, b, c);
    }
  }

  lemma ExecuteRank(b: BookState, id: OrderId, respectPrice: bool, allowRest: bool, c: OrderId)
    requires MatchInv(b, id) && c != id
    requires !ShowsNextClip(b, ExecuteMatch(b, id, respectPrice, allowRest), c)
    ensures KeepsRank(b, ExecuteMatch(b, id, respectPrice, allowRest), c)
  {
    hide Inv, MatchLoop, Rest, KeepsRank, LastAt, SumQtyOf, OrderState.Refresh, SideState.EnsureLevel;
    MatchLoopKeeps(b, id, respectPrice);
    MatchLoopRank(b, id, respectPrice, c);
    var m := MatchLoop(b, id, respectPrice);
    StoredOrder(m, id);
    RestShape(m, id);
    if allowRest && m.orders[id].Pending() > 0 {
      RestRank(m, id, c);
      RankThrough(b, m, Rest(m, id), c);
    } else {
      SameRank(m, Release(m, id), c);
      RankThrough(b, m, Release(m, id), c);
    }
  }

  lemma ExecuteLast(b: BookState, id: OrderId, respectPrice: bool, allowRest: bool)
    requires MatchInv(b, id) && id in ExecuteMatch(b, id, respectPrice, allowRest).orders
    ensures LastAt(ExecuteMatch(b, id, respectPrice, allowRest), b.orders[id].side, b.orders[id].price, id)
  {
    hide Inv, MatchLoop, Rest, LastAt;
    MatchLoopKeeps(b, id, respectPrice);
    RestRank(MatchLoop(b, id, respectPrice), id, id);
  }

  // ---- one operation --------------------------------------------------------------------------------

  lemma ProcessRank(b: BookState, id: OrderId, c: OrderId)
    requires MatchInv(b, id) && c != id
    requires !ShowsNextClip(b, ProcessOrder(b, id), c)
    ensures KeepsRank(b, ProcessOrder(b, id), c)
  {
    hide Inv, ExecuteMatch, KeepsRank, SumQtyOf, FokLiquidity, OrderState.Refresh;
    var o := b.orders[id];
    match o.kind {
      case LIMIT => ExecuteRank(b, id, true, true, c);
      case MARKET => ExecuteRank(b, id, false, false, c);
      case IOC => ExecuteRank(b, id, true, false, c);
      case FOK =>
        if FokLiquidity(b, o) {
          ExecuteRank(b, id, true, false, c);
        } else {
          SameRank(b, Release(b, id), c);
        }
      case ICEBERG =>
        IcebergKeeps(b, id);
        var b1 := b.WithOrder(o.HandleIceberg());
        SameRank(b, b1, c);
        ExecuteRank(b1, id, true, true, c);
        RankThrough(b, b1, ExecuteMatch(b1, id, true, true), c);
    }
  }

  /** An order that is processed and stays on the book is the last of its queue. */
  lemma ProcessLast(b: BookState, id: OrderId)
    requires MatchInv(b, id) && id in ProcessOrder(b, id).orders
    ensures LastAt(ProcessOrder(b, id), b.orders[id].side, b.orders[id].price, id)
  {
    hide Inv, ExecuteMatch, LastAt, FokLiquidity, OrderState.Refresh;
    var o := b.orders[id];
    match o.kind {
      case LIMIT => ExecuteLast(b, id, true, true);
      case MARKET => ExecuteLast(b, id, false, false);
      case IOC => ExecuteLast(b, id, true, false);
      case FOK => ExecuteLast(b, id, true, false);
      case ICEBERG =>
        IcebergKeeps(b, id);
        ExecuteLast(b.WithOrder(o.HandleIceberg()), id, true, true);
    }
  }

  /** An added order that stays on the book is the last of its queue. */
  lemma AddedIsLast(b: BookState, o: OrderState)
    requires Inv(b) && Addable(b, o) && o.id in AddOrder(b, o).orders
    ensures LastAt(AddOrder(b, o), o.side, o.price, o.id)
  {
    hide InvBut, ProcessOrder, LastAt;
    AddedIsStored(b, o);
    ProcessLast(b.WithOrder(o), o.id);
  }

  /** So is an order that a change of price or an increase of quantity sends through matching again. */
  lemma ReenteredIsLast(b: BookState, id: OrderId, price: Price, qty: Qty)
    requires Inv(b) && Reenters(b, id, price, qty) && id in ModifyOrder(b, id, price, qty).orders
    ensures LastAt(ModifyOrder(b, id, price, qty), b.orders[id].side, price, id)
  {
    hide InvBut, Unqueue, ProcessOrder, LastAt, OrderState.Restable;
    LiveFits(b, id);
    ReenteredIsStored(b, id, price, qty);
    ProcessLast(Unqueue(b, id).WithOrder(Reenter(b.orders[id], price, qty).value), id);
  }

  /** A modification at the same price to no more quantity changes no queue. */
  lemma ShrinkKeepsQueues(b: BookState, id: OrderId, qty: Qty, s: Side, p: Price)
    requires Inv(b) && id in b.orders && qty <= b.orders[id].total && s != INVALID
    ensures ModifyOrder(b, id, b.orders[id].price, qty).Queue(s, p) == b.Queue(s, p)
  {
    hide InvBut, ModifyInPlace, OrderState.ModifyQty;
    if id in b.refs && b.refs[id].price in b.SideOf(b.refs[id].side).levels {
      var modified := b.orders[id].ModifyQty(qty);
      if modified.Some? {
        InPlaceShape(b, id, modified.value);
      }
    }
  }

  /** Cancelling takes one order out of its queue, if it is in one, and leaves the others in order. */
  lemma CancelKeepsOrder(b: BookState, id: OrderId, s: Side, p: Price) returns (k: nat)
    requires Inv(b) && s != INVALID
    ensures var q := b.Queue(s, p);
      if QueuedAt(b, s, p, id)
      then k < |q| && q[k].id == id && CancelOrder(b, id).0.Queue(s, p) == q[..k] + q[k + 1..]
      else CancelOrder(b, id).0.Queue(s, p) == q
  {
    hide Inv, InvBut, Unqueue, EntryOk, LevelOk;
    InvIsInvBut(b);
    if Live(b, id) {
      k := LivePlace(b, None, id);
      UnqueuedQueue(b, None, id, k, s, p);
    } else {
      k := 0;
      forall i | 0 <= i < |b.Queue(s, p)|
        ensures b.Queue(s, p)[i].id != id
      {
        QueuedIsLive(b, None, s, p, i);
      }
    }
  }

  /** The operation makes order c come to rest anew: it adds the order, sends it through matching again,
      or uses up its clip. */
  ghost predicate EntersAnew(b: BookState, op: Op, c: OrderId)
    requires Inv(b) && Allowed(b, op)
  {
    || (op.Add? && op.order.id == c)
    || (op.Modify? && op.id == c && Reenters(b, c, op.price, op.qty))
    || ShowsNextClip(b, Apply(b, op), c)
  }

  lemma CancelRank(b: BookState, id: OrderId, c: OrderId)
    requires Inv(b)
    ensures KeepsRank(b, CancelOrder(b, id).0, c)
  {
    hide Inv, InvBut, Unqueue, KeepsRank, Live;
    InvIsInvBut(b);
    if Live(b, id) {
      UnqueueKeepsStore(b, id);
      UnqueueRank(b, None, id, c);
      SameRank(Unqueue(b, id), Release(Unqueue(b, id), id), c);
      RankThrough(b, Unqueue(b, id), Release(Unqueue(b, id), id), c);
    } else {
      SameRank(b, CancelOrder(b, id).0, c);
    }
  }

  lemma ReenterRank(b: BookState, id: OrderId, price: Price, qty: Qty, c: OrderId)
    requires Inv(b) && Live(b, id) && (c == id ==> qty < b.orders[id].filled)
    requires !ShowsNextClip(b, ReenterBook(b, id, price, qty), c)
    ensures KeepsRank(b, ReenterBook(b, id, price, qty), c)
  {
    hide Inv, InvBut, Unqueue, ProcessOrder, KeepsRank, SumQtyOf, Live;
    InvIsInvBut(b);
    UnqueueKeepsStore(b, id);
    UnqueueRank(b, None, id, c);
    ReenteredIsStored(b, id, price, qty);
    var left := Unqueue(b, id);
    var again := Reenter(b.orders[id], price, qty);
    if again.None? {
      SameRank(left, ReenterBook(b, id, price, qty), c);
      RankThrough(b, left, ReenterBook(b, id, price, qty), c);
    } else {
      var b1 := left.WithOrder(again.value);
      SameRank(left, b1, c);
      RankThrough(b, left, b1, c);
      ProcessRank(b1, id, c);
      RankThrough(b, b1, ProcessOrder(b1, id), c);
    }
  }

  lemma ModifyRank(b: BookState, id: OrderId, price: Price, qty: Qty, c: OrderId)
    requires Inv(b) && !(c == id && Reenters(b, c, price, qty))
    requires !ShowsNextClip(b, ModifyOrder(b, id, price, qty), c)
    ensures KeepsRank(b, ModifyOrder(b, id, price, qty), c)
  {
    hide InvBut, ReenterBook, KeepsRank, SumQtyOf, Live, ModifyInPlace, OrderState.ModifyQty;
    SameRank(b, b, c);
    if id in b.refs && b.refs[id].price in b.SideOf(b.refs[id].side).levels {
      IndexedOrder(b, id);
      var o := b.orders[id];
      if price == o.price && qty <= o.total {
        if o.ModifyQty(qty).Some? {
          InPlaceShape(b, id, o.ModifyQty(qty).value);
          SameRank(b, ModifyInPlace(b, id, o.ModifyQty(qty).value), c);
        }
      } else if Live(b, id) {
        ReenterRank(b, id, price, qty, c);
      }
    }
  }

  /** Whatever the operation does to other orders, it gets nobody in front of order c. */
  lemma ApplyRank(b: BookState, op: Op, c: OrderId)
    requires Inv(b) && Allowed(b, op) && !EntersAnew(b, op, c)
    ensures KeepsRank(b, Apply(b, op), c)
  {
    hide InvBut, ProcessOrder, CancelOrder, ModifyOrder, KeepsRank, SumQtyOf, Reenters;
    match op {
      case Add(o) =>
        AddedIsStored(b, o);
        var b1 := b.WithOrder(o);
        SameRank(b, b1, c);
        ProcessRank(b1, o.id, c);
        RankThrough(b, b1, ProcessOrder(b1, o.id), c);
      case Cancel(id) => CancelRank(b, id, c);
      case Modify(id, price, qty) => ModifyRank(b, id, price, qty, c);
    }
  }

  // ---- runs -----------------------------------------------------------------------------------------

  /** Order c does not come to rest anew during the run. */
  ghost predicate Waits(b: BookState, ops: seq<Op>, c: OrderId)
    requires Inv(b)
    decreases |ops|
  {
    ops == [] ||
    (Allowed(b, ops[0]) && !EntersAnew(b, ops[0], c) && (ApplyKeeps(b, ops[0]); Waits(Apply(b, ops[0]), ops[1..], c)))
  }

  /** Nobody overtakes: whoever is in front of a waiting order after a run was in front of it before,
      whatever the run did to the other orders. */
  lemma {:induction false} NobodyOvertakes(b: BookState, ops: seq<Op>, b': BookState, c: OrderId)
    requires Inv(b) && Runs(b, ops, b') && Waits(b, ops, c)
    ensures KeepsRank(b, b', c)
    decreases |ops|
  {
    hide Inv, Apply, KeepsRank, EntersAnew;
    if ops == [] {
      SameRank(b, b, c);
    } else {
      ApplyKeeps(b, ops[0]);
      ApplyRank(b, ops[0], c);
      NobodyOvertakes(Apply(b, ops[0]), ops[1..], b', c);
      RankThrough(b, Apply(b, ops[0]), b', c);
    }
  }

  /** Of two orders of a queue, the one in front stays in front at every later point where both are in
      one queue, as long as it waits. */
  lemma StaysInFront(b: BookState, ops: seq<Op>, b': BookState, s: Side, p: Price, c: OrderId, d: OrderId, s': Side,
      p': Price)
    requires Inv(b) && Runs(b, ops, b') && Waits(b, ops, c) && s != INVALID && s' != INVALID
    requires InFront(b, s, p, c, d) && QueuedAt(b', s', p', c) && QueuedAt(b', s', p', d)
    ensures s' == s && p' == p && InFront(b', s, p, c, d)
  {
    hide InvBut, Runs, Waits;
    NobodyOvertakes(b, ops, b', c);
    OnePlace(b, s, p, c, d, s', p');
    var i :| 0 <= i < |b'.Queue(s, p)| && b'.Queue(s, p)[i].id == c;
    var j :| 0 <= j < |b'.Queue(s, p)| && b'.Queue(s, p)[j].id == d;
    assert j < i ==> InFront(b', s, p, d, c);
  }

  lemma OnePlace(b: BookState, s: Side, p: Price, c: OrderId, d: OrderId, s': Side, p': Price)
    requires Inv(b) && s != INVALID && s' != INVALID && InFront(b, s, p, c, d) && QueuedAt(b, s', p', c)
    ensures s' == s && p' == p && c != d && !InFront(b, s, p, d, c)
  {
    var i, j :| 0 <= i < j < |b.Queue(s, p)| && b.Queue(s, p)[i].id == c && b.Queue(s, p)[j].id == d;
    var k :| 0 <= k < |b.Queue(s', p')| && b.Queue(s', p')[k].id == c;
    QueuedIsLive(b, None, s, p, i);
    QueuedIsLive(b, None, s', p', k);
    OnlyOnce(b, s, p);
  }

  // ---- entry times ----------------------------------------------------------------------------------

  /** After any run from the empty book each queue is in the order in which its orders last came to
      rest: by the entry times that the naive book, given the same operations, has stamped on them. */
  lemma SortedByEntry(ops: seq<Op>, b: BookState, s: Side, p: Price, i: nat, j: nat)
    requires Inv(EMPTY_BOOK) && Sim(EMPTY_BOOK, EMPTY_FLAT) && FlatOk(EMPTY_FLAT) && Runs(EMPTY_BOOK, ops, b)
    requires s != INVALID && i < j < |b.Queue(s, p)|
    ensures var list := FlatAfter(EMPTY_BOOK, EMPTY_FLAT, ops, b).list;
      var k, l := IndexOf(list, b.Queue(s, p)[i].id), IndexOf(list, b.Queue(s, p)[j].id);
      k.Some? && l.Some? && list[k.value].since < list[l.value].since
  {
    hide Inv, Sim, FlatOk, Runs, Pick, Resolve;
    BookRefinesFlat(EMPTY_BOOK, EMPTY_FLAT, ops, b);
    QueueByStamp(b, FlatAfter(EMPTY_BOOK, EMPTY_FLAT, ops, b), s, p, i, j);
  }

  lemma QueueByStamp(b: BookState, f: FlatBook, s: Side, p: Price, i: nat, j: nat)
    requires Inv(b) && Sim(b, f) && FlatOk(f) && s != INVALID && i < j < |b.Queue(s, p)|
    ensures var k, l := IndexOf(f.list, b.Queue(s, p)[i].id), IndexOf(f.list, b.Queue(s, p)[j].id);
      k.Some? && l.Some? && f.list[k.value].since < f.list[l.value].since
  {
    SimQueue(b, f, s, p);
    QueueIsStored(b, None, s, p);
    var k, l := PickOrder(f.list, s, p, i, j);
    SameIndex(f, k);
    SameIndex(f, l);
  }

  lemma SameIndex(f: FlatBook, k: nat)
    requires FlatOk(f) && k < |f.list|
    ensures IndexOf(f.list, f.list[k].order.id) == Some(k)
  {
  }

  /** Picking keeps the order of the list. */
  lemma {:induction false} PickOrder(list: seq<Resting>, s: Side, p: Price, i: nat, j: nat) returns (k: nat, l: nat)
    requires i < j < |Pick(list, s, p)|
    ensures k < l < |list|
    ensures list[k].order == Pick(list, s, p)[i] && list[l].order == Pick(list, s, p)[j]
  {
    var first := list[0].order.side == s && list[0].order.price == p;
    if first && i == 0 {
      k := 0;
      l := PickedIsListed(list[1..], s, p, j - 1);
      l := l + 1;
    } else {
      k, l := PickOrder(list[1..], s, p, if first then i - 1 else i, if first then j - 1 else j);
      k, l := k + 1, l + 1;
    }
  }
}
