/**
  What holds of every reachable book: queues, index, order store and price windows agree, no order
  exposes more than it has, no level claims more depth than its orders show, and the best bid is
  strictly below the best ask.
 */
module BookInvariant {
  import opened Types
  import opened Orders
  import opened PriceLevels
  import opened PriceWindows
  import opened BookSpec

  // ---- sums over a queue --------------------------------------------------------------------------

  /** What the orders of a queue show, or have left. */
  function SumQueue(q: seq<Entry>, orders: map<OrderId, OrderState>, m: Measure): nat {
    if q == [] then 0 else
    (if q[0].id in orders then Amount(m, orders[q[0].id]) else 0) + SumQueue(q[1..], orders, m)
  }

  lemma {:induction false} SumQueueFrame(q: seq<Entry>, orders: map<OrderId, OrderState>, orders': map<OrderId,
      OrderState>, m: Measure)
    requires forall i :: 0 <= i < |q| ==>
      q[i].id in orders && q[i].id in orders' && Amount(m, orders[q[i].id]) == Amount(m, orders'[q[i].id])
    ensures SumQueue(q, orders, m) == SumQueue(q, orders', m)
  {
    if q != [] {
      assert q[0].id in orders;
      SumQueueFrame(q[1..], orders, orders', m);
    }
  }

  lemma {:induction false} SumQueueConcat(q: seq<Entry>, r: seq<Entry>, orders: map<OrderId, OrderState>, m: Measure)
    ensures SumQueue(q + r, orders, m) == SumQueue(q, orders, m) + SumQueue(r, orders, m)
  {
    if q == [] {
      assert q + r == r;
    } else {
      SumQueueConcat(q[1..], r, orders, m);
      assert (q + r)[1..] == q[1..] + r;
    }
  }

  lemma SumQueueCut(q: seq<Entry>, k: nat, orders: map<OrderId, OrderState>, m: Measure)
    requires k < |q| && q[k].id in orders
    ensures SumQueue(q[..k] + q[k + 1..], orders, m) + Amount(m, orders[q[k].id]) == SumQueue(q, orders, m)
  {
    SumQueueConcat(q[..k], q[k + 1..], orders, m);
    SumQueueConcat(q[..k], q[k..], orders, m);
    assert q[..k] + q[k..] == q;
    assert q[k..][1..] == q[k + 1..];
  }

  // ---- the invariant ------------------------------------------------------------------------------

  /** A queued order is stored and indexed where it is queued, and is fit to rest; it may show
      nothing only if nothing is left, unless it is the excepted one. */
  ghost predicate EntryOk(s: Side, p: Price, e: Entry, b: BookState, except: Option<OrderId>) {
    && e.id in b.orders
    && e.id in b.refs && b.refs[e.id] == OrderRef(s, p, Some(e.slot))
    && b.orders[e.id].side == s && b.orders[e.id].price == p
    && b.orders[e.id].Restable()
    && (Some(e.id) == except || b.orders[e.id].Settled())
  }

  ghost predicate LevelOk(s: Side, p: Price, level: LevelState, b: BookState, except: Option<OrderId>) {
    && level.WellFormed()
    && level.queue != []
    && level.openQty <= SumQueue(level.queue, b.orders, Shown)
    && (forall i {:trigger level.queue[i]} :: 0 <= i < |level.queue| ==> EntryOk(s, p, level.queue[i], b, except))
  }

  ghost predicate SideOk(s: Side, st: SideState, b: BookState, except: Option<OrderId>) {
    && st.Windowed()
    && (forall p {:trigger st.levels[p]} :: p in st.levels ==> LevelOk(s, p, st.levels[p], b, except))
  }

  /** Every stored order is sane. */
  ghost predicate OrdersOk(b: BookState) {
    forall id {:trigger b.orders[id]} :: id in b.orders ==>
      b.orders[id].id == id && id != INVALID_ORDER && b.orders[id].side != INVALID && b.orders[id].Sane()
  }

  /** Every index entry is about a stored order with that side and price. */
  ghost predicate RefsOk(b: BookState) {
    forall id {:trigger b.refs[id]} :: id in b.refs ==>
      && id in b.orders
      && b.refs[id].side == b.orders[id].side && b.refs[id].price == b.orders[id].price
      && b.refs[id].slot.Some?
  }

  ghost predicate Uncrossed(b: BookState) {
    forall p, q :: p in b.bids.levels && q in b.asks.levels ==> p < q
  }

  ghost predicate InvBut(b: BookState, except: Option<OrderId>) {
    && OrdersOk(b)
    && RefsOk(b)
    && SideOk(BUY, b.bids, b, except)
    && SideOk(SELL, b.asks, b, except)
    && Uncrossed(b)
  }

  ghost predicate Inv(b: BookState) {
    InvBut(b, None)
  }

  /** The invariant while order id is being matched: it is stored but not on the book. */
  ghost predicate MatchInv(b: BookState, id: OrderId) {
    Inv(b) && id in b.orders && id !in b.refs
  }

  lemma EmptyBookOk()
    ensures Inv(EMPTY_BOOK)
  {
  }

  // ---- what the invariant gives -------------------------------------------------------------------

  /** The k-th entry of a queue is a live order, and the only entry of its id. */
  lemma QueuedIsLive(b: BookState, except: Option<OrderId>, s: Side, p: Price, k: nat)
    requires InvBut(b, except) && s != INVALID && k < |b.Queue(s, p)|
    ensures var e := b.Queue(s, p)[k];
      && EntryOk(s, p, e, b, except)
      && Live(b, e.id) && b.refs[e.id] == OrderRef(s, p, Some(e.slot))
  {
    assert b.SideOf(s).levels[p].queue[k] in b.Queue(s, p);
  }

  /** A live order has exactly one place. */
  lemma LivePlace(b: BookState, except: Option<OrderId>, id: OrderId) returns (k: nat)
    requires InvBut(b, except) && Live(b, id)
    ensures var ref := b.refs[id];
      && ref.side != INVALID
      && ref.price in b.SideOf(ref.side).levels
      && k < |b.Queue(ref.side, ref.price)|
      && b.Queue(ref.side, ref.price)[k] == Entry(id, ref.slot.value)
      && EntryOk(ref.side, ref.price, Entry(id, ref.slot.value), b, except)
      && LevelOk(ref.side, ref.price, b.SideOf(ref.side).levels[ref.price], b, except)
    ensures forall s, p, j :: s != INVALID && 0 <= j < |b.Queue(s, p)| && b.Queue(s, p)[j].id == id ==>
      s == b.refs[id].side && p == b.refs[id].price && j == k
  {
    var ref := b.refs[id];
    var q := b.Queue(ref.side, ref.price);
    assert b.orders[id].side != INVALID;
    k :| 0 <= k < |q| && q[k] == Entry(id, ref.slot.value);
    QueuedIsLive(b, except, ref.side, ref.price, k);
    forall s, p, j | s != INVALID && 0 <= j < |b.Queue(s, p)| && b.Queue(s, p)[j].id == id
      ensures s == ref.side && p == ref.price && j == k
    {
      QueuedIsLive(b, except, s, p, j);
    }
  }

  /** The order being matched. */
  lemma StoredOrder(b: BookState, id: OrderId)
    requires MatchInv(b, id)
    ensures Inv(b) && id in b.orders && id !in b.refs
    ensures b.orders[id].id == id && b.orders[id].side != INVALID && b.orders[id].Sane()
  {
  }

  lemma StoredFit(b: BookState, x: Option<OrderId>, id: OrderId)
    requires InvBut(b, x) && id in b.orders
    ensures var o := b.orders[id]; o.id == id && id != INVALID_ORDER && o.side != INVALID && o.Sane()
    ensures id in b.refs ==> b.refs[id].side == b.orders[id].side && b.refs[id].price == b.orders[id].price
  {
    assert b.orders[id] == b.orders[id];
  }

  lemma IndexedOrder(b: BookState, id: OrderId)
    requires Inv(b) && id in b.refs
    ensures id in b.orders && b.orders[id].id == id && b.orders[id].side == b.refs[id].side != INVALID
    ensures b.orders[id].price == b.refs[id].price && b.orders[id].Sane()
    ensures forall c :: c in b.refs ==> c in b.orders
    ensures InvBut(b, None)
  {
    assert b.refs[id] == b.refs[id] && b.orders[id] == b.orders[id];
  }

  lemma IndexedStored(b: BookState)
    requires Inv(b)
    ensures InvBut(b, None) && forall c :: c in b.refs ==> c in b.orders
  {
  }

  lemma LevelAt(b: BookState, s: Side, p: Price)
    requires Inv(b) && s != INVALID && p in b.SideOf(s).levels
    ensures LevelOk(s, p, b.SideOf(s).levels[p], b, None)
  {
  }

  lemma WindowedSide(b: BookState, s: Side)
    requires Inv(b)
    ensures b.SideOf(s).Windowed()
  {
  }

  // ---- frames -------------------------------------------------------------------------------------

  /** A level stays right when nothing is changed about the orders in its queue. */
  lemma LevelFrame(s: Side, p: Price, level: LevelState, b: BookState, x: Option<OrderId>, b': BookState,
      x': Option<OrderId>)
    requires LevelOk(s, p, level, b, x)
    requires forall i {:trigger level.queue[i]} :: 0 <= i < |level.queue| ==>
      var id := level.queue[i].id;
      && id in b'.orders && b'.orders[id] == b.orders[id]
      && id in b'.refs && b'.refs[id] == b.refs[id]
      && (x == Some(id) ==> x' == Some(id))
    ensures LevelOk(s, p, level, b', x')
  {
    SumQueueFrame(level.queue, b.orders, b'.orders, Shown);
  }

  /** A side stays right when nothing is changed about the orders indexed on it. */
  lemma SideFrame(s: Side, st: SideState, b: BookState, x: Option<OrderId>, b': BookState, x': Option<OrderId>)
    requires SideOk(s, st, b, x)
    requires forall id :: id in b.refs && b.refs[id].side == s ==>
      && id in b.orders && id in b'.orders && b'.orders[id] == b.orders[id]
      && id in b'.refs && b'.refs[id] == b.refs[id]
      && (x == Some(id) ==> x' == Some(id))
    ensures SideOk(s, st, b', x')
  {
    forall p | p in st.levels
      ensures LevelOk(s, p, st.levels[p], b', x')
    {
      hide LevelState.WellFormed;
      assert LevelOk(s, p, st.levels[p], b, x);
      LevelFrame(s, p, st.levels[p], b, x, b', x');
    }
  }

  /** An order that is not indexed may be stored or replaced. */
  lemma SetOrderKeeps(b: BookState, x: Option<OrderId>, o: OrderState)
    requires InvBut(b, x) && o.id !in b.refs
    requires o.id != INVALID_ORDER && o.side != INVALID && o.Sane()
    ensures InvBut(b.WithOrder(o), x)
  {
    var b' := b.WithOrder(o);
    assert OrdersOk(b') && RefsOk(b');
    hide SideOk;
    SideFrame(BUY, b.bids, b, x, b', x);
    SideFrame(SELL, b.asks, b, x, b', x);
  }

  /** An order that is not on the book may be dropped. */
  lemma ReleaseKeeps(b: BookState, id: OrderId)
    requires Inv(b) && id !in b.refs
    ensures Inv(Release(b, id)) && Release(b, id).refs == b.refs
  {
    var b' := Release(b, id);
    assert OrdersOk(b') && RefsOk(b');
    hide SideOk;
    SideFrame(BUY, b.bids, b, None, b', None);
    SideFrame(SELL, b.asks, b, None, b', None);
  }

  // ---- taking an order off the book ---------------------------------------------------------------

  /** The level an order leaves, when other orders stay behind. */
  lemma CutLevelOk(s: Side, p: Price, b: BookState, k: nat, x: Option<OrderId>, b': BookState)
    requires s != INVALID && p in b.SideOf(s).levels && LevelOk(s, p, b.SideOf(s).levels[p], b, x)
    requires k < |b.Queue(s, p)| && (x == None || x == Some(b.Queue(s, p)[k].id))
    requires b'.orders == b.orders && b'.refs == Drop(b.refs, b.Queue(s, p)[k].id)
    ensures var e := b.Queue(s, p)[k];
      var level := b.SideOf(s).levels[p].Remove(e, b.orders[e.id].Pending());
      && level.queue == b.Queue(s, p)[..k] + b.Queue(s, p)[k + 1..]
      && (level.queue != [] ==> LevelOk(s, p, level, b', None))
  {
    hide SumQueue, LevelState.WellFormed, Without, EntryOk, Drop;
    var was := b.SideOf(s).levels[p];
    var e := was.queue[k];
    assert EntryOk(s, p, was.queue[k], b, x);
    EntryStored(s, p, was.queue[k], b, x);
    RemoveKeepsWellFormed(was, k, b.orders[e.id].Pending());
    SumQueueCut(was.queue, k, b.orders, Shown);
    forall i | 0 <= i < |was.queue| && i != k
      ensures EntryOk(s, p, was.queue[i], b', None)
    {
      assert EntryOk(s, p, was.queue[i], b, x);
      DistinctSlots(was, i, k);
      EntryStays(s, p, was.queue[i], was.queue[k], b, x, b');
    }
  }

  lemma EntryStored(s: Side, p: Price, e: Entry, b: BookState, x: Option<OrderId>)
    requires EntryOk(s, p, e, b, x)
    ensures e.id in b.orders
  {
  }

  /** An entry does not notice that another one leaves. */
  lemma EntryStays(s: Side, p: Price, e: Entry, gone: Entry, b: BookState, x: Option<OrderId>, b': BookState)
    requires EntryOk(s, p, e, b, x) && EntryOk(s, p, gone, b, x) && e.slot != gone.slot
    requires x == None || x == Some(gone.id)
    requires b'.orders == b.orders && b'.refs == Drop(b.refs, gone.id)
    ensures EntryOk(s, p, e, b', None)
  {
  }

  lemma DistinctSlots(level: LevelState, i: nat, j: nat)
    requires level.WellFormed() && i < |level.queue| && j < |level.queue| && i != j
    ensures level.queue[i].slot != level.queue[j].slot
  {
  }

  /** Which parts of the book an order leaving it touches. */
  lemma UnqueueShape(b: BookState, id: OrderId)
    requires Live(b, id) && b.refs[id].side != INVALID
    ensures var b' := Unqueue(b, id);
      b'.refs == Drop(b.refs, id) && b'.orders == b.orders && b'.trades == b.trades
    ensures var b' := Unqueue(b, id); var ref := b.refs[id];
      && b'.SideOf(Opposite(ref.side)) == b.SideOf(Opposite(ref.side))
      && b'.SideOf(ref.side).base == b.SideOf(ref.side).base
      && b'.SideOf(ref.side).levels.Keys <= b.SideOf(ref.side).levels.Keys
      && Drop(b'.SideOf(ref.side).levels, ref.price) == Drop(b.SideOf(ref.side).levels, ref.price)
    ensures var ref := b.refs[id];
      var level := b.SideOf(ref.side).levels[ref.price].Remove(Entry(id, ref.slot.value), b.orders[id].Pending());
      ref.price in Unqueue(b, id).SideOf(ref.side).levels ==>
        level.queue != [] && Unqueue(b, id).SideOf(ref.side).levels[ref.price] == level
  {
    hide LevelState.Remove;
  }

  lemma UnqueueKeepsStore(b: BookState, id: OrderId)
    requires Live(b, id)
    ensures id in b.orders && Unqueue(b, id).orders == b.orders && Unqueue(b, id).trades == b.trades
    ensures id in b.refs && b.Queue(b.refs[id].side, b.refs[id].price) != []
    ensures b.refs[id].price in b.SideOf(b.refs[id].side).levels
  {
  }

  /** Taking a live order off the book, also the excepted one, keeps the invariant; only its own
      queue changes, and the order keeps its place in the store. */
  lemma UnqueueKeeps(b: BookState, x: Option<OrderId>, id: OrderId)
    requires InvBut(b, x) && Live(b, id) && (x == None || x == Some(id))
    ensures Inv(Unqueue(b, id)) && id !in Unqueue(b, id).refs
  {
    var k := LivePlace(b, x, id);
    var ref := b.refs[id];
    UnqueueShape(b, id);
    CutLevelOk(ref.side, ref.price, b, k, x, Unqueue(b, id));
    hide LevelOk, LevelState.Remove, Unqueue, InvBut;
    LeftBookOk(b, x, id, Unqueue(b, id));
  }

  /** A book that differs from a right one by one order that left it. */
  lemma LeftBookOk(b: BookState, x: Option<OrderId>, id: OrderId, b': BookState)
    requires InvBut(b, x) && id in b.refs && (x == None || x == Some(id))
    requires b'.refs == Drop(b.refs, id) && b'.orders == b.orders
    requires var ref := b.refs[id];
      && ref.side != INVALID
      && b'.SideOf(Opposite(ref.side)) == b.SideOf(Opposite(ref.side))
      && b'.SideOf(ref.side).base == b.SideOf(ref.side).base
      && b'.SideOf(ref.side).levels.Keys <= b.SideOf(ref.side).levels.Keys
      && Drop(b'.SideOf(ref.side).levels, ref.price) == Drop(b.SideOf(ref.side).levels, ref.price)
      && (ref.price in b'.SideOf(ref.side).levels ==>
            LevelOk(ref.side, ref.price, b'.SideOf(ref.side).levels[ref.price], b', None))
    ensures Inv(b')
  {
    hide LevelOk;
    assert OrdersOk(b') && RefsOk(b') && Uncrossed(b');
    var s, p := b.refs[id].side, b.refs[id].price;
    var st, st' := b.SideOf(s), b'.SideOf(s);
    forall r | r in st'.levels
      ensures LevelOk(s, r, st'.levels[r], b', None)
    {
      if r != p {
        assert st'.levels[r] == Drop(st'.levels, p)[r] == Drop(st.levels, p)[r] == st.levels[r];
        OtherLevelFrame(b, x, id, s, r, b');
      }
    }
    assert SideOk(s, st', b', None);
    SideFrame(Opposite(s), b.SideOf(Opposite(s)), b, x, b', None);
  }

  /** A queue without order id does not notice that id is no longer indexed. */
  lemma OtherLevelFrame(b: BookState, x: Option<OrderId>, id: OrderId, s: Side, r: Price, b': BookState)
    requires InvBut(b, x) && id in b.refs && (x == None || x == Some(id))
    requires s != INVALID && r in b.SideOf(s).levels && LevelOk(s, r, b.SideOf(s).levels[r], b, x)
    requires b.refs[id].side != s || b.refs[id].price != r
    requires b'.orders == b.orders && b'.refs == Drop(b.refs, id)
    ensures LevelOk(s, r, b.SideOf(s).levels[r], b', None)
  {
    LevelFrame(s, r, b.SideOf(s).levels[r], b, x, b', None);
  }

  // ---- putting an order on the book ---------------------------------------------------------------

  /** An order of a kind that may rest. */
  predicate MayRest(o: OrderState) {
    o.kind == LIMIT || (o.kind == ICEBERG && o.display > 0)
  }

  /** No opposite level is within the order's limit. */
  ghost predicate Clear(b: BookState, o: OrderState) {
    forall q :: q in b.SideOf(Opposite(o.side)).levels ==> !Crosses(o.side, o.price, q)
  }

  /** A level that takes in one more order. */
  lemma GrownLevelOk(level: LevelState, b: BookState, o: OrderState, b': BookState)
    requires level == EMPTY_LEVEL || LevelOk(o.side, o.price, level, b, None)
    requires o.id !in b.refs && o.id != INVALID_ORDER && o.Restable() && o.Settled()
    requires b'.orders == b.orders[o.id := o]
    requires b'.refs == b.refs[o.id := OrderRef(o.side, o.price, Some(level.NextSlot()))]
    ensures LevelOk(o.side, o.price, level.Add(o.id, o.Pending()), b', None)
  {
    var after := level.Add(o.id, o.Pending());
    var e := Entry(o.id, level.NextSlot());
    assert level.WellFormed();
    AddKeepsWellFormed(level, o.id, o.Pending());
    forall i | 0 <= i < |level.queue|
      ensures EntryOk(o.side, o.price, level.queue[i], b', None)
    {
      assert EntryOk(o.side, o.price, level.queue[i], b, None);
    }
    hide LevelState.WellFormed;
    SumQueueFrame(level.queue, b.orders, b'.orders, Shown);
    SumQueueConcat(level.queue, [e], b'.orders, Shown);
    assert SumQueue([e], b'.orders, Shown) == o.Pending() + SumQueue([], b'.orders, Shown);
    forall i | 0 <= i < |after.queue|
      ensures EntryOk(o.side, o.price, after.queue[i], b', None)
    {
      if i < |level.queue| {
        assert after.queue[i] == level.queue[i];
      } else {
        assert after.queue[i] == e;
      }
    }
  }

  /** What resting an order does to the parts of the book. */
  lemma RestShape(b: BookState, id: OrderId)
    requires id in b.orders && b.orders[id].id == id && b.orders[id].side != INVALID
    ensures var o := b.orders[id].Refresh(); var b' := Rest(b, id);
      var st := b.SideOf(o.side).EnsureLevel(o.side, o.price);
      && b'.orders == b.orders[id := o] && b'.trades == b.trades
      && o.price in st.levels
      && b'.refs == b.refs[id := OrderRef(o.side, o.price, Some(st.levels[o.price].NextSlot()))]
      && b'.SideOf(Opposite(o.side)) == b.SideOf(Opposite(o.side))
      && b'.SideOf(o.side) == st.SetLevel(o.price, st.levels[o.price].Add(id, o.Pending()))
  {
    hide LevelState.Add, OrderState.Refresh;
  }

  /** The side an order comes to rest on. */
  lemma GrownSideOk(st: SideState, b: BookState, o: OrderState, b': BookState)
    requires o.side != INVALID && SideOk(o.side, st, b, None)
    requires o.id !in b.refs && o.id != INVALID_ORDER && o.Restable() && o.Settled()
    requires RefsOk(b) && b'.orders == b.orders[o.id := o]
    requires o.price in st.EnsureLevel(o.side, o.price).levels
    requires var slot := st.EnsureLevel(o.side, o.price).levels[o.price].NextSlot();
      b'.refs == b.refs[o.id := OrderRef(o.side, o.price, Some(slot))]
    ensures var at := st.EnsureLevel(o.side, o.price);
      SideOk(o.side, at.SetLevel(o.price, at.levels[o.price].Add(o.id, o.Pending())), b', None)
  {
    hide LevelOk, LevelState.Add, LevelState.NextSlot, SideState.EnsureLevel, OrderState.Pending, OrderState.Restable;
    EnsureLevelKeeps(o.side, st, o.price);
    var at := st.EnsureLevel(o.side, o.price);
    NewLevelIsEmpty(o.side, st, o.price);
    assert o.price in st.levels ==> LevelOk(o.side, o.price, st.levels[o.price], b, None);
    GrownLevelOk(at.levels[o.price], b, o, b');
    SideFrame(o.side, st, b, None, b', None);
    var after := at.SetLevel(o.price, at.levels[o.price].Add(o.id, o.Pending()));
    forall p | p in after.levels
      ensures LevelOk(o.side, p, after.levels[p], b', None)
    {
      if p != o.price {
        assert after.levels[p] == at.levels[p] == st.levels[p];
      }
    }
  }

  lemma NewLevelIsEmpty(s: Side, st: SideState, price: Price)
    requires st.Windowed()
    ensures price in st.EnsureLevel(s, price).levels
    ensures st.EnsureLevel(s, price).levels[price] == if price in st.levels then st.levels[price] else EMPTY_LEVEL
  {
    EnsureLevelKeeps(s, st, price);
  }

  lemma StaysUncrossed(b: BookState, o: OrderState, b': BookState)
    requires Uncrossed(b) && o.side != INVALID && b.SideOf(o.side).Windowed()
    requires Clear(b, o)
    requires b'.SideOf(Opposite(o.side)) == b.SideOf(Opposite(o.side))
    requires b'.SideOf(o.side).levels.Keys == b.SideOf(o.side).EnsureLevel(o.side, o.price).levels.Keys + {o.price}
    ensures Uncrossed(b')
  {
    EnsureLevelKeeps(o.side, b.SideOf(o.side), o.price);
    hide SideState.EnsureLevel;
    forall p, q | p in b'.bids.levels && q in b'.asks.levels
      ensures p < q
    {
      assert o.side == BUY ==> p == o.price || p in b.bids.levels;
      assert o.side == SELL ==> q == o.price || q in b.asks.levels;
    }
  }

  /** Resting an order that does not cross keeps the invariant. */
  lemma RestKeeps(b: BookState, id: OrderId)
    requires MatchInv(b, id) && MayRest(b.orders[id]) && Clear(b, b.orders[id])
    ensures Inv(Rest(b, id))
  {
    hide SideOk, Rest, LevelState.Add, LevelState.NextSlot, SideState.EnsureLevel, OrderState.Refresh,
      OrderState.Restable;
    StoredFit(b, None, id);
    var o, b' := b.orders[id].Refresh(), Rest(b, id);
    var s := o.side;
    RestShape(b, id);
    RestsFit(b.orders[id]);
    RestStoreOk(b, id);
    WindowedSide(b, s);
    StaysUncrossed(b, o, b');
    GrownSideOk(b.SideOf(s), b, o, b');
    SideFrame(Opposite(s), b.SideOf(Opposite(s)), b, None, b', None);
  }

  lemma RestsFit(o: OrderState)
    requires o.Sane() && MayRest(o) && o.side != INVALID
    ensures o.Refresh().Restable() && o.Refresh().Settled() && o.Refresh().Sane()
  {
    RefreshExposes(o);
  }

  lemma RestStoreOk(b: BookState, id: OrderId)
    requires OrdersOk(b) && RefsOk(b) && id in b.orders && b.orders[id].Refresh().Sane()
    ensures OrdersOk(Rest(b, id)) && RefsOk(Rest(b, id))
  {
    hide SideState.EnsureLevel, LevelState.Add, LevelState.NextSlot, OrderState.Refresh;
    assert b.orders[id] == b.orders[id];
    RestShape(b, id);
    var b' := Rest(b, id);
    hide Rest;
    assert forall k :: k in b'.refs ==> k == id || (k in b.refs && b'.refs[k] == b.refs[k]);
  }

  // ---- one step of the match loop -----------------------------------------------------------------

  /** The order hit first is live, rests at the best opposite price, and is not the incoming one. */
  lemma HeadIsLive(b: BookState, id: OrderId)
    requires MatchInv(b, id) && BestPrice(b, Opposite(b.orders[id].side)).Some?
    ensures var s := Opposite(b.orders[id].side); var p := BestPrice(b, s).value; var h := Head(b, id);
      && p in b.SideOf(s).levels && LevelOk(s, p, b.SideOf(s).levels[p], b, None)
      && b.Queue(s, p) != [] && b.Queue(s, p)[0].id == h
      && EntryOk(s, p, b.Queue(s, p)[0], b, None)
      && Live(b, h) && h != id && b.refs[h] == OrderRef(s, p, Some(b.Queue(s, p)[0].slot))
  {
    var s := Opposite(b.orders[id].side);
    var p := BestPrice(b, s).value;
    assert p in b.SideOf(s).NonEmpty();
    QueuedIsLive(b, None, s, p, 0);
  }

  /** An order filled by no more than it shows. */
  lemma FilledOrder(o: OrderState, t: Qty)
    requires o.Sane() && t <= o.Pending()
    ensures o.AddFill(t) == o.(filled := o.filled + t) && o.AddFill(t).Sane()
    ensures o.AddFill(t).Pending() == o.Pending() - t && o.AddFill(t).Remaining() == o.Remaining() - t
    ensures o.Restable() ==> o.AddFill(t).Restable()
    ensures o.Settled() && o.AddFill(t).Pending() > 0 ==> o.AddFill(t).Settled()
  {
  }

  /** The level that is traded against. */
  lemma TradedLevelOk(s: Side, p: Price, level: LevelState, b: BookState, head: OrderState, t: Qty, b': BookState)
    requires LevelOk(s, p, level, b, None) && level.queue[0].id == head.id && head == b.orders[head.id]
    requires t <= head.Pending()
    requires b'.refs == b.refs && head.id in b'.orders && b'.orders[head.id] == head.AddFill(t)
    requires forall i :: 0 < i < |level.queue| ==> level.queue[i].id in b'.orders
    requires forall i :: 0 < i < |level.queue| ==> b'.orders[level.queue[i].id] == b.orders[level.queue[i].id]
    ensures LevelOk(s, p, level.(openQty := SaturatingSub(level.openQty, t)), b', Some(head.id))
  {
    var after := level.(openQty := SaturatingSub(level.openQty, t));
    assert EntryOk(s, p, level.queue[0], b, None);
    FilledOrder(head, t);
    SumQueueFrame(level.queue[1..], b.orders, b'.orders, Shown);
    assert SumQueue(after.queue, b'.orders, Shown) == SumQueue(level.queue, b.orders, Shown) - t;
    hide SumQueue;
    assert after.WellFormed();
    hide LevelState.WellFormed;
    forall i | 0 <= i < |level.queue|
      ensures EntryOk(s, p, after.queue[i], b', Some(head.id))
    {
      assert EntryOk(s, p, level.queue[i], b, None);
    }
  }

  /** What a fill does to the parts of the book. */
  lemma FillShape(b: BookState, id: OrderId)
    requires MatchInv(b, id) && BestPrice(b, Opposite(b.orders[id].side)).Some?
    requires Live(b, Head(b, id)) && Head(b, id) != id
    ensures var o, h := b.orders[id], Head(b, id); var head := b.orders[h];
      var s := Opposite(o.side); var p := BestPrice(b, s).value; var t := TradeQty(o, head); var b' := Fill(b, id);
      && b'.refs == b.refs && b'.orders == b.orders[id := o.AddFill(t)][h := head.AddFill(t)]
      && b'.trades == (if t > 0 then b.trades + [TradeOf(o, head)] else b.trades)
      && b'.SideOf(o.side) == b.SideOf(o.side)
      && p in b.SideOf(s).levels
      && b'.SideOf(s) == b.SideOf(s).SetLevel(p, b.SideOf(s).levels[p].(
           openQty := SaturatingSub(b.SideOf(s).levels[p].openQty, t)))
  {
    var s := Opposite(b.orders[id].side);
    assert BestPrice(b, s).value in b.SideOf(s).NonEmpty();
    hide InvBut;
  }

  /** A trade keeps the invariant, but its resting order may be left with nothing to show. */
  lemma FillKeeps(b: BookState, id: OrderId)
    requires MatchInv(b, id) && BestPrice(b, Opposite(b.orders[id].side)).Some?
    ensures Head(b, id) in b.orders && InvBut(Fill(b, id), Some(Head(b, id)))
  {
    HeadIsLive(b, id);
    FillShape(b, id);
    var o, h := b.orders[id], Head(b, id);
    var head := b.orders[h];
    var s := Opposite(o.side);
    var p := BestPrice(b, s).value;
    var t := TradeQty(o, head);
    var b' := Fill(b, id);
    FilledOrder(o, t);
    FilledOrder(head, t);
    var level := b.SideOf(s).levels[p];
    OnlyOnce(b, s, p);
    TradedLevelOk(s, p, level, b, head, t, b');
    hide Fill, Head, BestPrice, LevelOk, TradeQty, TradeOf, Live, InvBut;
    TradedBookOk(b, id, h, t, b');
  }

  /** Fills keep the store sane and the index right. */
  lemma TradedStoreOk(b: BookState, id: OrderId, h: OrderId, t: Qty, b': BookState)
    requires OrdersOk(b) && RefsOk(b) && id in b.orders && h in b.refs && t <= b.orders[id].Pending()
    requires t <= b.orders[h].Pending()
    requires b'.refs == b.refs
    requires b'.orders == b.orders[id := b.orders[id].AddFill(t)][h := b.orders[h].AddFill(t)]
    ensures OrdersOk(b') && RefsOk(b')
  {
    assert b.refs[h] == b.refs[h];
    assert b.orders[id].Sane() && b.orders[h].Sane();
    FilledOrder(b.orders[id], t);
    FilledOrder(b.orders[h], t);
    hide OrderState.AddFill;
  }

  /** A book that differs from a right one by a fill of a stored and a resting order. */
  lemma TradedBookOk(b: BookState, id: OrderId, h: OrderId, t: Qty, b': BookState)
    requires MatchInv(b, id) && h in b.refs && t <= b.orders[id].Pending() && t <= b.orders[h].Pending()
    requires b'.refs == b.refs
    requires b'.orders == b.orders[id := b.orders[id].AddFill(t)][h := b.orders[h].AddFill(t)]
    requires var s, p := b.refs[h].side, b.refs[h].price;
      && s == Opposite(b.orders[id].side)
      && b'.SideOf(b.orders[id].side) == b.SideOf(b.orders[id].side)
      && p in b.SideOf(s).levels && p in b'.SideOf(s).levels
      && b'.SideOf(s) == b.SideOf(s).SetLevel(p, b'.SideOf(s).levels[p])
      && LevelOk(s, p, b'.SideOf(s).levels[p], b', Some(h))
    ensures InvBut(b', Some(h))
  {
    hide LevelOk, OrdersOk, RefsOk, OrderState.AddFill;
    StoredFit(b, None, id);
    TradedStoreOk(b, id, h, t, b');
    var s, p := b.refs[h].side, b.refs[h].price;
    var st, st' := b.SideOf(s), b'.SideOf(s);
    forall r | r in st'.levels
      ensures LevelOk(s, r, st'.levels[r], b', Some(h))
    {
      if r != p {
        assert LevelOk(s, r, st.levels[r], b, None);
        ElsewhereFrame(b, s, r, h, b', id);
      }
    }
    assert SideOk(s, st', b', Some(h));
    IndexedStored(b);
    StoredFit(b, None, h);
    var own := b.orders[id].side;
    SideFrame(own, b.SideOf(own), b, None, b', Some(h));
  }

  /** In one queue every id occurs once. */
  lemma OnlyOnce(b: BookState, s: Side, p: Price)
    requires Inv(b) && s != INVALID
    ensures forall i, j :: 0 <= i < j < |b.Queue(s, p)| ==> b.Queue(s, p)[i].id != b.Queue(s, p)[j].id
  {
    forall i, j | 0 <= i < j < |b.Queue(s, p)|
      ensures b.Queue(s, p)[i].id != b.Queue(s, p)[j].id
    {
      QueuedIsLive(b, None, s, p, i);
      QueuedIsLive(b, None, s, p, j);
      DistinctSlots(b.SideOf(s).levels[p], i, j);
    }
  }

  /** The other levels of the side do not notice a trade. */
  lemma ElsewhereFrame(b: BookState, s: Side, r: Price, h: OrderId, b': BookState, id: OrderId)
    requires Inv(b) && s != INVALID && r in b.SideOf(s).levels && LevelOk(s, r, b.SideOf(s).levels[r], b, None)
    requires id !in b.refs && h in b.refs && b.refs[h].price != r
    requires b'.refs == b.refs && forall k :: k in b.orders && k != id && k != h ==>
      k in b'.orders && b'.orders[k] == b.orders[k]
    ensures LevelOk(s, r, b.SideOf(s).levels[r], b', Some(h))
  {
    var level := b.SideOf(s).levels[r];
    forall i | 0 <= i < |level.queue|
      ensures level.queue[i].id != id && level.queue[i].id != h
    {
      assert EntryOk(s, r, level.queue[i], b, None);
    }
    hide LevelOk;
    LevelFrame(s, r, level, b, None, b', Some(h));
  }

  /** A resting order stays clear of the other side when it leaves for a moment. */
  lemma StillClear(b: BookState, id: OrderId)
    requires InvBut(b, Some(id)) && Live(b, id)
    ensures b.orders[id].side != INVALID
    ensures Clear(Unqueue(b, id).WithOrder(b.orders[id].Refresh()), b.orders[id].Refresh())
  {
    hide OrderState.Refresh, LevelState.Remove;
    var k := LivePlace(b, Some(id), id);
    UnqueueShape(b, id);
    hide Unqueue, LevelOk, EntryOk;
  }

  /** A resting order that shows nothing gives way; the book is right again. */
  lemma RemoveRestingKeeps(b: BookState, id: OrderId)
    requires InvBut(b, Some(id)) && Live(b, id)
    requires b.orders[id].HasDisplay() || b.orders[id].Remaining() == 0
    ensures Inv(RemoveResting(b, id))
  {
    hide InvBut, Unqueue, Rest, Live, LevelOk, EntryOk, OrderState.Restable, OrderState.Refresh;
    UnqueueKeepsStore(b, id);
    StoredFit(b, Some(id), id);
    UnqueueKeeps(b, Some(id), id);
    var o := b.orders[id];
    var b1 := Unqueue(b, id);
    IndexedStored(b1);
    if o.HasDisplay() && o.Remaining() > 0 {
      RefreshExposes(o);
      SetOrderKeeps(b1, None, o.Refresh());
      StillClear(b, id);
      RestKeeps(b1.WithOrder(o.Refresh()), id);
    } else {
      ReleaseKeeps(b1, id);
    }
  }
}
