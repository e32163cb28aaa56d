/**
  Which runs forget orders.  A new price far away moves the price window of its side; the levels left
  outside are dropped while their orders stay in the store and in the index.  Without such a drop,
  store, index and queues hold exactly the same orders.
 */
module Retention {
  import opened Types
  import opened Orders
  import opened PriceLevels
  import opened PriceWindows
  import opened BookSpec
  import opened BookInvariant
  import opened BookOps
  import opened Simulation
  import opened BookTotals

  /** Every index entry names a live order. */
  ghost predicate AllLive(b: BookState) {
    forall id {:trigger Live(b, id)} :: id in b.refs ==> Live(b, id)
  }

  /** Every stored order is indexed, except possibly one. */
  ghost predicate AllIndexed(b: BookState, x: Option<OrderId>) {
    forall id {:trigger id in b.refs} {:trigger id in b.orders} :: id in b.orders ==> id in b.refs || x == Some(id)
  }

  ghost predicate NoStale(b: BookState) {
    AllLive(b) && AllIndexed(b, None)
  }

  /** Taking in a price drops no level of the side. */
  ghost predicate Retains(b: BookState, s: Side, price: Price) {
    forall p :: p in b.SideOf(s).levels ==> p in b.SideOf(s).EnsureLevel(s, price).levels
  }

  /** Once it takes in the price, the window of a side with this base and these prices covers all of them. */
  ghost predicate WindowTakes(s: Side, base: Option<Price>, prices: set<Price>, price: Price) {
    forall p :: p in prices ==> CoversAfter(base, BestOf(s, prices), price, p)
  }

  /** Whether taking in a price drops a level can be told beforehand, by the distances between the price,
      the best price and the other prices. */
  lemma RetainsExactlyWhen(b: BookState, s: Side, price: Price)
    requires Inv(b) && s != INVALID
    ensures Retains(b, s, price) <==> WindowTakes(s, b.SideOf(s).base, b.SideOf(s).levels.Keys, price)
  {
    var st := b.SideOf(s);
    WindowedSide(b, s);
    AllOccupied(b, s);
    EnsureLevelKeeps(s, st, price);
    NewWindow(s, st, price);
    hide Inv, SideState.EnsureLevel, CoversAfter;
  }

  lemma AllOccupied(b: BookState, s: Side)
    requires Inv(b) && s != INVALID
    ensures b.SideOf(s).NonEmpty() == b.SideOf(s).levels.Keys
  {
    forall p | p in b.SideOf(s).levels
      ensures p in b.SideOf(s).NonEmpty()
    {
      LevelAt(b, s, p);
    }
  }

  /** No level is dropped when the levels of the side and the price lie within half a window. */
  lemma CloseRetains(b: BookState, s: Side, price: Price)
    requires Inv(b) && s != INVALID
    requires forall q :: q in b.SideOf(s).levels ==> -HALF_CAPACITY <= q - price <= HALF_CAPACITY
    requires forall q, r :: q in b.SideOf(s).levels && r in b.SideOf(s).levels ==>
      -HALF_CAPACITY <= q - r <= HALF_CAPACITY
    ensures Retains(b, s, price)
  {
    var st := b.SideOf(s);
    forall p | p in st.levels
      ensures p in st.NonEmpty()
    {
      assert LevelOk(s, p, st.levels[p], b, None);
    }
    forall p | p in st.levels
      ensures p in st.EnsureLevel(s, price).levels
    {
      CloseLevelsSurvive(s, st, price, p);
    }
  }

  lemma RetainsAlike(b: BookState, b': BookState, s: Side, price: Price)
    requires b.SideOf(s) == b'.SideOf(s)
    ensures Retains(b, s, price) <==> Retains(b', s, price)
  {
  }

  // ---- the changes of the book ----------------------------------------------------------------------

  /** Orders outside the index come and go without harm. */
  lemma SameLive(b: BookState, b': BookState)
    requires b'.bids == b.bids && b'.asks == b.asks && b'.refs == b.refs
    requires forall c :: c in b.refs ==> c in b'.orders
    ensures AllLive(b) ==> AllLive(b')
  {
    forall c | c in b.refs && Live(b, c)
      ensures Live(b', c)
    {
    }
    assert AllLive(b) ==> forall c :: c in b.refs ==> Live(b, c);
  }

  lemma FillLive(b: BookState, id: OrderId)
    requires MatchInv(b, id) && BestPrice(b, Opposite(b.orders[id].side)).Some? && AllLive(b)
    ensures AllLive(Fill(b, id))
  {
    hide Inv, InvBut, Fill, Head, BestPrice;
    HeadEntry(b, id);
    FillShape(b, id);
    var b' := Fill(b, id);
    forall c | c in b'.refs
      ensures Live(b', c)
    {
      assert Live(b, c);
      IndexedSide(b, c);
      FillQueues(b, id, b.refs[c].side, b.refs[c].price);
    }
  }

  lemma IndexedSide(b: BookState, c: OrderId)
    requires Inv(b) && c in b.refs
    ensures b.refs[c].side != INVALID && c in b.orders && b.refs[c].slot.Some?
  {
    assert b.orders[c].side == b.refs[c].side;
  }

  /** An order stays live when another one leaves its queue or any other. */
  lemma UnqueueOther(b: BookState, x: Option<OrderId>, id: OrderId, c: OrderId)
    requires InvBut(b, x) && Live(b, id) && Live(b, c) && c != id
    ensures Live(Unqueue(b, id), c)
  {
    hide InvBut, Unqueue, EntryOk, LevelOk;
    var k := LivePlace(b, x, id);
    var j := LivePlace(b, x, c);
    UnqueueShape(b, id);
    var at := b.refs[c];
    UnqueuedQueue(b, x, id, k, at.side, at.price);
    if at.side == b.refs[id].side && at.price == b.refs[id].price {
      StaysIn(b.Queue(at.side, at.price), k, j);
    }
  }

  lemma UnqueueLive(b: BookState, x: Option<OrderId>, id: OrderId)
    requires InvBut(b, x) && Live(b, id) && AllLive(b)
    ensures AllLive(Unqueue(b, id))
  {
    hide InvBut, Unqueue, Live, EntryOk, LevelOk;
    var k := LivePlace(b, x, id);
    UnqueueShape(b, id);
    forall c | c in Unqueue(b, id).refs
      ensures Live(Unqueue(b, id), c)
    {
      assert c != id && c in b.refs;
      assert Live(b, c);
      UnqueueOther(b, x, id, c);
    }
  }

  lemma StaysIn(q: seq<Entry>, k: nat, j: nat)
    requires k < |q| && j < |q| && j != k
    ensures q[j] in q[..k] + q[k + 1..]
  {
    var r := q[..k] + q[k + 1..];
    assert q[j] == r[if j < k then j else j - 1];
  }

  /** Resting an order leaves no index entry stale exactly when it drops no level. */
  lemma RestLive(b: BookState, id: OrderId)
    requires MatchInv(b, id) && AllLive(b)
    ensures AllLive(Rest(b, id)) <==> Retains(b, b.orders[id].side, b.orders[id].price)
  {
    hide Inv, Rest, SideState.EnsureLevel, Live, OrderState.Refresh;
    StoredOrder(b, id);
    RestShape(b, id);
    var o, b' := b.orders[id], Rest(b, id);
    if Retains(b, o.side, o.price) {
      forall c | c in b'.refs
        ensures Live(b', c)
      {
        if c == id {
          RestedIsLive(b, id);
        } else {
          assert Live(b, c);
          OtherStaysLive(b, id, c);
        }
      }
    } else {
      var p :| p in b.SideOf(o.side).levels && p !in b.SideOf(o.side).EnsureLevel(o.side, o.price).levels;
      DroppedIsStale(b, id, p);
    }
  }

  lemma OtherStaysLive(b: BookState, id: OrderId, c: OrderId)
    requires MatchInv(b, id) && Live(b, c) && c != id && Retains(b, b.orders[id].side, b.orders[id].price)
    ensures Live(Rest(b, id), c)
  {
    hide Inv, Rest, OrderState.Refresh;
    StoredOrder(b, id);
    IndexedSide(b, c);
    RestShape(b, id);
    var o := b.orders[id];
    var at := b.refs[c];
    RestedQueue(b, id, at.side, at.price);
    InLevels(b, o.side, o.price);
    hide SideState.EnsureLevel;
  }

  lemma InLevels(b: BookState, s: Side, price: Price)
    requires Inv(b) && s != INVALID
    ensures forall p :: p in b.SideOf(s).EnsureLevel(s, price).levels && p != price ==>
      var base := b.SideOf(s).EnsureLevel(s, price).base; base.Some? && InWindow(base.value, p)
    ensures price in b.SideOf(s).EnsureLevel(s, price).levels
  {
    EnsureLevelKeeps(s, b.SideOf(s), price);
  }

  /** A dropped level leaves its first order stale. */
  lemma DroppedIsStale(b: BookState, id: OrderId, p: Price)
    requires MatchInv(b, id) && b.orders[id].side != INVALID && p in b.SideOf(b.orders[id].side).levels
    requires p !in b.SideOf(b.orders[id].side).EnsureLevel(b.orders[id].side, b.orders[id].price).levels
    ensures b.Queue(b.orders[id].side, p) != []
    ensures var c := b.Queue(b.orders[id].side, p)[0].id; c in Rest(b, id).refs && !Live(Rest(b, id), c)
  {
    hide Rest, OrderState.Refresh;
    StoredOrder(b, id);
    RestShape(b, id);
    var o := b.orders[id];
    assert LevelOk(o.side, p, b.SideOf(o.side).levels[p], b, None);
    QueuedIsLive(b, None, o.side, p, 0);
    EnsureLevelKeeps(o.side, b.SideOf(o.side), o.price);
    assert Rest(b, id).Queue(o.side, p) == [];
  }

  // ---- matching -------------------------------------------------------------------------------------

  lemma InsideRetains(b: BookState, s: Side, price: Price)
    requires b.SideOf(s).base.Some? && InWindow(b.SideOf(s).base.value, price)
    ensures Retains(b, s, price)
  {
  }

  /** A resting order that gives way drops nothing: it comes back inside the window, if at all. */
  lemma RemoveRestingLive(b: BookState, h: OrderId, x: Option<OrderId>)
    requires InvBut(b, Some(h)) && Live(b, h) && AllLive(b) && AllIndexed(b, x)
    ensures AllLive(RemoveResting(b, h)) && AllIndexed(RemoveResting(b, h), x)
  {
    hide InvBut, Unqueue, Rest, AllLive, Live, SideState.EnsureLevel, OrderState.Refresh;
    LiveInWindow(b, Some(h), h);
    StoredFit(b, Some(h), h);
    UnqueueKeeps(b, Some(h), h);
    UnqueueKeepsStore(b, h);
    UnqueueShape(b, h);
    UnqueueLive(b, Some(h), h);
    var o, b1 := b.orders[h], Unqueue(b, h);
    IndexedStored(b1);
    if o.HasDisplay() && o.Remaining() > 0 {
      RefreshExposes(o);
      var b2 := b1.WithOrder(o.Refresh());
      SetOrderKeeps(b1, None, o.Refresh());
      SameLive(b1, b2);
      InsideRetains(b2, o.side, o.price);
      RestLive(b2, h);
      RestShape(b2, h);
    } else {
      SameLive(b1, Release(b1, h));
    }
  }

  lemma MatchStepLive(b: BookState, id: OrderId)
    requires MatchInv(b, id) && BestPrice(b, Opposite(b.orders[id].side)).Some?
    requires AllLive(b) && AllIndexed(b, Some(id))
    ensures AllLive(MatchStep(b, id)) && AllIndexed(MatchStep(b, id), Some(id))
  {
    hide Inv, InvBut, Fill, RemoveResting, AllLive, Live, Head, BestPrice;
    HeadEntry(b, id);
    FillShape(b, id);
    FilledIsLive(b, id);
    FillKeeps(b, id);
    FillLive(b, id);
    if Fill(b, id).orders[Head(b, id)].Pending() == 0 {
      RemoveRestingLive(Fill(b, id), Head(b, id), Some(id));
    }
  }

  lemma {:induction false} MatchLoopLive(b: BookState, id: OrderId, respectPrice: bool)
    requires MatchInv(b, id) && AllLive(b) && AllIndexed(b, Some(id))
    ensures AllLive(MatchLoop(b, id, respectPrice)) && AllIndexed(MatchLoop(b, id, respectPrice), Some(id))
    decreases b.orders[id].Pending(), |b.orders|
  {
    hide Inv, MatchStep, AllLive, AllIndexed, BestPrice;
    if CanMatch(b, id, respectPrice) {
      MatchStepKeeps(b, id);
      MatchStepLive(b, id);
      MatchLoopLive(MatchStep(b, id), id, respectPrice);
    }
  }

  lemma ExecuteLive(b: BookState, id: OrderId, respectPrice: bool, allowRest: bool)
    requires MatchInv(b, id) && AllLive(b) && AllIndexed(b, Some(id))
    ensures var o := b.orders[id]; var b' := ExecuteMatch(b, id, respectPrice, allowRest);
      NoStale(b') <==> (id in b'.orders ==> Retains(b, o.side, o.price))
  {
    hide Inv, MatchLoop, Rest, AllLive, Live, SideState.EnsureLevel, OrderState.Refresh;
    MatchLoopKeeps(b, id, respectPrice);
    MatchLoopLive(b, id, respectPrice);
    MatchLoopOwnSide(b, id, respectPrice);
    var m, o := MatchLoop(b, id, respectPrice), b.orders[id];
    StoredOrder(b, id);
    StoredOrder(m, id);
    IndexedStored(m);
    if allowRest && m.orders[id].Pending() > 0 {
      RestShape(m, id);
      RestLive(m, id);
    } else {
      SameLive(m, Release(m, id));
    }
  }

  // ---- operations and runs --------------------------------------------------------------------------

  lemma ProcessLive(b: BookState, id: OrderId)
    requires MatchInv(b, id) && AllLive(b) && AllIndexed(b, Some(id))
    ensures var o := b.orders[id]; var b' := ProcessOrder(b, id);
      NoStale(b') <==> (id in b'.orders ==> Retains(b, o.side, o.price))
  {
    hide Inv, ExecuteMatch, AllLive, Live, Retains, OrderState.Refresh, FokLiquidity;
    var o := b.orders[id];
    StoredOrder(b, id);
    IndexedStored(b);
    match o.kind {
      case LIMIT => ExecuteLive(b, id, true, true);
      case MARKET => ExecuteLive(b, id, false, false);
      case IOC => ExecuteLive(b, id, true, false);
      case FOK =>
        ExecuteLive(b, id, true, false);
        SameLive(b, Release(b, id));
      case ICEBERG =>
        IcebergKeeps(b, id);
        var b1 := b.WithOrder(o.HandleIceberg());
        SameLive(b, b1);
        RetainsAlike(b, b1, o.side, o.price);
        ExecuteLive(b1, id, true, true);
    }
  }

  /** Adding an order forgets no other order exactly when it does not come to rest or the window has room
      for its price without dropping a level. */
  lemma AddLive(b: BookState, o: OrderState)
    requires Inv(b) && Addable(b, o) && NoStale(b)
    ensures NoStale(AddOrder(b, o)) <==>
      (ComesToRest(b, o) ==> WindowTakes(o.side, b.SideOf(o.side).base, b.SideOf(o.side).levels.Keys, o.price))
  {
    hide InvBut, ProcessOrder, AllLive, Live, Retains, ComesToRest, WindowTakes;
    RetainsAlike(b, b.WithOrder(o), o.side, o.price);
    RetainsExactlyWhen(b, o.side, o.price);
    AddedIsStored(b, o);
    IndexedStored(b);
    SameLive(b, b.WithOrder(o));
    ProcessLive(b.WithOrder(o), o.id);
    AddTrades(b, o);
  }

  lemma CancelLive(b: BookState, id: OrderId)
    requires Inv(b) && NoStale(b)
    ensures NoStale(CancelOrder(b, id).0)
  {
    hide InvBut, Unqueue, Live;
    IndexedStored(b);
    if id in b.refs {
      assert Live(b, id);
      hide AllLive;
      UnqueueKeeps(b, None, id);
      UnqueueKeepsStore(b, id);
      StoredFit(b, None, id);
      UnqueueShape(b, id);
      UnqueueLive(b, None, id);
      IndexedStored(Unqueue(b, id));
      SameLive(Unqueue(b, id), Release(Unqueue(b, id), id));
    }
  }

  /** The prices of a side at which other orders than this one are queued. */
  ghost function PricesWithout(b: BookState, s: Side, id: OrderId): set<Price> {
    set p | p in b.SideOf(s).levels && exists k :: 0 <= k < |b.Queue(s, p)| && b.Queue(s, p)[k].id != id
  }

  lemma LeftPrices(b: BookState, id: OrderId)
    requires Inv(b) && Live(b, id)
    ensures b.refs[id].side != INVALID && Inv(Unqueue(b, id))
    ensures var s := b.refs[id].side;
      && Unqueue(b, id).SideOf(s).levels.Keys == PricesWithout(b, s, id)
      && Unqueue(b, id).SideOf(s).base == b.SideOf(s).base
  {
    hide Inv, InvBut, Unqueue, EntryOk, LevelOk;
    InvIsInvBut(b);
    var k := LivePlace(b, None, id);
    var s, left := b.refs[id].side, Unqueue(b, id);
    UnqueueKeeps(b, None, id);
    UnqueueShape(b, id);
    forall p
      ensures p in left.SideOf(s).levels <==> p in PricesWithout(b, s, id)
    {
      UnqueuedQueue(b, None, id, k, s, p);
      SomeQueued(left, s, p);
      SomeQueued(b, s, p);
      if p in left.SideOf(s).levels {
        var q := b.Queue(s, p);
        assert q[0].id != id || (|q| > 1 && q[1].id != id);
      }
    }
  }

  lemma SomeQueued(b: BookState, s: Side, p: Price)
    requires Inv(b) && s != INVALID
    ensures p in b.SideOf(s).levels <==> b.Queue(s, p) != []
  {
    if p in b.SideOf(s).levels {
      LevelAt(b, s, p);
    }
  }

  /** A live order that is processed anew forgets no other order under the same condition, looking at the
      prices of the other orders of its side. */
  lemma ReenterLive(b: BookState, id: OrderId, price: Price, qty: Qty)
    requires Inv(b) && Live(b, id) && id in b.orders && NoStale(b)
    ensures var s := b.orders[id].side;
      NoStale(ReenterBook(b, id, price, qty)) <==>
        (qty >= b.orders[id].filled && ComesToRest(b, Resized(b.orders[id], price, qty)) ==>
          WindowTakes(s, b.SideOf(s).base, PricesWithout(b, s, id), price))
  {
    hide Inv, Unqueue, ProcessOrder, AllLive, Live, Retains, OrderState.Refresh, ComesToRest, WindowTakes,
      PricesWithout;
    LiveFits(b, id);
    IndexedStored(b);
    ReenteredIsStored(b, id, price, qty);
    UnqueueKeepsStore(b, id);
    UnqueueLive(b, None, id);
    LeftPrices(b, id);
    UnqueueShape(b, id);
    var left := Unqueue(b, id);
    IndexedStored(left);
    var again := Reenter(b.orders[id], price, qty);
    if again.None? {
      SameLive(left, left.(orders := Drop(left.orders, id)));
    } else {
      SameLive(left, left.WithOrder(again.value));
      RetainsAlike(left, left.WithOrder(again.value), b.orders[id].side, price);
      RetainsExactlyWhen(left, b.orders[id].side, price);
      ProcessLive(left.WithOrder(again.value), id);
      ReenterTrades(b, id, price, qty);
    }
  }

  /** The operation drops no level: nothing comes to rest, or the window takes in its price. */
  ghost predicate DropsNothing(b: BookState, op: Op) {
    match op
    case Add(o) =>
      ComesToRest(b, o) ==> WindowTakes(o.side, b.SideOf(o.side).base, b.SideOf(o.side).levels.Keys, o.price)
    case Cancel(id) => true
    case Modify(id, price, qty) =>
      Reenters(b, id, price, qty) && ComesToRest(b, Resized(b.orders[id], price, qty)) ==>
        var s := b.orders[id].side; WindowTakes(s, b.SideOf(s).base, PricesWithout(b, s, id), price)
  }

  /** Without stale orders before, there are none after an operation exactly when it drops nothing. */
  lemma ApplyLive(b: BookState, op: Op)
    requires Inv(b) && Allowed(b, op) && NoStale(b)
    ensures NoStale(Apply(b, op)) <==> DropsNothing(b, op)
  {
    hide InvBut, AddOrder, Unqueue, ReenterBook, SideState.EnsureLevel, ComesToRest, WindowTakes, PricesWithout,
      Reenter;
    match op {
      case Add(o) => AddLive(b, o);
      case Cancel(id) => CancelLive(b, id);
      case Modify(id, price, qty) =>
        if id in b.refs {
          assert Live(b, id);
          var k := LivePlace(b, None, id);
          StoredFit(b, None, id);
          if price == b.orders[id].price && qty <= b.orders[id].total {
            if qty >= b.orders[id].filled {
              InPlaceLive(b, id, qty);
            }
          } else {
            ReenterLive(b, id, price, qty);
          }
        }
    }
  }

  lemma InPlaceLive(b: BookState, id: OrderId, qty: Qty)
    requires Inv(b) && id in b.refs && id in b.orders && b.refs[id].price in b.SideOf(b.refs[id].side).levels
    requires NoStale(b) && qty >= b.orders[id].filled
    ensures NoStale(ModifyInPlace(b, id, b.orders[id].ModifyQty(qty).value))
  {
    hide InvBut, ModifyInPlace, OrderState.Refresh;
    var o := b.orders[id].ModifyQty(qty).value;
    InPlaceShape(b, id, o);
    forall c | c in b.refs
      ensures Live(ModifyInPlace(b, id, o), c)
    {
      assert Live(b, c);
    }
  }

  ghost predicate RetainingRun(b: BookState, ops: seq<Op>)
    requires Inv(b)
    decreases |ops|
  {
    ops == [] ||
    (Allowed(b, ops[0]) && DropsNothing(b, ops[0]) && (ApplyKeeps(b, ops[0]); RetainingRun(Apply(b, ops[0]), ops[1..])))
  }

  /** On runs that drop no level nothing is ever stale. */
  lemma {:induction false} NothingStaleOverRuns(b: BookState, ops: seq<Op>, b': BookState)
    requires Inv(b) && NoStale(b) && RetainingRun(b, ops) && Runs(b, ops, b')
    ensures Inv(b') && NoStale(b')
    decreases |ops|
  {
    hide Inv, Apply, NoStale, DropsNothing;
    if ops != [] {
      ApplyKeeps(b, ops[0]);
      ApplyLive(b, ops[0]);
      NothingStaleOverRuns(Apply(b, ops[0]), ops[1..], b');
    }
  }

  ghost predicate Queued(b: BookState, id: OrderId) {
    exists s, p, k :: s != INVALID && 0 <= k < |b.Queue(s, p)| && b.Queue(s, p)[k].id == id
  }

  /** Then store, index and queues hold exactly the same orders. */
  lemma SameOrdersEverywhere(b: BookState, id: OrderId)
    requires Inv(b) && NoStale(b)
    ensures id in b.orders <==> id in b.refs
    ensures id in b.orders <==> Queued(b, id)
  {
    if id in b.refs {
      assert Live(b, id);
      var k := LivePlace(b, None, id);
      assert b.Queue(b.refs[id].side, b.refs[id].price)[k].id == id;
    }
    if s, p, k :| s != INVALID && 0 <= k < |b.Queue(s, p)| && b.Queue(s, p)[k].id == id {
      QueuedIsLive(b, None, s, p, k);
    }
    IndexedStored(b);
  }
}
