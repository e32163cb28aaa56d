/**
  The book behaves like the naive flat list: after every operation each queue holds, in order, the
  orders of its side and price in the flat list, and both have reported the same trades.
 */
module Simulation {
  import opened Types
  import opened Orders
  import opened PriceLevels
  import opened PriceWindows
  import opened BookSpec
  import opened BookInvariant
  import opened BookOps
  import opened FlatBooks

  /** The orders of one side and price in a flat list, oldest first. */
  function Pick(list: seq<Resting>, s: Side, p: Price): seq<OrderState> {
    if list == [] then []
    else (if list[0].order.side == s && list[0].order.price == p then [list[0].order] else []) + Pick(list[1..], s, p)
  }

  ghost predicate Stored(q: seq<Entry>, orders: map<OrderId, OrderState>) {
    forall i :: 0 <= i < |q| ==> q[i].id in orders
  }

  /** The orders of a queue, first to last. */
  function Resolve(q: seq<Entry>, orders: map<OrderId, OrderState>): (r: seq<OrderState>)
    requires Stored(q, orders)
    ensures |r| == |q|
  {
    seq(|q|, i requires 0 <= i < |q| => orders[q[i].id])
  }

  ghost predicate SameQueue(b: BookState, f: FlatBook, s: Side, p: Price) {
    Stored(b.Queue(s, p), b.orders) && Pick(f.list, s, p) == Resolve(b.Queue(s, p), b.orders)
  }

  /** The book b and the flat book f hold the same orders in the same order. */
  ghost predicate Sim(b: BookState, f: FlatBook) {
    && (forall s, p {:trigger SameQueue(b, f, s, p)} :: s != INVALID ==> SameQueue(b, f, s, p))
    && f.bidBase == b.bids.base && f.askBase == b.asks.base
    && f.trades == b.trades
  }

  // ---- picking from parts of the list ---------------------------------------------------------------

  lemma Regroup<T>(a: seq<T>, b: seq<T>, c: seq<T>)
    ensures a + (b + c) == (a + b) + c
  {
  }

  lemma {:induction false} PickConcat(l: seq<Resting>, r: seq<Resting>, s: Side, p: Price)
    ensures Pick(l + r, s, p) == Pick(l, s, p) + Pick(r, s, p)
  {
    if l == [] {
      assert l + r == r;
    } else {
      PickConcat(l[1..], r, s, p);
      assert (l + r)[1..] == l[1..] + r;
      assert (l + r)[0] == l[0];
      var first := if l[0].order.side == s && l[0].order.price == p then [l[0].order] else [];
      Regroup(first, Pick(l[1..], s, p), Pick(r, s, p));
    }
  }

  lemma PickMiddle(list: seq<Resting>, k: nat, e: Resting, s: Side, p: Price)
    requires k < |list|
    ensures Pick(list[k := e], s, p) == Pick(list[..k], s, p) + Pick([e], s, p) + Pick(list[k + 1..], s, p)
  {
    hide Pick;
    PickConcat(list[..k], [e] + list[k + 1..], s, p);
    PickConcat([e], list[k + 1..], s, p);
    Regroup(Pick(list[..k], s, p), Pick([e], s, p), Pick(list[k + 1..], s, p));
    assert list[k := e] == list[..k] + ([e] + list[k + 1..]);
  }

  /** The list around position k. */
  lemma PickAround(list: seq<Resting>, k: nat, e: Resting, s: Side, p: Price)
    requires k < |list|
    ensures Pick(list[k := e], s, p) == Pick(list[..k], s, p) + Pick([e], s, p) + Pick(list[k + 1..], s, p)
    ensures Pick(TakeOut(list, k), s, p) == Pick(list[..k], s, p) + Pick(list[k + 1..], s, p)
    ensures Pick(list, s, p) == Pick(list[..k], s, p) + Pick([list[k]], s, p) + Pick(list[k + 1..], s, p)
  {
    hide Pick;
    PickMiddle(list, k, e, s, p);
    PickMiddle(list, k, list[k], s, p);
    assert list[k := list[k]] == list;
    PickConcat(list[..k], list[k + 1..], s, p);
  }

  lemma PickOne(e: Resting, s: Side, p: Price)
    ensures Pick([e], s, p) == if e.order.side == s && e.order.price == p then [e.order] else []
  {
    assert Pick([e][1..], s, p) == [];
  }

  lemma {:induction false} PickNone(list: seq<Resting>, s: Side, p: Price)
    ensures Pick(list, s, p) == [] <==>
      forall i :: 0 <= i < |list| ==> list[i].order.side != s || list[i].order.price != p
  {
    if list != [] {
      PickNone(list[1..], s, p);
      assert forall i :: 0 < i < |list| ==> list[i] == list[1..][i - 1];
    }
  }

  /** Every picked order is in the list. */
  lemma {:induction false} PickedIsListed(list: seq<Resting>, s: Side, p: Price, j: nat) returns (k: nat)
    requires j < |Pick(list, s, p)|
    ensures k < |list| && list[k].order == Pick(list, s, p)[j]
    ensures list[k].order.side == s && list[k].order.price == p
  {
    var first := list[0].order.side == s && list[0].order.price == p;
    if first && j == 0 {
      k := 0;
    } else {
      k := PickedIsListed(list[1..], s, p, if first then j - 1 else j);
      k := k + 1;
    }
  }

  // ---- the front of the list is the head of the best level ------------------------------------------

  lemma QueueIsStored(b: BookState, x: Option<OrderId>, s: Side, p: Price)
    requires InvBut(b, x) && s != INVALID
    ensures Stored(b.Queue(s, p), b.orders)
    ensures forall i :: 0 <= i < |b.Queue(s, p)| ==>
      b.Queue(s, p)[i].id in b.refs && b.orders[b.Queue(s, p)[i].id].id == b.Queue(s, p)[i].id
  {
    forall i | 0 <= i < |b.Queue(s, p)|
      ensures b.Queue(s, p)[i].id in b.orders && b.Queue(s, p)[i].id in b.refs
      ensures b.orders[b.Queue(s, p)[i].id].id == b.Queue(s, p)[i].id
    {
      QueuedIsLive(b, x, s, p, i);
    }
  }

  /** A price has a level exactly when the list has an order there. */
  lemma LevelsAreListed(b: BookState, f: FlatBook, s: Side, p: Price)
    requires Inv(b) && Sim(b, f) && s != INVALID
    ensures p in b.SideOf(s).NonEmpty() <==> Pick(f.list, s, p) != []
  {
    assert SameQueue(b, f, s, p);
  }

  lemma FrontIsHead(b: BookState, f: FlatBook, s: Side)
    requires Inv(b) && Sim(b, f) && s != INVALID
    ensures Front(f.list, s).Some? <==> BestPrice(b, s).Some?
    ensures Front(f.list, s).Some? ==>
      var k, p := Front(f.list, s).value, BestPrice(b, s).value;
      && f.list[k].order.price == p && f.list[k].order.side == s
      && Pick(f.list[..k], s, p) == []
      && b.Queue(s, p) != [] && b.Queue(s, p)[0].id in b.orders
      && f.list[k].order == b.orders[b.Queue(s, p)[0].id]
  {
    FrontIsBest(f.list, s);
    if Front(f.list, s).Some? {
      var k := Front(f.list, s).value;
      var q := f.list[k].order.price;
      PickNone(f.list, s, q);
      LevelsAreListed(b, f, s, q);
      var p := BestPrice(b, s).value;
      LevelsAreListed(b, f, s, p);
      var i := PickedIsListed(f.list, s, p, 0);
      assert q == p;
      PickNone(f.list[..k], s, p);
      PickAround(f.list, k, f.list[k], s, p);
      PickOne(f.list[k], s, p);
      assert SameQueue(b, f, s, p);
      assert Pick(f.list, s, p)[0] == f.list[k].order;
      QueueIsStored(b, None, s, p);
    } else if BestPrice(b, s).Some? {
      var p := BestPrice(b, s).value;
      LevelsAreListed(b, f, s, p);
      var i := PickedIsListed(f.list, s, p, 0);
      assert false;
    }
  }

  // ---- each change of the book against the same change of the list ----------------------------------

  /** Where an order of the list is queued. */
  lemma ListedIsQueued(b: BookState, x: Option<OrderId>, f: FlatBook, k: nat) returns (j: nat)
    requires InvBut(b, x) && Sim(b, f) && k < |f.list| && f.list[k].order.side != INVALID
    ensures var o := f.list[k].order; var q := b.Queue(o.side, o.price);
      && j == |Pick(f.list[..k], o.side, o.price)| && j < |q|
      && q[j].id == o.id && o.id in b.orders && b.orders[o.id] == o
      && Live(b, o.id) && b.refs[o.id] == OrderRef(o.side, o.price, Some(q[j].slot))
  {
    var o := f.list[k].order;
    j := |Pick(f.list[..k], o.side, o.price)|;
    PickAround(f.list, k, f.list[k], o.side, o.price);
    PickOne(f.list[k], o.side, o.price);
    assert SameQueue(b, f, o.side, o.price);
    assert Pick(f.list, o.side, o.price)[j] == o;
    QueueIsStored(b, x, o.side, o.price);
    QueuedIsLive(b, x, o.side, o.price, j);
  }

  /** Where a live order is listed. */
  lemma LiveIsListed(b: BookState, x: Option<OrderId>, f: FlatBook, id: OrderId) returns (k: nat)
    requires InvBut(b, x) && Sim(b, f) && Live(b, id)
    ensures k < |f.list| && f.list[k].order == b.orders[id] && f.list[k].order.id == id
    ensures f.list[k].order.side == b.refs[id].side && f.list[k].order.price == b.refs[id].price
    ensures b.refs[id].side != INVALID
  {
    var j := LivePlace(b, x, id);
    var ref := b.refs[id];
    assert SameQueue(b, f, ref.side, ref.price);
    QueueIsStored(b, x, ref.side, ref.price);
    k := PickedIsListed(f.list, ref.side, ref.price, j);
  }

  lemma MiddleChanged<T>(a: seq<T>, o: T, c: seq<T>, o': T)
    ensures (a + [o] + c)[|a| := o'] == a + [o'] + c
    ensures (a + [o] + c)[..|a|] + (a + [o] + c)[|a| + 1..] == a + c
  {
  }

  lemma ResolveCut(q: seq<Entry>, orders: map<OrderId, OrderState>, j: nat)
    requires Stored(q, orders) && j < |q|
    ensures Stored(q[..j] + q[j + 1..], orders)
    ensures Resolve(q[..j] + q[j + 1..], orders) == Resolve(q, orders)[..j] + Resolve(q, orders)[j + 1..]
  {
  }

  lemma ResolveFrame(q: seq<Entry>, orders: map<OrderId, OrderState>, orders': map<OrderId, OrderState>)
    requires Stored(q, orders)
    requires forall i :: 0 <= i < |q| ==> q[i].id in orders' && orders'[q[i].id] == orders[q[i].id]
    ensures Stored(q, orders') && Resolve(q, orders') == Resolve(q, orders)
  {
  }

  lemma ResolveSet(q: seq<Entry>, orders: map<OrderId, OrderState>, orders': map<OrderId, OrderState>, j: nat)
    requires Stored(q, orders) && j < |q| && q[j].id in orders'
    requires forall i :: 0 <= i < |q| && i != j ==> q[i].id in orders' && orders'[q[i].id] == orders[q[i].id]
    ensures Stored(q, orders') && Resolve(q, orders') == Resolve(q, orders)[j := orders'[q[j].id]]
  {
  }

  /** In the queue of a listed order, the order is alone at its place; in the others it is not. */
  lemma ListedPlace(b: BookState, x: Option<OrderId>, f: FlatBook, k: nat, s: Side, p: Price)
    requires InvBut(b, x) && Sim(b, f) && k < |f.list| && f.list[k].order.side != INVALID && s != INVALID
    ensures Stored(b.Queue(s, p), b.orders) && Pick(f.list, s, p) == Resolve(b.Queue(s, p), b.orders)
    ensures forall i :: 0 <= i < |b.Queue(s, p)| ==> b.Queue(s, p)[i].id in b.refs
    ensures var o := f.list[k].order; var q := b.Queue(s, p);
      if s == o.side && p == o.price then
        var j := |Pick(f.list[..k], s, p)|;
        j < |q| && q[j].id == o.id && b.orders[o.id] == o && forall i :: 0 <= i < |q| && i != j ==> q[i].id != o.id
      else forall i :: 0 <= i < |q| ==> q[i].id != o.id
  {
    var o := f.list[k].order;
    var j := ListedIsQueued(b, x, f, k);
    var n := LivePlace(b, x, o.id);
    assert SameQueue(b, f, s, p);
    QueueIsStored(b, x, s, p);
  }

  lemma OneQueueReplace(b: BookState, x: Option<OrderId>, f: FlatBook, k: nat, o': OrderState,
      orders': map<OrderId, OrderState>, s: Side, p: Price)
    requires InvBut(b, x) && Sim(b, f) && k < |f.list| && f.list[k].order.side != INVALID && s != INVALID
    requires var o := f.list[k].order; o'.id == o.id && o'.side == o.side && o'.price == o.price
    requires o'.id in orders' && orders'[o'.id] == o'
    requires forall c :: c in b.refs && c in b.orders && c != o'.id ==> c in orders' && orders'[c] == b.orders[c]
    ensures Stored(b.Queue(s, p), orders')
    ensures Pick(f.list[k := f.list[k].(order := o')], s, p) == Resolve(b.Queue(s, p), orders')
  {
    hide InvBut, Sim, Pick, Resolve;
    var o, e := f.list[k].order, f.list[k].(order := o');
    var q := b.Queue(s, p);
    ListedPlace(b, x, f, k, s, p);
    PickAround(f.list, k, e, s, p);
    PickOne(f.list[k], s, p);
    PickOne(e, s, p);
    var before, behind := Pick(f.list[..k], s, p), Pick(f.list[k + 1..], s, p);
    if s == o.side && p == o.price {
      MiddleChanged(before, o, behind, o');
      ResolveSet(q, b.orders, orders', |before|);
    } else {
      ResolveFrame(q, b.orders, orders');
    }
  }

  /** Changing one queued order in place. */
  lemma SimReplace(b: BookState, x: Option<OrderId>, f: FlatBook, k: nat, o': OrderState, b': BookState, f': FlatBook)
    requires InvBut(b, x) && Sim(b, f) && k < |f.list| && f.list[k].order.side != INVALID
    requires var o := f.list[k].order; o'.id == o.id && o'.side == o.side && o'.price == o.price
    requires o'.id in b'.orders && b'.orders[o'.id] == o'
    requires forall c :: c in b.refs && c in b.orders && c != o'.id ==> c in b'.orders && b'.orders[c] == b.orders[c]
    requires forall s, p {:trigger b'.Queue(s, p)} :: s != INVALID ==> b'.Queue(s, p) == b.Queue(s, p)
    requires b'.bids.base == b.bids.base && b'.asks.base == b.asks.base
    requires f' == f.(list := f.list[k := f.list[k].(order := o')], trades := b'.trades, clock := f'.clock)
    ensures Sim(b', f')
  {
    forall s, p | s != INVALID
      ensures SameQueue(b', f', s, p)
    {
      OneQueueReplace(b, x, f, k, o', b'.orders, s, p);
      assert b'.Queue(s, p) == b.Queue(s, p);
    }
  }

  /** Storing or dropping an order that is not indexed is not seen in the list. */
  lemma SimSetOrder(b: BookState, x: Option<OrderId>, f: FlatBook, b': BookState)
    requires InvBut(b, x) && Sim(b, f)
    requires b'.bids == b.bids && b'.asks == b.asks && b'.trades == b.trades
    requires forall c :: c in b.refs && Live(b, c) ==> c in b'.orders && b'.orders[c] == b.orders[c]
    ensures Sim(b', f)
  {
    hide InvBut, Sim, Pick, Resolve;
    forall s, p | s != INVALID
      ensures SameQueue(b', f, s, p)
    {
      PickedQueue(b, f, s, p);
      QueueIsStored(b, x, s, p);
      forall i | 0 <= i < |b.Queue(s, p)|
        ensures b.Queue(s, p)[i].id in b'.orders
        ensures b'.orders[b.Queue(s, p)[i].id] == b.orders[b.Queue(s, p)[i].id]
      {
        QueuedIsLive(b, x, s, p, i);
      }
      assert b'.Queue(s, p) == b.Queue(s, p);
      ResolveFrame(b.Queue(s, p), b.orders, b'.orders);
    }
    SameTrades(b, f);
    SimFrom(b', f);
  }

  lemma PickedQueue(b: BookState, f: FlatBook, s: Side, p: Price)
    requires Sim(b, f) && s != INVALID
    ensures SameQueue(b, f, s, p)
  {
  }

  /** Taking an order off the book. */
  lemma SimTakeOut(b: BookState, x: Option<OrderId>, f: FlatBook, id: OrderId, k: nat)
    requires InvBut(b, x) && Sim(b, f) && Live(b, id)
    requires k < |f.list| && f.list[k].order.id == id && f.list[k].order.side != INVALID
    ensures Sim(Unqueue(b, id), f.(list := TakeOut(f.list, k)))
  {
    hide InvBut, Unqueue, Live, TakeOut;
    var b', f' := Unqueue(b, id), f.(list := TakeOut(f.list, k));
    var j := ListedIsQueued(b, x, f, k);
    UnqueueShape(b, id);
    forall s, p | s != INVALID
      ensures SameQueue(b', f', s, p)
    {
      OneQueueTakeOut(b, x, f, id, k, s, p);
    }
  }

  lemma OneQueueTakeOut(b: BookState, x: Option<OrderId>, f: FlatBook, id: OrderId, k: nat, s: Side, p: Price)
    requires InvBut(b, x) && Sim(b, f) && Live(b, id) && s != INVALID
    requires k < |f.list| && f.list[k].order.id == id && f.list[k].order.side != INVALID
    ensures Unqueue(b, id).orders == b.orders && Stored(Unqueue(b, id).Queue(s, p), b.orders)
    ensures Pick(TakeOut(f.list, k), s, p) == Resolve(Unqueue(b, id).Queue(s, p), b.orders)
  {
    hide InvBut, Sim, Unqueue, Pick, Resolve, Live, TakeOut;
    UnqueueKeepsStore(b, id);
    var o := f.list[k].order;
    var q := b.Queue(s, p);
    var j := ListedIsQueued(b, x, f, k);
    ListedPlace(b, x, f, k, s, p);
    PickAround(f.list, k, f.list[k], s, p);
    PickOne(f.list[k], s, p);
    UnqueuedQueue(b, x, id, j, s, p);
    var before, behind := Pick(f.list[..k], s, p), Pick(f.list[k + 1..], s, p);
    if s == o.side && p == o.price {
      MiddleChanged(before, o, behind, o);
      ResolveCut(q, b.orders, j);
    }
  }

  /** The queues after an order has left. */
  lemma UnqueuedQueue(b: BookState, x: Option<OrderId>, id: OrderId, j: nat, s: Side, p: Price)
    requires InvBut(b, x) && Live(b, id) && s != INVALID
    requires j < |b.Queue(b.refs[id].side, b.refs[id].price)| && b.Queue(b.refs[id].side, b.refs[id].price)[j].id == id
    ensures var q := b.Queue(s, p);
      Unqueue(b, id).Queue(s, p) ==
        if s == b.refs[id].side && p == b.refs[id].price then q[..j] + q[j + 1..] else q
  {
    var ref := b.refs[id];
    UnqueueShape(b, id);
    var n := LivePlace(b, x, id);
    assert n == j;
    if s == ref.side && p == ref.price {
      RemoveKeepsWellFormed(b.SideOf(s).levels[p], j, b.orders[id].Pending());
    } else if s == ref.side {
      assert p in Unqueue(b, id).SideOf(s).levels <==> p in Drop(Unqueue(b, id).SideOf(s).levels, ref.price);
      assert p in b.SideOf(s).levels <==> p in Drop(b.SideOf(s).levels, ref.price);
    }
  }

  // ---- resting --------------------------------------------------------------------------------------

  lemma {:induction false} PickEvict(list: seq<Resting>, s: Side, base: Price, s': Side, p: Price)
    ensures Pick(Evict(list, s, base), s', p) == if s' == s && !InWindow(base, p) then [] else Pick(list, s', p)
  {
    if list != [] {
      PickEvict(list[1..], s, base, s', p);
      if !(list[0].order.side == s && !InWindow(base, list[0].order.price)) {
        var rest := Evict(list[1..], s, base);
        assert Evict(list, s, base) == [list[0]] + rest;
        assert ([list[0]] + rest)[1..] == rest;
      }
    }
  }

  /** The naive window is the window of the book. */
  lemma SameBase(b: BookState, f: FlatBook, s: Side, price: Price)
    requires Inv(b) && Sim(b, f) && s != INVALID
    ensures b.SideOf(s).EnsureLevel(s, price).base == Some(NaiveBase(f, s, price))
  {
    FrontIsHead(b, f, s);
  }

  /** The queues after an order has come to rest. */
  lemma RestedQueue(b: BookState, id: OrderId, s: Side, p: Price)
    requires MatchInv(b, id) && s != INVALID
    ensures var o := b.orders[id]; var base := b.SideOf(o.side).EnsureLevel(o.side, o.price).base;
      && base.Some? && InWindow(base.value, o.price)
      && (if s == o.side && p == o.price then
            exists slot :: Rest(b, id).Queue(s, p) == b.Queue(s, p) + [Entry(id, slot)]
          else if s == o.side && !InWindow(base.value, p) then Rest(b, id).Queue(s, p) == []
          else Rest(b, id).Queue(s, p) == b.Queue(s, p))
    ensures Rest(b, id).SideOf(b.orders[id].side).base ==
      b.SideOf(b.orders[id].side).EnsureLevel(b.orders[id].side, b.orders[id].price).base
  {
    var o := b.orders[id];
    var st := b.SideOf(o.side);
    assert o.side != INVALID && o.id == id;
    RestShape(b, id);
    EnsureLevelKeeps(o.side, st, o.price);
    NewLevelIsEmpty(o.side, st, o.price);
    hide SideState.EnsureLevel, Rest;
    var at := st.EnsureLevel(o.side, o.price);
    if s == o.side && p == o.price {
      assert Rest(b, id).Queue(s, p) == b.Queue(s, p) + [Entry(id, at.levels[p].NextSlot())];
    }
  }

  lemma OneQueueRest(b: BookState, f: FlatBook, id: OrderId, s: Side, p: Price)
    requires MatchInv(b, id) && Sim(b, f) && s != INVALID
    ensures SameQueue(Rest(b, id), NaiveRest(f, b.orders[id]), s, p)
  {
    hide Inv, Sim, Rest, Pick, Resolve, NaiveBase, Evict, OrderState.Refresh, SideState.EnsureLevel;
    StoredOrder(b, id);
    var o := b.orders[id];
    var q := b.Queue(s, p);
    var base := NaiveBase(f, o.side, o.price);
    SameBase(b, f, o.side, o.price);
    RestedQueue(b, id, s, p);
    RestShape(b, id);
    var e := Resting(o.Refresh(), f.clock);
    PickConcat(Evict(f.list, o.side, base), [e], s, p);
    PickOne(e, s, p);
    PickEvict(f.list, o.side, base, s, p);
    SimQueue(b, f, s, p);
    var orders' := Rest(b, id).orders;
    ResolveFrame(q, b.orders, orders');
    if s == o.side && p == o.price {
      var slot :| Rest(b, id).Queue(s, p) == q + [Entry(id, slot)];
      ResolveAppend(q, Entry(id, slot), orders');
    } else if s == o.side && !InWindow(base, p) {
      ResolveNothing(orders');
    }
  }

  lemma ResolveAppend(q: seq<Entry>, e: Entry, orders: map<OrderId, OrderState>)
    requires Stored(q, orders) && e.id in orders
    ensures Stored(q + [e], orders) && Resolve(q + [e], orders) == Resolve(q, orders) + [orders[e.id]]
  {
  }

  lemma ResolveNothing(orders: map<OrderId, OrderState>)
    ensures Stored([], orders) && Resolve([], orders) == []
  {
  }

  lemma SimQueue(b: BookState, f: FlatBook, s: Side, p: Price)
    requires Inv(b) && Sim(b, f) && s != INVALID
    ensures SameQueue(b, f, s, p)
    ensures forall i :: 0 <= i < |b.Queue(s, p)| ==> b.Queue(s, p)[i].id in b.refs && b.Queue(s, p)[i].id in b.orders
  {
    assert SameQueue(b, f, s, p);
    QueueIsStored(b, None, s, p);
  }

  /** Resting an order is appending it to the list, after forgetting what the window leaves outside. */
  lemma SimRest(b: BookState, f: FlatBook, id: OrderId)
    requires MatchInv(b, id) && Sim(b, f)
    ensures Sim(Rest(b, id), NaiveRest(f, b.orders[id]))
  {
    var b', f' := Rest(b, id), NaiveRest(f, b.orders[id]);
    hide Inv, Rest, NaiveBase, Evict, OrderState.Refresh, SideState.EnsureLevel;
    StoredOrder(b, id);
    RestShape(b, id);
    RestedQueue(b, id, b.orders[id].side, b.orders[id].price);
    SameBase(b, f, b.orders[id].side, b.orders[id].price);
    forall s, p | s != INVALID
      ensures SameQueue(b', f', s, p)
    {
      OneQueueRest(b, f, id, s, p);
    }
  }

  // ---- matching -------------------------------------------------------------------------------------

  lemma {:induction false} EvictNothing(list: seq<Resting>, s: Side, base: Price)
    requires forall i :: 0 <= i < |list| && list[i].order.side == s ==> InWindow(base, list[i].order.price)
    ensures Evict(list, s, base) == list
  {
    if list != [] {
      EvictNothing(list[1..], s, base);
    }
  }

  /** An order that comes back at a price inside the window only joins the end of the list. */
  lemma RestInside(b: BookState, f: FlatBook, o: OrderState)
    requires Inv(b) && Sim(b, f) && o.side != INVALID
    requires b.SideOf(o.side).base.Some? && InWindow(b.SideOf(o.side).base.value, o.price)
    ensures NaiveRest(f, o) == f.(list := f.list + [Resting(o.Refresh(), f.clock)], clock := f.clock + 1)
  {
    var base := b.SideOf(o.side).base.value;
    forall i | 0 <= i < |f.list| && f.list[i].order.side == o.side
      ensures InWindow(base, f.list[i].order.price)
    {
      var j := ListedIsQueued(b, None, f, i);
    }
    EvictNothing(f.list, o.side, base);
  }

  lemma FillQueues(b: BookState, id: OrderId, s: Side, p: Price)
    requires MatchInv(b, id) && BestPrice(b, Opposite(b.orders[id].side)).Some? && s != INVALID
    ensures Head(b, id) in b.orders
    ensures Fill(b, id).Queue(s, p) == b.Queue(s, p)
    ensures Fill(b, id).bids.base == b.bids.base && Fill(b, id).asks.base == b.asks.base
  {
    HeadIsLive(b, id);
    FillShape(b, id);
  }

  /** The fill of a round, in the book and in the list. */
  lemma SimFill(b: BookState, f: FlatBook, id: OrderId)
    requires MatchInv(b, id) && Sim(b, f) && BestPrice(b, Opposite(b.orders[id].side)).Some?
    ensures f.trades == b.trades
    ensures var s := Opposite(b.orders[id].side); var k := Front(f.list, s);
      && k.Some? && Head(b, id) in b.orders && Head(b, id) in b.refs
      && f.list[k.value].order == b.orders[Head(b, id)] && f.list[k.value].order.id == Head(b, id)
      && b.orders[Head(b, id)].side == s && s != INVALID && b.orders[Head(b, id)].Restable()
      && Sim(Fill(b, id), f.(
           list := f.list[k.value := f.list[k.value].(order := Fill(b, id).orders[Head(b, id)])],
           trades := Fill(b, id).trades))
  {
    hide Inv, InvBut, Sim, Fill, Head, BestPrice, Front;
    StoredOrder(b, id);
    var s := Opposite(b.orders[id].side);
    FrontIsHead(b, f, s);
    HeadEntry(b, id);
    FillShape(b, id);
    var k := Front(f.list, s).value;
    var h := Head(b, id);
    var b' := Fill(b, id);
    forall s, p | s != INVALID
      ensures b'.Queue(s, p) == b.Queue(s, p)
    {
      FillQueues(b, id, s, p);
    }
    FillQueues(b, id, BUY, 0);
    SameTrades(b, f);
    SimReplace(b, None, f, k, b'.orders[h], b',
      f.(list := f.list[k := f.list[k].(order := b'.orders[h])], trades := b'.trades));
  }

  lemma SameTrades(b: BookState, f: FlatBook)
    requires Sim(b, f)
    ensures f.trades == b.trades && f.bidBase == b.bids.base && f.askBase == b.asks.base
  {
  }

  lemma HeadEntry(b: BookState, id: OrderId)
    requires MatchInv(b, id) && BestPrice(b, Opposite(b.orders[id].side)).Some?
    ensures var s := Opposite(b.orders[id].side); var h := Head(b, id); var q := b.Queue(s, BestPrice(b, s).value);
      && q != [] && q[0].id == h && h != id && h in b.orders && h in b.refs && Live(b, h)
      && b.orders[h].id == h && b.orders[h].side == s && b.orders[h].Restable() && s != INVALID
  {
    HeadIsLive(b, id);
    assert b.orders[Head(b, id)].id == Head(b, id);
  }

  lemma LiveInWindow(b: BookState, x: Option<OrderId>, id: OrderId)
    requires InvBut(b, x) && Live(b, id)
    ensures id in b.orders && b.orders[id].id == id && b.orders[id].side != INVALID && b.orders[id].Sane()
    ensures id !in Unqueue(b, id).refs && Unqueue(b, id).orders == b.orders
    ensures var base := Unqueue(b, id).SideOf(b.orders[id].side).base;
      base.Some? && InWindow(base.value, b.orders[id].price)
  {
    var k := LivePlace(b, x, id);
    UnqueueShape(b, id);
    assert id !in Drop(b.refs, id);
    assert b.orders[id].id == id;
  }

  /** An iceberg that has used up its clip joins the end of the list with a new one. */
  lemma SimComeBack(b: BookState, f: FlatBook, o: OrderState)
    requires Inv(b) && Sim(b, f) && o.id in b.orders && b.orders[o.id] == o && o.id !in b.refs
    requires o.Sane() && o.side != INVALID && o.id != INVALID_ORDER
    requires b.SideOf(o.side).base.Some? && InWindow(b.SideOf(o.side).base.value, o.price)
    ensures Sim(Rest(b.WithOrder(o.Refresh()), o.id),
      f.(list := f.list + [Resting(o.Refresh(), f.clock)], clock := f.clock + 1))
  {
    hide Inv, InvBut, Sim, Rest, NaiveRest;
    var b2 := b.WithOrder(o.Refresh());
    RefreshExposes(o);
    InvIsInvBut(b);
    SetOrderKeeps(b, None, o.Refresh());
    InvIsInvBut(b2);
    SimSetOrder(b, None, f, b2);
    RestInside(b2, f, o.Refresh());
    SimRest(b2, f, o.id);
  }

  lemma InvIsInvBut(b: BookState)
    ensures Inv(b) <==> InvBut(b, None)
  {
  }

  /** The resting order that shows nothing leaves, in the book and in the list. */
  lemma SimRemoveResting(b: BookState, f: FlatBook, h: OrderId, k: nat)
    requires InvBut(b, Some(h)) && Sim(b, f) && Live(b, h)
    requires k < |f.list| && f.list[k].order.id == h && f.list[k].order.side != INVALID
    ensures var o := b.orders[h]; var left := f.(list := TakeOut(f.list, k));
      Sim(RemoveResting(b, h),
        if o.HasDisplay() && o.Remaining() > 0
        then left.(list := left.list + [Resting(o.Refresh(), f.clock)], clock := f.clock + 1) else left)
  {
    hide Inv, InvBut, Sim, Unqueue, Rest, TakeOut;
    UnqueueKeepsStore(b, h);
    var o, left := b.orders[h], f.(list := TakeOut(f.list, k));
    UnqueueKeeps(b, Some(h), h);
    LiveInWindow(b, Some(h), h);
    SimTakeOut(b, Some(h), f, h, k);
    var b1 := Unqueue(b, h);
    InvIsInvBut(b1);
    if o.HasDisplay() && o.Remaining() > 0 {
      ValidId(b, Some(h), h);
      SimComeBack(b1, left, o);
    } else {
      SimSetOrder(b1, None, left, Release(b1, h));
    }
  }

  lemma ValidId(b: BookState, x: Option<OrderId>, id: OrderId)
    requires InvBut(b, x) && id in b.orders
    ensures id != INVALID_ORDER
  {
    assert b.orders[id] == b.orders[id];
  }

  /** One round of the match loop against one naive step. */
  lemma SimStep(b: BookState, f: FlatBook, id: OrderId)
    requires MatchInv(b, id) && Sim(b, f) && b.orders[id].Pending() > 0
    requires BestPrice(b, Opposite(b.orders[id].side)).Some?
    ensures Front(f.list, Opposite(b.orders[id].side)).Some?
    ensures id in MatchStep(b, id).orders
    ensures Sim(MatchStep(b, id), NaiveStep(f, b.orders[id]).0)
    ensures MatchStep(b, id).orders[id] == NaiveStep(f, b.orders[id]).1
  {
    hide Inv, InvBut, Sim, Fill, Head, BestPrice, Front, RemoveResting;
    StoredOrder(b, id);
    SimFill(b, f, id);
    HeadEntry(b, id);
    FillShape(b, id);
    FilledIsLive(b, id);
    FillKeeps(b, id);
    MatchStepKeeps(b, id);
    var s, h := Opposite(b.orders[id].side), Head(b, id);
    var k := Front(f.list, s).value;
    var o, r := b.orders[id], b.orders[h];
    var t := TradeQty(o, r);
    var b1 := Fill(b, id);
    var f1 := f.(list := f.list[k := f.list[k].(order := b1.orders[h])], trades := b1.trades);
    FilledOrder(r, t);
    if b1.orders[h].Pending() == 0 {
      ExhaustedHead(r, t);
      SimRemoveResting(b1, f1, h, k);
      assert TakeOut(f1.list, k) == TakeOut(f.list, k);
    }
  }

  /** The match loop of the book refines the naive one: same orders left, same trades reported, the
      incoming order filled by as much. */
  lemma {:induction false} SimLoop(b: BookState, f: FlatBook, id: OrderId, respectPrice: bool)
    requires MatchInv(b, id) && Sim(b, f) && FlatOk(f) && b.orders[id].Sane()
    ensures id in MatchLoop(b, id, respectPrice).orders
    ensures Sim(MatchLoop(b, id, respectPrice), NaiveLoop(f, b.orders[id], respectPrice).0)
    ensures MatchLoop(b, id, respectPrice).orders[id] == NaiveLoop(f, b.orders[id], respectPrice).1
    decreases b.orders[id].Pending(), |b.orders|
  {
    hide Inv, Sim, FlatOk, BestPrice, Front, MatchStep, NaiveStep;
    StoredOrder(b, id);
    FrontIsHead(b, f, Opposite(b.orders[id].side));
    if CanMatch(b, id, respectPrice) {
      MatchStepKeeps(b, id);
      SimStep(b, f, id);
      NaiveStepKeeps(f, b.orders[id]);
      SimLoop(MatchStep(b, id), NaiveStep(f, b.orders[id]).0, id, respectPrice);
    }
  }

  // ---- the operations -------------------------------------------------------------------------------

  lemma SimRelease(b: BookState, f: FlatBook, id: OrderId)
    requires Inv(b) && Sim(b, f) && id !in b.refs
    ensures Sim(Release(b, id), f)
  {
    SimSetOrder(b, None, f, Release(b, id));
  }

  /** An order that is not on the book is not in the list. */
  lemma NotListed(b: BookState, f: FlatBook, id: OrderId)
    requires Inv(b) && Sim(b, f) && FlatOk(f) && !Live(b, id)
    ensures forall i :: 0 <= i < |f.list| ==> f.list[i].order.id != id
  {
    forall i | 0 <= i < |f.list|
      ensures f.list[i].order.id != id
    {
      var j := ListedIsQueued(b, None, f, i);
    }
  }

  lemma SimExecute(b: BookState, f: FlatBook, id: OrderId, respectPrice: bool, allowRest: bool)
    requires MatchInv(b, id) && Sim(b, f) && FlatOk(f) && b.orders[id].Sane()
    requires allowRest && b.orders[id].Pending() > 0 ==> MayRest(b.orders[id])
    ensures Sim(ExecuteMatch(b, id, respectPrice, allowRest), NaiveExecute(f, b.orders[id], respectPrice, allowRest))
    ensures FlatOk(NaiveExecute(f, b.orders[id], respectPrice, allowRest))
  {
    hide Inv, Sim, FlatOk, MatchLoop, NaiveLoop, Rest, NaiveRest, Release, OrderState.Refresh;
    SimLoop(b, f, id, respectPrice);
    MatchLoopKeeps(b, id, respectPrice);
    NaiveLoopKeeps(f, b.orders[id], respectPrice);
    var m := MatchLoop(b, id, respectPrice);
    var (f', o') := NaiveLoop(f, b.orders[id], respectPrice);
    StoredOrder(m, id);
    if allowRest && o'.Pending() > 0 {
      SimRest(m, f', id);
      NotListed(m, f', id);
      RefreshRestable(o');
      NaiveRestKeeps(f', o');
    } else {
      SimRelease(m, f', id);
    }
  }

  lemma RefreshRestable(o: OrderState)
    requires o.Sane() && MayRest(o) && o.side != INVALID
    ensures o.Refresh().Restable()
  {
    RefreshExposes(o);
  }

  lemma SimProcess(b: BookState, f: FlatBook, id: OrderId)
    requires MatchInv(b, id) && Sim(b, f) && FlatOk(f) && b.orders[id].Sane()
    ensures var accept := FokLiquidity(b, b.orders[id]);
      && Sim(ProcessOrder(b, id), NaiveProcess(f, b.orders[id], accept))
      && FlatOk(NaiveProcess(f, b.orders[id], accept))
  {
    hide Inv, Sim, FlatOk, ExecuteMatch, NaiveExecute, FokLiquidity, Release, OrderState.Refresh;
    StoredOrder(b, id);
    var o := b.orders[id];
    match o.kind {
      case LIMIT => SimExecute(b, f, id, true, true);
      case MARKET => SimExecute(b, f, id, false, false);
      case IOC => SimExecute(b, f, id, true, false);
      case FOK =>
        if FokLiquidity(b, o) {
          SimExecute(b, f, id, true, false);
        } else {
          SimRelease(b, f, id);
        }
      case ICEBERG =>
        IcebergKeeps(b, id);
        PreparedIs(o);
        SimIceberg(b, f, id);
        StoredOrder(b.WithOrder(o.HandleIceberg()), id);
        SimExecute(b.WithOrder(o.HandleIceberg()), f, id, true, true);
    }
  }

  lemma SimIceberg(b: BookState, f: FlatBook, id: OrderId)
    requires MatchInv(b, id) && Sim(b, f)
    ensures Sim(b.WithOrder(b.orders[id].HandleIceberg()), f)
  {
    StoredOrder(b, id);
    SimSetOrder(b, None, f, b.WithOrder(b.orders[id].HandleIceberg()));
  }

  lemma SimAdd(b: BookState, f: FlatBook, o: OrderState)
    requires Inv(b) && Addable(b, o) && Sim(b, f) && FlatOk(f)
    ensures MatchInv(b.WithOrder(o), o.id)
    ensures var accept := FokLiquidity(b.WithOrder(o), o);
      && Sim(AddOrder(b, o), NaiveProcess(f, o, accept)) && FlatOk(NaiveProcess(f, o, accept))
  {
    AddedIsStored(b, o);
    SimSetOrder(b, None, f, b.WithOrder(o));
    SimProcess(b.WithOrder(o), f, o.id);
  }

  /** Cancelling an order that is live in the book takes it out of both; `true` is returned exactly
      for those. */
  lemma SimCancel(b: BookState, f: FlatBook, id: OrderId)
    requires Inv(b) && Sim(b, f) && FlatOk(f)
    ensures Sim(CancelOrder(b, id).0, NaiveCancel(f, id).0) && FlatOk(NaiveCancel(f, id).0)
    ensures CancelOrder(b, id).1 == NaiveCancel(f, id).1 == Live(b, id)
  {
    hide Inv, Sim, FlatOk, Unqueue, Release, TakeOut;
    InvIsInvBut(b);
    if Live(b, id) {
      var k := LiveIsListed(b, None, f, id);
      var i := IndexOf(f.list, id).value;
      ListedSide(f, i);
      SimTakeOut(b, None, f, id, i);
      TakeOutKeeps(f, i);
      UnqueueKeeps(b, None, id);
      SimRelease(Unqueue(b, id), f.(list := TakeOut(f.list, i)), id);
    } else {
      NotListed(b, f, id);
      if id in b.refs {
        SimSetOrder(b, None, f, b.(refs := Drop(b.refs, id)));
      }
    }
  }

  lemma ListedSide(f: FlatBook, i: nat)
    requires FlatOk(f) && i < |f.list|
    ensures f.list[i].order.side != INVALID && f.list[i].order.Sane()
  {
  }

  lemma SimModify(b: BookState, f: FlatBook, id: OrderId, newPrice: Price, newQty: Qty, accept: bool)
    requires Inv(b) && Sim(b, f) && FlatOk(f)
    ensures Sim(ModifyOrder(b, id, newPrice, newQty), NaiveModify(f, id, newPrice, newQty, accept))
    ensures FlatOk(NaiveModify(f, id, newPrice, newQty, accept))
  {
    hide Sim, FlatOk, Unqueue, TakeOut, ReenterBook, ModifyInPlace, NaiveProcess, OrderState.Refresh;
    if Live(b, id) {
      var k := LiveIsListed(b, None, f, id);
      var i := IndexOf(f.list, id).value;
      ListedSide(f, i);
      var j := ListedIsQueued(b, None, f, i);
      var o := b.orders[id];
      assert f.list[i].order == o;
      if newPrice == o.price && newQty <= o.total {
        if newQty >= o.filled {
          SimInPlace(b, f, id, i, newQty);
        }
      } else {
        SimReenter(b, f, id, i, newPrice, newQty, accept);
      }
    } else {
      NotListed(b, f, id);
      if id in b.refs && b.refs[id].price in b.SideOf(b.refs[id].side).levels {
        var modified := b.orders[id].ModifyQty(newQty);
        if modified.Some? {
          SimStale(b, f, id, modified.value);
        }
      }
    }
  }

  /** Modifying an order that is on no queue touches at most a depth. */
  lemma SimStale(b: BookState, f: FlatBook, id: OrderId, o: OrderState)
    requires Inv(b) && Sim(b, f) && !Live(b, id)
    requires id in b.refs && id in b.orders && b.refs[id].price in b.SideOf(b.refs[id].side).levels
    ensures Sim(ModifyInPlace(b, id, o), f)
  {
    hide Inv, Sim, Live, Pick, Resolve, ModifyInPlace;
    var b' := ModifyInPlace(b, id, o);
    InPlaceShape(b, id, o);
    SameTrades(b, f);
    forall s, p | s != INVALID
      ensures SameQueue(b', f, s, p)
    {
      SimQueue(b, f, s, p);
      NotQueued(b, id, s, p);
      ResolveFrame(b.Queue(s, p), b.orders, b'.orders);
    }
    SimFrom(b', f);
  }

  lemma SimFrom(b: BookState, f: FlatBook)
    requires forall s, p {:trigger SameQueue(b, f, s, p)} :: s != INVALID ==> SameQueue(b, f, s, p)
    requires f.bidBase == b.bids.base && f.askBase == b.asks.base && f.trades == b.trades
    ensures Sim(b, f)
  {
  }

  lemma NotQueued(b: BookState, id: OrderId, s: Side, p: Price)
    requires Inv(b) && !Live(b, id) && s != INVALID
    ensures forall i :: 0 <= i < |b.Queue(s, p)| ==> b.Queue(s, p)[i].id != id
  {
    forall i | 0 <= i < |b.Queue(s, p)|
      ensures b.Queue(s, p)[i].id != id
    {
      QueuedIsLive(b, None, s, p, i);
    }
  }

  lemma SimInPlace(b: BookState, f: FlatBook, id: OrderId, k: nat, newQty: Qty)
    requires Inv(b) && Sim(b, f) && FlatOk(f) && Live(b, id) && id in b.refs && id in b.orders
    requires k < |f.list| && f.list[k].order == b.orders[id] && f.list[k].order.id == id
    requires f.list[k].order.side != INVALID
    requires b.orders[id].filled <= newQty <= b.orders[id].total
    requires b.refs[id].price in b.SideOf(b.refs[id].side).levels
    ensures var o' := Resized(b.orders[id], b.orders[id].price, newQty);
      var f' := f.(list := f.list[k := f.list[k].(order := o')]);
      b.orders[id].ModifyQty(newQty) == Some(o') && Sim(ModifyInPlace(b, id, o'), f') && FlatOk(f')
  {
    hide Inv, FlatOk, Sim, ModifyInPlace, OrderState.Refresh, OrderState.Restable, Live;
    var o' := b.orders[id].ModifyQty(newQty).value;
    ModifiedIs(b.orders[id], newQty);
    ListedFit(f, k);
    ShrinkInPlace(b.orders[id], newQty);
    ReplaceKeeps(f, k, o');
    InvIsInvBut(b);
    var b' := ModifyInPlace(b, id, o');
    InPlaceShape(b, id, o');
    SameTrades(b, f);
    SimReplace(b, None, f, k, o', b', f.(list := f.list[k := f.list[k].(order := o')]));
  }

  lemma ListedKind(f: FlatBook, k: nat)
    requires FlatOk(f) && k < |f.list|
    ensures f.list[k].order.kind != FOK && f.list[k].order.Sane()
  {
  }

  lemma SimReenter(b: BookState, f: FlatBook, id: OrderId, k: nat, newPrice: Price, newQty: Qty, accept: bool)
    requires Inv(b) && Sim(b, f) && FlatOk(f) && Live(b, id) && id in b.orders
    requires k < |f.list| && f.list[k].order == b.orders[id] && IndexOf(f.list, id) == Some(k)
    requires f.list[k].order.side != INVALID
    requires newPrice != b.orders[id].price || newQty > b.orders[id].total
    ensures Sim(ReenterBook(b, id, newPrice, newQty), NaiveModify(f, id, newPrice, newQty, accept))
    ensures FlatOk(NaiveModify(f, id, newPrice, newQty, accept))
  {
    hide Inv, Sim, FlatOk, Unqueue, TakeOut, ProcessOrder, NaiveProcess, OrderState.Refresh, OrderState.Restable, Live;
    var o := b.orders[id];
    ListedFit(f, k);
    ListedKind(f, k);
    InvIsInvBut(b);
    SimTakeOut(b, None, f, id, k);
    TakeOutKeeps(f, k);
    UnqueueKeeps(b, None, id);
    UnqueueKeepsStore(b, id);
    ReenteredIs(o, newPrice, newQty);
    ReenteredIsStored(b, id, newPrice, newQty);
    InvIsInvBut(Unqueue(b, id));
    var left := f.(list := TakeOut(f.list, k));
    var again := Reenter(o, newPrice, newQty);
    if again.None? {
      SimDrop(Unqueue(b, id), left, id);
    } else {
      var b1 := Unqueue(b, id).WithOrder(again.value);
      SimStore(Unqueue(b, id), left, again.value);
      StoredOrder(b1, id);
      SimProcess(b1, left, id);
      NotFok(left, again.value, FokLiquidity(b1, again.value), accept);
    }
  }

  lemma SimDrop(b: BookState, f: FlatBook, id: OrderId)
    requires Inv(b) && Sim(b, f) && id !in b.refs
    ensures Sim(b.(orders := Drop(b.orders, id)), f)
  {
    SimSetOrder(b, None, f, b.(orders := Drop(b.orders, id)));
  }

  lemma SimStore(b: BookState, f: FlatBook, o: OrderState)
    requires Inv(b) && Sim(b, f) && o.id !in b.refs
    ensures Sim(b.WithOrder(o), f)
  {
    SimSetOrder(b, None, f, b.WithOrder(o));
  }

  lemma NotFok(f: FlatBook, o: OrderState, a: bool, a': bool)
    requires FlatOk(f) && o.Sane() && o.kind != FOK
    ensures NaiveProcess(f, o, a) == NaiveProcess(f, o, a')
  {
  }
}
