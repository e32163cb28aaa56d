/**
  The order book itself: two sides, the order store and the order index, updated in place.  Every
  method is proved to do to the abstract book exactly what the book's specification says.

  A dispatched trade is appended to the trade log of the abstract book.
 */
module OrderBooks {
  import opened Types
  import opened Orders
  import opened OrderArenas
  import opened PriceLevels
  import opened PriceWindows
  import opened PriceRingBuffers
  import opened BookSpec
  import opened BookInvariant
  import opened BookOps

  const INDEX_CHUNK: nat := 1024

  /** A level after one more order, at the given price of a side. */
  ghost function Grown(st: SideState, s: Side, price: Price, id: OrderId, pending: Qty): SideState {
    var at := st.EnsureLevel(s, price);
    at.SetLevel(price, at.levels[price].Add(id, pending))
  }

  /** What resting an order does to its side and to the index. */
  lemma RestParts(b: BookState, id: OrderId)
    requires id in b.orders && b.orders[id].id == id && b.orders[id].side != INVALID
    ensures var o := b.orders[id].Refresh(); var b' := Rest(b, id); var st := b.SideOf(o.side);
      && b'.orders == b.orders[id := o] && b'.trades == b.trades
      && o.price in st.EnsureLevel(o.side, o.price).levels
      && b'.refs == b.refs[id := OrderRef(o.side, o.price,
        Some(st.EnsureLevel(o.side, o.price).levels[o.price].NextSlot()))]
      && b'.SideOf(o.side) == Grown(st, o.side, o.price, id, o.Pending())
      && b'.SideOf(Opposite(o.side)) == b.SideOf(Opposite(o.side))
  {
    hide OrderState.Refresh, SideState.EnsureLevel, LevelState.Add;
    RestShape(b, id);
  }

  /** Ensures the level of a price, queues the order there and keeps the cached best right. */
  method AddToSide(ring: PriceRingBuffer, price: Price, id: OrderId, arena: OrderArena) returns (slot: nat)
    requires ring.Valid() && arena.Valid() && id in arena.model && id != INVALID_ORDER
    modifies ring, ring.slots, ring.home.Keys
    ensures ring.Valid()
    ensures ring.model == Grown(old(ring.model), ring.side, price, id, arena.model[id].Pending())
    ensures slot == old(ring.model).EnsureLevel(ring.side, price).levels[price].NextSlot()
    ensures forall l :: l in ring.home ==> l in old(ring.home) || fresh(l)
  {
    hide PriceLevel.Valid, OrderArena.Valid, PriceRingBuffer.Tied, PriceRingBuffer.CacheFor,
      PriceRingBuffer.CacheButFor, SideState.EnsureLevel;
    var level := ring.EnsureLevel(price);
    ring.Loosen(price);
    var wasEmpty := level.Empty();
    slot := level.AddOrder(id, arena);
    ring.LevelChanged(price);
    if wasEmpty {
      ring.MarkLevelNonEmpty(price);
    }
  }

  /** A side after one order has left the level of the given price; an emptied level goes too. */
  ghost function Shrunk(st: SideState, price: Price, e: Entry, pending: Qty): SideState
    requires price in st.levels
  {
    var level := st.levels[price].Remove(e, pending);
    if level.queue == [] then st.EraseLevel(price) else st.SetLevel(price, level)
  }

  /** Takes an order out of its level through its slot handle, and gives an emptied level back. */
  method RemoveFromSide(ring: PriceRingBuffer, level: PriceLevel, price: Price, slot: Option<nat>,
      id: OrderId, arena: OrderArena) returns (ok: bool)
    requires ring.Valid() && arena.Valid() && id in arena.model && id != INVALID_ORDER
    requires price in ring.model.levels && ring.KeyTied(price) && level == ring.LevelAt(price)
    requires level.Valid() && level.model == ring.model.levels[price] && level.model.queue != []
    modifies ring, ring.slots, ring.home.Keys
    ensures ring.Valid() && ring.home == old(ring.home)
    ensures ok <==> slot.Some? && Entry(id, slot.value) in old(level.model.queue)
    ensures ok ==> ring.model == Shrunk(old(ring.model), price, Entry(id, slot.value), arena.model[id].Pending())
    ensures !ok ==> ring.model == old(ring.model)
  {
    hide PriceLevel.Valid, OrderArena.Valid, PriceRingBuffer.Tied, PriceRingBuffer.CacheFor,
      PriceRingBuffer.CacheButFor, SideState.NonEmpty, LevelState.Remove;
    ring.Loosen(price);
    ok := level.RemoveOrderAt(slot, id, arena);
    ring.LevelChanged(price);
    if !ok {
      SetSame(old(ring.model), price);
      return;
    }
    if level.Empty() {
      ring.EraseLevel(price);
      EraseSet(old(ring.model), price, level.model);
    }
  }

  lemma SetSame(st: SideState, price: Price)
    requires price in st.levels
    ensures st.SetLevel(price, st.levels[price]) == st
  {
    assert st.levels[price := st.levels[price]] == st.levels;
  }

  lemma EraseSet(st: SideState, price: Price, level: LevelState)
    ensures st.SetLevel(price, level).EraseLevel(price) == st.EraseLevel(price)
  {
    assert Drop(st.levels[price := level], price) == Drop(st.levels, price);
  }

  /** A live order whose new quantity is not below what is filled has the new price and quantity, if it is
      still stored. */
  ghost predicate HasNewTerms(b: BookState, id: OrderId, newPrice: Price, newQty: Qty, b': BookState) {
    Live(b, id) && newQty >= b.orders[id].filled && id in b'.orders ==>
      b'.orders[id].total == newQty && b'.orders[id].price == newPrice
  }

  class OrderBook {
    const bids: PriceRingBuffer
    const asks: PriceRingBuffer
    const orders: OrderArena
    var orderIndex: seq<OrderRef>
    ghost var model: BookState

    /** The index entry of an id, empty beyond the end of the vector. */
    ghost function IndexAt(id: OrderId): OrderRef
      reads this`orderIndex
    {
      if id < |orderIndex| then orderIndex[id] else NO_REF
    }

    ghost predicate IndexTied()
      reads this`orderIndex, this`model
    {
      && (forall id: OrderId {:trigger IndexAt(id)} :: id in model.refs <==> IndexAt(id).side != INVALID)
      && (forall id: OrderId {:trigger IndexAt(id)} :: id in model.refs ==> IndexAt(id) == model.refs[id])
    }

    /** The two sides share nothing. */
    ghost predicate Apart()
      reads bids`home, asks`home
    {
      && bids != asks && bids.slots != asks.slots && bids.home.Keys !! asks.home.Keys
      && bids.side == BUY && asks.side == SELL
    }

    /** The store and both sides are the abstract ones. */
    ghost predicate PartsTied()
      reads this`model, bids`model, asks`model, orders`model
    {
      && model.bids == bids.model && model.asks == asks.model && model.orders == orders.model
    }

    ghost predicate Valid()
      reads this, bids, bids.slots, bids.home.Keys, asks, asks.slots, asks.home.Keys, orders, orders.owned
    {
      && Apart()
      && bids.Valid() && asks.Valid() && orders.Valid()
      && PartsTied()
      && IndexTied()
    }

    constructor ()
      ensures Valid() && model == EMPTY_BOOK && Inv(model)
    {
      bids := new PriceRingBuffer(BUY);
      asks := new PriceRingBuffer(SELL);
      orders := new OrderArena();
      orderIndex := [];
      model := EMPTY_BOOK;
      EmptyBookOk();
    }

    function Ring(s: Side): PriceRingBuffer {
      if s == BUY then bids else asks
    }

    lemma RingTied(s: Side)
      requires Valid() && s != INVALID
      ensures Ring(s).Tied() && Ring(s).model == model.SideOf(s)
    {
      hide PriceRingBuffer.Tied, OrderArena.Valid;
    }

    method EnsureOrderIndexCapacity(orderId: OrderId)
      requires IndexTied() && orderId != INVALID_ORDER
      modifies this`orderIndex
      ensures IndexTied() && orderId < |orderIndex|
    {
      var required := orderId + 1;
      if required <= |orderIndex| {
        return;
      }
      var newSize := ((required + INDEX_CHUNK - 1) / INDEX_CHUNK) * INDEX_CHUNK;
      orderIndex := orderIndex + seq(newSize - |orderIndex|, _ => NO_REF);
      assert forall id: OrderId :: IndexAt(id) == old(IndexAt(id));
    }

    /** The index entry of an order, unless it is empty. */
    method FindOrderRef(orderId: OrderId) returns (ref: Option<OrderRef>)
      requires Valid()
      ensures ref == if orderId in model.refs then Some(model.refs[orderId]) else None
    {
      hide PriceRingBuffer.Valid, OrderArena.Valid;
      assert IndexAt(orderId).side == INVALID <==> orderId !in model.refs;
      if orderId >= |orderIndex| {
        return None;
      }
      return if orderIndex[orderId].side == INVALID then None else Some(orderIndex[orderId]);
    }

    method ClearOrderRef(orderId: OrderId)
      requires IndexTied()
      modifies this`orderIndex, this`model
      ensures IndexTied() && model == old(model).(refs := Drop(old(model).refs, orderId))
    {
      if orderId < |orderIndex| {
        orderIndex := orderIndex[orderId := NO_REF];
      }
      model := model.(refs := Drop(model.refs, orderId));
      assert forall id: OrderId :: id != orderId ==> IndexAt(id) == old(IndexAt(id));
    }

    /** Writes the index entry of an order that came to rest. */
    method SetOrderRef(orderId: OrderId, ref: OrderRef)
      requires IndexTied() && orderId != INVALID_ORDER && ref.side != INVALID
      modifies this`orderIndex, this`model
      ensures IndexTied() && model == old(model).(refs := old(model).refs[orderId := ref])
    {
      EnsureOrderIndexCapacity(orderId);
      label grown:
      orderIndex := orderIndex[orderId := ref];
      model := model.(refs := model.refs[orderId := ref]);
      assert forall id: OrderId :: id != orderId ==> IndexAt(id) == old@grown(IndexAt(id));
    }

    /** The abstract book follows the store and the sides. */
    ghost method SetModel(b: BookState)
      requires IndexTied() && b.refs == model.refs
      modifies this`model
      ensures IndexTied() && model == b
    {
      model := b;
    }

    /** Queues an order on one side; the other side does not change. */
    method AddToBook(s: Side, price: Price, id: OrderId) returns (slot: nat)
      requires Apart() && bids.Valid() && asks.Valid() && s != INVALID
      requires orders.Valid() && id in orders.model && id != INVALID_ORDER
      modifies bids, bids.slots, bids.home.Keys, asks, asks.slots, asks.home.Keys
      ensures Apart() && bids.Valid() && asks.Valid()
      ensures Ring(s).model == Grown(old(Ring(s).model), s, price, id, orders.model[id].Pending())
      ensures Ring(Opposite(s)).model == old(Ring(Opposite(s)).model)
      ensures slot == old(Ring(s).model).EnsureLevel(s, price).levels[price].NextSlot()
      ensures forall l :: l in bids.home ==> l in old(bids.home) || fresh(l)
      ensures forall l :: l in asks.home ==> l in old(asks.home) || fresh(l)
    {
      hide PriceRingBuffer.Valid, OrderArena.Valid, Grown, SideState.EnsureLevel;
      if s == BUY {
        slot := AddToSide(bids, price, id, orders);
      } else {
        slot := AddToSide(asks, price, id, orders);
      }
    }

    /** A stored order shows a fresh clip. */
    method RefreshStored(orderId: OrderId)
      requires Valid() && orderId in model.orders && model.orders[orderId].id == orderId
      modifies this`model, orders`model, orders.owned
      ensures Valid()
      ensures model == old(model).(orders := old(model).orders[orderId := old(model).orders[orderId].Refresh()])
    {
      hide PriceRingBuffer.Valid, OrderArena.Valid, IndexTied, OrderState.Refresh;
      var order := orders.Find(orderId);
      orders.Loosen(orderId);
      order.RefreshWorkingQuantity();
      orders.Sync(orderId);
      SetModel(model.(orders := orders.model));
    }

    /** Refreshes a stored order and queues it on its side; the index does not know yet. */
    method EnqueueStored(orderId: OrderId) returns (ref: OrderRef)
      requires Valid() && orderId in model.orders && orderId != INVALID_ORDER
      requires model.orders[orderId].id == orderId && model.orders[orderId].side != INVALID
      modifies this`model, bids, bids.slots, bids.home.Keys, asks, asks.slots, asks.home.Keys, orders`model,
        orders.owned
      ensures Apart() && bids.Valid() && asks.Valid() && orders.Valid() && IndexTied()
      ensures model == old(model).(orders := orders.model)
      ensures orders.model == old(model).orders[orderId := old(model).orders[orderId].Refresh()]
      ensures var o := old(model).orders[orderId].Refresh();
        && Ring(o.side).model == Grown(old(model).SideOf(o.side), o.side, o.price, orderId, o.Pending())
        && Ring(Opposite(o.side)).model == old(model).SideOf(Opposite(o.side))
        && o.price in old(model).SideOf(o.side).EnsureLevel(o.side, o.price).levels
        && ref == OrderRef(o.side, o.price,
          Some(old(model).SideOf(o.side).EnsureLevel(o.side, o.price).levels[o.price].NextSlot()))
      ensures forall l :: l in bids.home ==> l in old(bids.home) || fresh(l)
      ensures forall l :: l in asks.home ==> l in old(asks.home) || fresh(l)
    {
      hide PriceRingBuffer.Valid, OrderArena.Valid, IndexTied, SideState.EnsureLevel, LevelState.NextSlot,
        OrderState.Refresh, OrderState.Pending, Grown;
      RestParts(old(model), orderId);
      RefreshStored(orderId);
      var order := orders.Find(orderId);
      var slot := AddToBook(order.side, order.price, orderId);
      ref := OrderRef(order.side, order.price, Some(slot));
    }

    method RestOrderInternal(orderId: OrderId)
      requires Valid() && orderId in model.orders && orderId != INVALID_ORDER
      requires model.orders[orderId].id == orderId && model.orders[orderId].side != INVALID
      modifies this, bids, bids.slots, bids.home.Keys, asks, asks.slots, asks.home.Keys, orders`model, orders.owned
      ensures Valid() && model == Rest(old(model), orderId)
      ensures forall l :: l in bids.home ==> l in old(bids.home) || fresh(l)
      ensures forall l :: l in asks.home ==> l in old(asks.home) || fresh(l)
    {
      hide PriceRingBuffer.Valid, OrderArena.Valid, IndexTied, SideState.EnsureLevel, LevelState.NextSlot,
        OrderState.Refresh, OrderState.Pending, Rest, Grown;
      RestParts(old(model), orderId);
      var ref := EnqueueStored(orderId);
      SetOrderRef(orderId, ref);
      SetModel(Rest(old(model), orderId));
    }

    /** Takes an order out of its level on one side; the other side does not change. */
    method RemoveFromBook(s: Side, level: PriceLevel, price: Price, slot: Option<nat>, id: OrderId) returns (ok: bool)
      requires Apart() && bids.Valid() && asks.Valid() && s != INVALID
      requires orders.Valid() && id in orders.model && id != INVALID_ORDER
      requires price in Ring(s).model.levels && Ring(s).KeyTied(price) && level == Ring(s).LevelAt(price)
      requires level.Valid() && level.model == Ring(s).model.levels[price] && level.model.queue != []
      modifies bids, bids.slots, bids.home.Keys, asks, asks.slots, asks.home.Keys
      ensures Apart() && bids.Valid() && asks.Valid() && bids.home == old(bids.home) && asks.home == old(asks.home)
      ensures ok <==> slot.Some? && Entry(id, slot.value) in old(level.model.queue)
      ensures ok ==>
        Ring(s).model == Shrunk(old(Ring(s).model), price, Entry(id, slot.value), orders.model[id].Pending())
      ensures !ok ==> Ring(s).model == old(Ring(s).model)
      ensures Ring(Opposite(s)).model == old(Ring(Opposite(s)).model)
    {
      hide PriceRingBuffer.Valid, OrderArena.Valid, Shrunk, PriceLevel.Valid;
      if s == BUY {
        ok := RemoveFromSide(bids, level, price, slot, id, orders);
      } else {
        ok := RemoveFromSide(asks, level, price, slot, id, orders);
      }
    }

    method ReleaseOrderInternal(orderId: OrderId)
      requires Valid()
      modifies this`orderIndex, this`model, orders`slots, orders`model
      ensures Valid() && model == Release(old(model), orderId)
    {
      hide PriceRingBuffer.Valid, OrderArena.Valid, IndexTied;
      ClearOrderRef(orderId);
      orders.Erase(orderId);
      SetModel(Release(old(model), orderId));
    }

    /** An order leaves its level and the index, if the index says where it is. */
    method UnqueueOrder(s: Side, level: PriceLevel, price: Price, orderId: OrderId) returns (ok: bool)
      requires Valid() && orderId in model.refs && orderId in model.orders && orderId != INVALID_ORDER && s != INVALID
      requires model.refs[orderId].side == s && model.refs[orderId].price == price
      requires Ring(s).KeyTied(price) && level == Ring(s).LevelAt(price) && price in model.SideOf(s).levels
      requires level.Valid() && level.model == model.SideOf(s).levels[price] && level.model.queue != []
      modifies this`orderIndex, this`model, bids, bids.slots, bids.home.Keys, asks, asks.slots, asks.home.Keys
      ensures Valid() && (ok <==> Live(old(model), orderId))
      ensures ok ==> model == Unqueue(old(model), orderId)
      ensures !ok ==> model == old(model)
      ensures bids.home == old(bids.home) && asks.home == old(asks.home)
    {
      hide PriceRingBuffer.Valid, OrderArena.Valid, IndexTied, PriceLevel.Valid, LevelState.Remove;
      var ref := FindOrderRef(orderId);
      var slot := if ref.Some? then ref.value.slot else None;
      ok := RemoveFromBook(s, level, price, slot, orderId);
      if !ok {
        return;
      }
      ClearOrderRef(orderId);
      SetModel(Unqueue(old(model), orderId));
    }

    /** The order is an iceberg with something left beyond its clips. */
    method HasHiddenRest(orderId: OrderId) returns (hidden: bool)
      requires Valid() && orderId in model.orders
      ensures hidden <==> model.orders[orderId].HasDisplay() && model.orders[orderId].Remaining() > 0
    {
      var order := orders.Find(orderId);
      return order.HasDisplayQuantity() && order.RemainingQuantity() > 0;
    }

    method RemoveRestingOrderInternal(restingSide: Side, price: Price, level: PriceLevel, orderId: OrderId)
      requires Valid() && Live(model, orderId) && orderId != INVALID_ORDER && restingSide != INVALID
      requires model.refs[orderId].side == restingSide && model.refs[orderId].price == price
      requires model.orders[orderId].id == orderId && model.orders[orderId].side != INVALID
      requires Ring(restingSide).KeyTied(price) && level == Ring(restingSide).LevelAt(price)
      requires level.Valid() && level.model == model.SideOf(restingSide).levels[price]
      modifies this, bids, bids.slots, bids.home.Keys, asks, asks.slots, asks.home.Keys, orders, orders.owned
      ensures Valid() && model == RemoveResting(old(model), orderId)
      ensures forall l :: l in bids.home ==> l in old(bids.home) || fresh(l)
      ensures forall l :: l in asks.home ==> l in old(asks.home) || fresh(l)
      ensures orders.owned == old(orders.owned)
    {
      hide Valid, PriceLevel.Valid, Rest, Live, OrderState.Refresh, Unqueue, Release;
      UnqueueKeepsStore(model, orderId);
      var ok := UnqueueOrder(restingSide, level, price, orderId);
      assert ok;  // the index names the slot: the source's early return is not taken
      var hidden := HasHiddenRest(orderId);
      if hidden {
        RefreshStored(orderId);
        RestOrderInternal(orderId);
        return;
      }
      ReleaseOrderInternal(orderId);
    }

    /** A fill, part by part. */
    lemma FillParts(b: BookState, id: OrderId, s: Side, p: Price)
      requires MatchInv(b, id) && s == Opposite(b.orders[id].side) && BestPrice(b, s) == Some(p)
      requires p in b.SideOf(s).levels
      ensures var h := Head(b, id);
        && b.SideOf(s).levels[p].queue != [] && b.SideOf(s).levels[p].queue[0].id == h
        && id in b.orders && h in b.orders && h != id && b.orders[id].id == id && b.orders[h].id == h
        && b.orders[h].side == s
      ensures var o, h := b.orders[id], Head(b, id); var head := b.orders[h]; var was := b.SideOf(s).levels[p];
        var t := Min(o.Pending(), head.Pending());
        var filled := b.(orders := b.orders[id := o.AddFill(t)][h := head.AddFill(t)]);
        var f := filled.WithSide(s, b.SideOf(s).SetLevel(p, was.(openQty := SaturatingSub(was.openQty, t))));
        Fill(b, id) == if t > 0
          then f.(trades := f.trades + [TradeEvent(o.instrument, o.side, id, s, h, head.price, t)]) else f
    {
      HeadIsLive(b, id);
      assert b.orders[id].id == id;
      hide InvBut, Live;
    }

    /** The fill of one round: the incoming order and the oldest order of the best opposite level. */
    method FillHead(orderId: OrderId, restingSide: Side, bestPrice: Price, level: PriceLevel)
      returns (restingId: OrderId)
      requires Valid() && MatchInv(model, orderId)
      requires restingSide == Opposite(model.orders[orderId].side) && BestPrice(model, restingSide) == Some(bestPrice)
      requires bestPrice in model.SideOf(restingSide).levels && restingSide != INVALID
      requires Ring(restingSide).KeyTied(bestPrice) && level == Ring(restingSide).LevelAt(bestPrice)
      requires level.Valid() && level.model == model.SideOf(restingSide).levels[bestPrice]
      modifies this`model, bids`model, asks`model, level, orders`model, orders.owned
      ensures Valid() && model == Fill(old(model), orderId) && restingId == Head(old(model), orderId)
      ensures level.Valid() && level.model == model.SideOf(restingSide).levels[bestPrice]
    {
      hide Valid, PriceLevel.Valid, MatchInv, BestPrice, OrderState.AddFill, Fill, Head;
      FillParts(model, orderId, restingSide, bestPrice);
      restingId := level.HeadOrderId();
      var incoming := Snapshot(orderId);
      var headOrder := Snapshot(restingId);
      var tradeQty: Qty := if incoming.Pending() <= headOrder.Pending() then incoming.Pending()
        else headOrder.Pending();
      FillOrder(orderId, tradeQty);
      FillOrder(restingId, tradeQty);
      DecDepth(restingSide, level, bestPrice, tradeQty);
      if tradeQty > 0 {
        DispatchTrade(TradeEvent(incoming.instrument, incoming.side, orderId, restingSide, restingId,
          headOrder.price, tradeQty));
      }
    }

    /** A trade is reported. */
    ghost method DispatchTrade(event: TradeEvent)
      requires Valid()
      modifies this`model
      ensures Valid() && model == old(model).(trades := old(model).trades + [event])
    {
      hide PriceRingBuffer.Valid, OrderArena.Valid, IndexTied;
      SetModel(model.(trades := model.trades + [event]));
    }

    /** What the fields of a stored order are now. */
    method Snapshot(orderId: OrderId) returns (o: OrderState)
      requires Valid() && orderId in model.orders
      ensures o == model.orders[orderId]
    {
      hide PriceRingBuffer.Valid, OrderArena.Valid, IndexTied;
      var order := orders.Find(orderId);
      return OrderState(order.id, order.instrument, order.side, order.price, order.total, order.working, order.filled,
        order.display, order.kind);
    }

    method PendingOf(orderId: OrderId) returns (q: Qty)
      requires Valid() && orderId in model.orders
      ensures q == model.orders[orderId].Pending()
    {
      hide PriceRingBuffer.Valid, OrderArena.Valid, IndexTied;
      var order := orders.Find(orderId);
      return order.PendingQuantity();
    }

    /** Adds a fill to a stored order. */
    method FillOrder(orderId: OrderId, qty: Qty)
      requires Valid() && orderId in model.orders
      modifies this`model, orders`model, orders.owned
      ensures Valid()
      ensures model == old(model).(orders := old(model).orders[orderId := old(model).orders[orderId].AddFill(qty)])
    {
      hide PriceRingBuffer.Valid, OrderArena.Valid, IndexTied, OrderState.AddFill;
      var order := orders.Find(orderId);
      orders.Loosen(orderId);
      order.AddFill(qty);
      orders.Sync(orderId);
      SetModel(model.(orders := orders.model));
    }

    /** The depth of a level goes down; nothing else about the book changes. */
    method DecDepth(s: Side, level: PriceLevel, price: Price, qty: Qty)
      requires Valid() && s != INVALID
      requires price in model.SideOf(s).levels && Ring(s).KeyTied(price) && level == Ring(s).LevelAt(price)
      requires level.Valid() && level.model == model.SideOf(s).levels[price]
      modifies this`model, bids`model, asks`model, level
      ensures Valid()
      ensures var st := old(model).SideOf(s); var was := st.levels[price];
        model == old(model).WithSide(s, st.SetLevel(price, was.(openQty := SaturatingSub(was.openQty, qty))))
      ensures level.Valid() && level.model == model.SideOf(s).levels[price]
    {
      hide PriceLevel.Valid, PriceRingBuffer.Tied, PriceRingBuffer.CacheFor, OrderArena.Valid, IndexTied;
      if s == BUY {
        bids.Loosen(price);
        level.DecOpenQty(qty);
        bids.LevelChanged(price);
        SetModel(model.(bids := bids.model));
      } else {
        asks.Loosen(price);
        level.DecOpenQty(qty);
        asks.LevelChanged(price);
        SetModel(model.(asks := asks.model));
      }
    }

    /** The best level of a side with its price. */
    method BestLevel(s: Side) returns (level: PriceLevel?, price: Price)
      requires Valid() && s != INVALID
      modifies bids`bestSlot, bids`bestPrice, asks`bestSlot, asks`bestPrice
      ensures Valid()
      ensures level == null <==> BestPrice(model, s).None?
      ensures level != null ==> BestPrice(model, s) == Some(price) && price in model.SideOf(s).levels
      ensures level != null ==> Ring(s).KeyTied(price) && level == Ring(s).LevelAt(price)
      ensures level != null ==> level.Valid() && level.model == model.SideOf(s).levels[price]
    {
      hide PriceLevel.Valid, PriceRingBuffer.Valid, OrderArena.Valid, IndexTied, SideState.NonEmpty;
      if s == BUY {
        level, price := bids.BestLevel();
      } else {
        level, price := asks.BestLevel();
      }
    }

    /** One round of the match loop. */
    method MatchRound(orderId: OrderId, restingSide: Side, bestPrice: Price, level: PriceLevel)
      requires Valid() && MatchInv(model, orderId) && restingSide != INVALID
      requires restingSide == Opposite(model.orders[orderId].side) && BestPrice(model, restingSide) == Some(bestPrice)
      requires bestPrice in model.SideOf(restingSide).levels
      requires Ring(restingSide).KeyTied(bestPrice) && level == Ring(restingSide).LevelAt(bestPrice)
      requires level.Valid() && level.model == model.SideOf(restingSide).levels[bestPrice]
      modifies this, bids, bids.slots, bids.home.Keys, asks, asks.slots, asks.home.Keys, orders, orders.owned
      ensures Valid() && model == MatchStep(old(model), orderId)
      ensures forall l :: l in bids.home ==> l in old(bids.home) || fresh(l)
      ensures forall l :: l in asks.home ==> l in old(asks.home) || fresh(l)
      ensures orders.owned == old(orders.owned)
    {
      hide Valid, PriceLevel.Valid, MatchInv, BestPrice, OrderState.AddFill, Fill, Head, Live, RemoveResting;
      RoundParts(model, orderId, restingSide, bestPrice);
      assert level in Ring(restingSide).home.Keys by { LevelIsHome(restingSide, bestPrice); }
      var restingId := FillHead(orderId, restingSide, bestPrice, level);
      var left := PendingOf(restingId);
      if left == 0 {
        RemoveRestingOrderInternal(restingSide, bestPrice, level, restingId);
      }
    }

    lemma LevelIsHome(s: Side, price: Price)
      requires Valid() && s != INVALID && Ring(s).KeyTied(price)
      ensures Ring(s).LevelAt(price) in Ring(s).home
    {
      hide PriceLevel.Valid;
      assert Ring(s).SlotShaped(price - Ring(s).basePrice);
    }

    /** A round: what is known of the resting order after the fill. */
    lemma RoundParts(b: BookState, id: OrderId, s: Side, p: Price)
      requires MatchInv(b, id) && s == Opposite(b.orders[id].side) && BestPrice(b, s) == Some(p)
      ensures var f, h := Fill(b, id), Head(b, id);
        && Live(f, h) && h in f.orders && h != INVALID_ORDER && f.refs[h].side == s && f.refs[h].price == p
        && f.orders[h].id == h && f.orders[h].side != INVALID
        && MatchStep(b, id) == if f.orders[h].Pending() == 0 then RemoveResting(f, h) else f
    {
      hide RemoveResting;
      FilledIsLive(b, id);
      HeadIsLive(b, id);
      FillShape(b, id);
      FillKeeps(b, id);
      assert OrdersOk(Fill(b, id));
    }

    /** The loop, one round at a time. */
    lemma LoopUnfolds(b: BookState, id: OrderId, respectPrice: bool)
      requires MatchInv(b, id)
      ensures !CanMatch(b, id, respectPrice) ==> MatchLoop(b, id, respectPrice) == b
      ensures CanMatch(b, id, respectPrice) ==>
        && MatchInv(MatchStep(b, id), id)
        && MatchLoop(b, id, respectPrice) == MatchLoop(MatchStep(b, id), id, respectPrice)
        && (MatchStep(b, id).orders[id].Pending() < b.orders[id].Pending() ||
              (MatchStep(b, id).orders[id].Pending() == b.orders[id].Pending() &&
                |MatchStep(b, id).orders| < |b.orders|))
    {
      if CanMatch(b, id, respectPrice) {
        MatchStepKeeps(b, id);
      }
    }

    lemma StoredSide(b: BookState, id: OrderId)
      requires MatchInv(b, id)
      ensures id in b.orders && b.orders[id].id == id && b.orders[id].side != INVALID && id != INVALID_ORDER
      ensures Inv(b) && id !in b.refs
    {
      assert b.orders[id] == b.orders[id];
    }

    /** The while loop of executeMatch. */
    method MatchAll(orderId: OrderId, respectPrice: bool)
      requires Valid() && MatchInv(model, orderId)
      modifies this, bids, bids.slots, bids.home.Keys, asks, asks.slots, asks.home.Keys, orders, orders.owned
      ensures Valid() && MatchInv(model, orderId)
      ensures model == MatchLoop(old(model), orderId, respectPrice)
      ensures forall l :: l in bids.home ==> l in old(bids.home) || fresh(l)
      ensures forall l :: l in asks.home ==> l in old(asks.home) || fresh(l)
      ensures orders.owned == old(orders.owned)
    {
      hide Valid, PriceLevel.Valid, MatchInv, Inv, BestPrice, MatchLoop, MatchStep, OrderState.Pending,
        PriceRingBuffer.KeyTied, PriceRingBuffer.LevelAt;
      StoredSide(model, orderId);
      while true
        invariant Valid() && MatchInv(model, orderId) && orderId in model.orders
        invariant MatchLoop(model, orderId, respectPrice) == MatchLoop(old(model), orderId, respectPrice)
        invariant forall l :: l in bids.home ==> l in old(bids.home) || fresh(l)
        invariant forall l :: l in asks.home ==> l in old(asks.home) || fresh(l)
        invariant orders.owned == old(orders.owned)
        decreases model.orders[orderId].Pending(), |model.orders|
      {
        StoredSide(model, orderId);
        LoopUnfolds(model, orderId, respectPrice);
        var order := Snapshot(orderId);
        if order.Pending() == 0 {
          break;
        }
        var level, bestPrice := BestLevel(Opposite(order.side));
        if level == null {
          break;
        }
        if respectPrice {
          var matchPossible := if order.side == BUY then order.price >= bestPrice else order.price <= bestPrice;
          if !matchPossible {
            break;
          }
        }
        MatchRound(orderId, Opposite(order.side), bestPrice, level);
        StoredSide(model, orderId);
      }
    }

    method ExecuteMatch(orderId: OrderId, respectPrice: bool, allowRest: bool)
      requires Valid() && MatchInv(model, orderId)
      modifies this, bids, bids.slots, bids.home.Keys, asks, asks.slots, asks.home.Keys, orders, orders.owned
      ensures Valid() && model == BookOps.ExecuteMatch(old(model), orderId, respectPrice, allowRest)
      ensures forall l :: l in bids.home ==> l in old(bids.home) || fresh(l)
      ensures forall l :: l in asks.home ==> l in old(asks.home) || fresh(l)
      ensures orders.owned == old(orders.owned)
    {
      hide Valid, MatchInv, MatchLoop, Rest, Release;
      MatchAll(orderId, respectPrice);
      StoredSide(model, orderId);
      var left := PendingOf(orderId);
      if allowRest && left > 0 {
        RestOrderInternal(orderId);
      } else {
        ReleaseOrderInternal(orderId);
      }
    }

    // ---- fill-or-kill and iceberg preparation --------------------------------------------------------

    /** The depth that an order of side s with this limit could take. */
    method AvailableLiquidityAgainst(s: Side, limitPrice: Price) returns (total: Qty)
      requires Valid() && s != INVALID
      ensures total == Liquidity(model, s, limitPrice)
    {
      hide Valid, PriceRingBuffer.Tied, SideState.NonEmpty, Ascending;
      RingTied(Opposite(s));
      var ring := Ring(Opposite(s));
      var visited := ring.ForEachAscending();
      AscendingIsSorted(ring.model.NonEmpty());
      ghost var prices := Prices(visited);
      total := 0;
      var i := 0;
      while i < |visited|
        invariant 0 <= i <= |visited| == |prices|
        invariant forall p :: p in prices ==> p in ring.model.levels
        invariant total == SumDepth(ring.model.levels, prices[..i], s, limitPrice)
      {
        assert prices[..i + 1][..i] == prices[..i] && prices[i] == visited[i].price;
        if Crosses(s, limitPrice, visited[i].price) {
          total := WrapAdd(total, visited[i].level.openQty);
        }
        i := i + 1;
      }
      assert prices[..|prices|] == prices;
    }

    method EnsureFokLiquidity(orderId: OrderId) returns (ok: bool)
      requires Valid() && MatchInv(model, orderId)
      ensures ok <==> FokLiquidity(model, model.orders[orderId])
    {
      hide Valid, MatchInv, Liquidity;
      StoredSide(model, orderId);
      var order := Snapshot(orderId);
      var available := AvailableLiquidityAgainst(order.side, order.price);
      return available >= order.Pending();
    }

    method HandleIceberg(orderId: OrderId)
      requires Valid() && orderId in model.orders && model.orders[orderId].id == orderId
      modifies this`model, orders`model, orders.owned
      ensures Valid() && model == old(model).WithOrder(old(model).orders[orderId].HandleIceberg())
      ensures var o, o' := old(model).orders[orderId], model.orders[orderId]; o.kind == ICEBERG && o.Sane() ==>
        o' == Rested(o, 0) && o'.display == (if o.display > 0 then o.display else o.total - o.filled)
    {
      hide PriceRingBuffer.Valid, OrderArena.Valid, IndexTied, OrderState.Refresh, Rested;
      var order := orders.Find(orderId);
      orders.Loosen(orderId);
      if !order.HasDisplayQuantity() {
        order.SetDisplayQuantity(order.RemainingQuantity());
      }
      order.RefreshWorkingQuantity();
      orders.Sync(orderId);
      SetModel(model.(orders := orders.model));
      PreparedTerms(old(model).orders[orderId]);
    }

    lemma PreparedTerms(o: OrderState)
      ensures o.kind == ICEBERG && o.Sane() ==> var o' := o.HandleIceberg();
        o' == Rested(o, 0) && o'.display == (if o.display > 0 then o.display else o.total - o.filled)
    {
      if o.kind == ICEBERG && o.Sane() {
        PreparedIs(o);
      }
    }

    // ---- the public operations -----------------------------------------------------------------------

    method ProcessOrder(orderId: OrderId)
      requires Valid() && MatchInv(model, orderId)
      modifies this, bids, bids.slots, bids.home.Keys, asks, asks.slots, asks.home.Keys, orders, orders.owned
      ensures Valid() && model == BookOps.ProcessOrder(old(model), orderId)
      ensures forall l :: l in bids.home ==> l in old(bids.home) || fresh(l)
      ensures forall l :: l in asks.home ==> l in old(asks.home) || fresh(l)
      ensures orders.owned == old(orders.owned)
    {
      hide Valid, MatchInv, BookOps.ExecuteMatch, FokLiquidity, Release;
      StoredSide(model, orderId);
      var order := Snapshot(orderId);
      match order.kind {
        case LIMIT =>
          ExecuteMatch(orderId, true, true);
        case MARKET =>
          ExecuteMatch(orderId, false, false);
        case IOC =>
          ExecuteMatch(orderId, true, false);
        case FOK =>
          var enough := EnsureFokLiquidity(orderId);
          if !enough {
            ReleaseOrderInternal(orderId);
            return;
          }
          ExecuteMatch(orderId, true, false);
        case ICEBERG =>
          IcebergKeeps(model, orderId);
          HandleIceberg(orderId);
          ExecuteMatch(orderId, true, true);
      }
    }

    /** Stores the order, which the caller gives up, and processes it. */
    method AddOrder(order: Order)
      requires Valid() && Inv(model) && Addable(model, order.State()) && order !in orders.owned
      modifies this, bids, bids.slots, bids.home.Keys, asks, asks.slots, asks.home.Keys, orders, orders.owned, order
      ensures Valid() && model == BookOps.AddOrder(old(model), old(order.State())) && Inv(model)
      ensures forall l :: l in bids.home ==> l in old(bids.home) || fresh(l)
      ensures forall l :: l in asks.home ==> l in old(asks.home) || fresh(l)
      ensures orders.owned == old(orders.owned) + {order}
    {
      hide Inv, BookOps.ProcessOrder, MatchInv;
      AddedIsStored(model, order.State());
      AddOrderKeeps(model, order.State());
      StoreOrder(order);
      hide Valid;
      ProcessOrder(order.id);
    }

    method StoreOrder(order: Order)
      requires Valid() && order !in orders.owned && order.id != INVALID_ORDER
      modifies this`model, orders
      ensures Valid() && model == old(model).WithOrder(order.State())
      ensures orders.owned == old(orders.owned) + {order}
    {
      hide PriceRingBuffer.Valid, OrderArena.Valid, IndexTied;
      orders.Store(order);
      SetModel(model.(orders := orders.model));
    }

    method FindLevel(s: Side, price: Price) returns (level: PriceLevel?)
      requires Valid() && s != INVALID
      ensures level == null <==> price !in model.SideOf(s).levels
      ensures level != null ==> Ring(s).KeyTied(price) && level == Ring(s).LevelAt(price)
      ensures level != null ==> level.Valid() && level.model == model.SideOf(s).levels[price]
      ensures level != null ==> level in Ring(s).home.Keys
    {
      hide PriceLevel.Valid, PriceRingBuffer.Tied, OrderArena.Valid, IndexTied;
      level := Ring(s).FindLevel(price);
    }

    /** Clears the index entry of an order that is not where the entry says. */
    method ForgetRef(orderId: OrderId)
      requires Valid()
      modifies this`orderIndex, this`model
      ensures Valid() && model == old(model).(refs := Drop(old(model).refs, orderId))
    {
      hide PriceRingBuffer.Valid, OrderArena.Valid, IndexTied;
      ClearOrderRef(orderId);
    }

    /** What the invariant says about an indexed order. */
    lemma IndexedOrder(b: BookState, id: OrderId)
      requires Inv(b)
      ensures id in b.refs ==>
        && id in b.orders && id != INVALID_ORDER && b.refs[id].side != INVALID && b.orders[id].side == b.refs[id].side
        && b.orders[id].id == id
        && (b.refs[id].price in b.SideOf(b.refs[id].side).levels ==>
              b.SideOf(b.refs[id].side).levels[b.refs[id].price].queue != [])
        && (Live(b, id) ==> b.refs[id].price in b.SideOf(b.refs[id].side).levels)
    {
      if id in b.refs {
        var ref := b.refs[id];
        assert b.orders[id].side != INVALID;
        assert ref.price in b.SideOf(ref.side).levels ==>
          LevelOk(ref.side, ref.price, b.SideOf(ref.side).levels[ref.price], b, None);
      }
    }

    method CancelOrder(orderId: OrderId) returns (cancelled: bool)
      requires Valid() && Inv(model)
      modifies this, bids, bids.slots, bids.home.Keys, asks, asks.slots, asks.home.Keys, orders
      ensures Valid() && (model, cancelled) == BookOps.CancelOrder(old(model), orderId) && Inv(model)
      ensures bids.home == old(bids.home) && asks.home == old(asks.home) && orders.owned == old(orders.owned)
    {
      hide Valid, Inv, Live, Unqueue, Release, PriceLevel.Valid;
      IndexedOrder(model, orderId);
      CancelOrderKeeps(model, orderId);
      var ref := FindOrderRef(orderId);
      if ref.None? {
        return false;
      }
      var stored := ref.value;
      var level := FindLevel(stored.side, stored.price);
      if level == null {
        ForgetRef(orderId);
        return false;
      }
      var removed := UnqueueOrder(stored.side, level, stored.price, orderId);
      if !removed {
        ForgetRef(orderId);
        return false;
      }
      ReleaseOrderInternal(orderId);
      return true;
    }

    /** Changes the total quantity of a stored order; refused below what is already filled. */
    method ModifyStored(orderId: OrderId, newQty: Qty) returns (ok: bool)
      requires Valid() && orderId in model.orders && model.orders[orderId].id == orderId
      modifies this`model, orders`model, orders.owned
      ensures Valid() && (ok <==> old(model).orders[orderId].ModifyQty(newQty).Some?)
      ensures ok ==>
        model == old(model).(orders := old(model).orders[orderId := old(model).orders[orderId].ModifyQty(newQty).value])
      ensures !ok ==> model == old(model)
    {
      hide PriceRingBuffer.Valid, OrderArena.Valid, IndexTied, OrderState.Refresh;
      var order := orders.Find(orderId);
      orders.Loosen(orderId);
      ok := order.ModifyQty(newQty);
      orders.Sync(orderId);
      SameOrder(old(model).orders, orderId);
      SetModel(model.(orders := orders.model));
    }

    lemma SameOrder(m: map<OrderId, OrderState>, id: OrderId)
      requires id in m
      ensures m[id := m[id]] == m
    {
    }

    /** The order is gone. */
    method EraseStored(orderId: OrderId)
      requires Valid()
      modifies this`model, orders`slots, orders`model
      ensures Valid() && model == old(model).(orders := Drop(old(model).orders, orderId))
    {
      hide PriceRingBuffer.Valid, OrderArena.Valid, IndexTied;
      orders.Erase(orderId);
      SetModel(model.(orders := orders.model));
    }

    method ModifyStoredPrice(orderId: OrderId, newPrice: Price)
      requires Valid() && orderId in model.orders
      modifies this`model, orders`model, orders.owned
      ensures Valid()
      ensures model ==
        old(model).(orders := old(model).orders[orderId := old(model).orders[orderId].(price := newPrice)])
    {
      hide PriceRingBuffer.Valid, OrderArena.Valid, IndexTied;
      var order := orders.Find(orderId);
      orders.Loosen(orderId);
      order.ModifyPrice(newPrice);
      orders.Sync(orderId);
      SetModel(model.(orders := orders.model));
    }

    /** A modification that neither moves the order nor makes it larger. */
    method ModifyKeepingPlace(orderId: OrderId, stored: OrderRef, level: PriceLevel, newQty: Qty)
      requires Valid() && orderId in model.refs && orderId in model.orders && model.refs[orderId] == stored
      requires stored.side != INVALID && model.orders[orderId].id == orderId
      requires stored.price in model.SideOf(stored.side).levels
      requires Ring(stored.side).KeyTied(stored.price) && level == Ring(stored.side).LevelAt(stored.price)
      requires level.Valid() && level.model == model.SideOf(stored.side).levels[stored.price]
      modifies this`model, bids`model, asks`model, level, orders`model, orders.owned
      ensures Valid()
      ensures var modified := old(model).orders[orderId].ModifyQty(newQty);
        model == if modified.None? then old(model) else ModifyInPlace(old(model), orderId, modified.value)
    {
      hide Valid, PriceLevel.Valid, OrderState.ModifyQty;
      var beforePending := PendingOf(orderId);
      var ok := ModifyStored(orderId, newQty);
      if !ok {
        return;
      }
      var afterPending := PendingOf(orderId);
      LevelUnchanged(model.SideOf(stored.side), stored.price);
      if afterPending < beforePending {
        DecDepth(stored.side, level, stored.price, beforePending - afterPending);
      }
    }

    lemma LevelUnchanged(st: SideState, price: Price)
      requires price in st.levels
      ensures st.SetLevel(price, st.levels[price].(openQty := st.levels[price].openQty)) == st
    {
      assert st.levels[price].(openQty := st.levels[price].openQty) == st.levels[price];
      assert st.levels[price := st.levels[price]] == st.levels;
    }

    method ModifyOrder(orderId: OrderId, newPrice: Price, newQty: Qty)
      requires Valid() && Inv(model)
      modifies this, bids, bids.slots, bids.home.Keys, asks, asks.slots, asks.home.Keys, orders, orders.owned
      ensures Valid() && model == BookOps.ModifyOrder(old(model), orderId, newPrice, newQty) && Inv(model)
      ensures HasNewTerms(old(model), orderId, newPrice, newQty, model)
      ensures forall l :: l in bids.home ==> l in old(bids.home) || fresh(l)
      ensures forall l :: l in asks.home ==> l in old(asks.home) || fresh(l)
      ensures orders.owned == old(orders.owned)
    {
      hide Valid, Inv, Live, Unqueue, PriceLevel.Valid, BookOps.ProcessOrder, Release, ModifyInPlace,
        HasNewTerms, OrderState.Refresh, OrderState.ModifyQty;
      IndexedOrder(model, orderId);
      ModifyOrderKeeps(model, orderId, newPrice, newQty);
      KeepsNewTerms(model, orderId, newPrice, newQty);
      var ref := FindOrderRef(orderId);
      if ref.None? {
        return;
      }
      var stored := ref.value;
      var order := Snapshot(orderId);
      var level := FindLevel(stored.side, stored.price);
      if level == null {
        return;
      }
      var priceChanged := newPrice != order.price;
      var qtyIncrease := newQty > order.total;
      if !priceChanged && !qtyIncrease {
        ModifyKeepingPlace(orderId, stored, level, newQty);
        return;
      }
      var removed := UnqueueOrder(stored.side, level, stored.price, orderId);
      if !removed {
        return;
      }
      Reprocess(old(model), orderId, newPrice, newQty);
    }

    lemma KeepsNewTerms(b: BookState, id: OrderId, newPrice: Price, newQty: Qty)
      requires Inv(b)
      ensures HasNewTerms(b, id, newPrice, newQty, BookOps.ModifyOrder(b, id, newPrice, newQty))
    {
      hide Inv, BookOps.ModifyOrder;
      if Live(b, id) && newQty >= b.orders[id].filled {
        ModifiedOrder(b, id, newPrice, newQty);
      }
    }

    /** The second half of modifyOrder: the order has left the book and goes back through matching. */
    method Reprocess(ghost b: BookState, orderId: OrderId, newPrice: Price, newQty: Qty)
      requires Valid() && Inv(b) && Live(b, orderId) && model == Unqueue(b, orderId)
      requires orderId in b.orders
      modifies this, bids, bids.slots, bids.home.Keys, asks, asks.slots, asks.home.Keys, orders, orders.owned
      ensures Valid()
      ensures model == ReenterBook(b, orderId, newPrice, newQty)
      ensures forall l :: l in bids.home ==> l in old(bids.home) || fresh(l)
      ensures forall l :: l in asks.home ==> l in old(asks.home) || fresh(l)
      ensures orders.owned == old(orders.owned)
    {
      hide Valid, Inv, Live, Unqueue, BookOps.ProcessOrder, MatchInv, OrderState.Refresh;
      IndexedOrder(b, orderId);
      UnqueueKeepsStore(b, orderId);
      ReenteredIsStored(b, orderId, newPrice, newQty);
      var was := Snapshot(orderId);
      var ok := ModifyStored(orderId, newQty);
      if !ok {
        EraseStored(orderId);
        return;
      }
      if newPrice != was.price {
        ModifyStoredPrice(orderId, newPrice);
      }
      RefreshStored(orderId);
      assert model.orders == Unqueue(b, orderId).orders[orderId := Reenter(b.orders[orderId], newPrice, newQty).value];
      ProcessOrder(orderId);
    }

    // ---- looking at the book -------------------------------------------------------------------------

    method TotalOpenQtyAt(s: Side, price: Price) returns (q: Qty)
      requires Valid() && s != INVALID
      ensures q == if price in model.SideOf(s).levels then model.SideOf(s).levels[price].openQty else 0
    {
      hide Valid;
      var level := FindLevel(s, price);
      return if level == null then 0 else level.openQty;
    }

    /** The oldest order at the best price of a side. */
    method BestOrder(s: Side) returns (order: Order?)
      requires Valid() && Inv(model) && s != INVALID
      modifies bids`bestSlot, bids`bestPrice, asks`bestSlot, asks`bestPrice
      ensures Valid() && (order == null <==> BestPrice(model, s).None?)
      ensures order != null ==>
        var queue := model.Queue(s, BestPrice(model, s).value);
        queue != [] && queue[0].id in model.orders && order.State() == model.orders[queue[0].id]
    {
      hide PriceRingBuffer.Valid, OrderArena.Valid, IndexTied, PriceLevel.Valid, Inv, BestPrice;
      var level, price := BestLevel(s);
      if level == null {
        return null;
      }
      FrontOrder(model, s, price);
      var id := level.HeadOrderId();
      order := orders.Find(id);
    }

    lemma FrontOrder(b: BookState, s: Side, price: Price)
      requires Inv(b) && s != INVALID && price in b.SideOf(s).levels
      ensures b.Queue(s, price) != [] && b.Queue(s, price)[0].id in b.orders
    {
      assert LevelOk(s, price, b.SideOf(s).levels[price], b, None);
      QueuedIsLive(b, None, s, price, 0);
    }

    /** The prices and depths of one side, in ascending order of price. */
    method SnapshotSide(s: Side) returns (rows: seq<(Price, Qty)>)
      requires Valid() && s != INVALID
      ensures var prices := Ascending(model.SideOf(s).NonEmpty());
        && |rows| == |prices|
        && forall i :: 0 <= i < |rows| ==>
             && prices[i] in model.SideOf(s).levels
             && rows[i] == (prices[i], model.SideOf(s).levels[prices[i]].openQty)
    {
      hide Valid, PriceRingBuffer.Tied, SideState.NonEmpty, Ascending;
      RingTied(s);
      var ring := Ring(s);
      var visited := ring.ForEachAscending();
      rows := [];
      while |rows| < |visited|
        invariant |rows| <= |visited|
        invariant forall i :: 0 <= i < |rows| ==>
          rows[i] == (visited[i].price, ring.model.levels[visited[i].price].openQty)
      {
        rows := rows + [(visited[|rows|].price, visited[|rows|].level.openQty)];
      }
    }
  }
}
