/**
  The order book as a value, and what each operation of the book does to that value: the same
  branches as the code, with a side of the book as a plain price-to-queue map.
 */
module BookSpec {
  import opened Types
  import opened Orders
  import opened PriceLevels
  import opened PriceWindows

  /** Where an order rests; an entry with side INVALID is an empty one. */
  datatype OrderRef = OrderRef(side: Side, price: Price, slot: Option<nat>)

  const NO_REF := OrderRef(INVALID, 0, None)

  datatype BookState = BookState(
    bids: SideState,
    asks: SideState,
    refs: map<OrderId, OrderRef>,
    orders: map<OrderId, OrderState>,
    trades: seq<TradeEvent>)
  {
    function SideOf(s: Side): SideState {
      if s == BUY then bids else asks
    }

    function WithSide(s: Side, st: SideState): BookState {
      if s == BUY then this.(bids := st) else this.(asks := st)
    }

    function WithOrder(o: OrderState): BookState {
      this.(orders := orders[o.id := o])
    }

    function Queue(s: Side, p: Price): seq<Entry> {
      if p in SideOf(s).levels then SideOf(s).levels[p].queue else []
    }
  }

  const EMPTY_BOOK := BookState(NO_LEVELS, NO_LEVELS, map[], map[], [])

  // ---- putting an order on the book and taking it off -----------------------------------------

  ghost function Rest(b: BookState, id: OrderId): BookState
    requires id in b.orders
  {
    var o := b.orders[id].Refresh();
    var st := b.SideOf(o.side).EnsureLevel(o.side, o.price);
    var level := st.levels[o.price];
    b.WithSide(o.side, st.SetLevel(o.price, level.Add(id, o.Pending()))).(
      refs := b.refs[id := OrderRef(o.side, o.price, Some(level.NextSlot()))],
      orders := b.orders[id := o])
  }

  function Release(b: BookState, id: OrderId): BookState {
    b.(refs := Drop(b.refs, id), orders := Drop(b.orders, id))
  }

  /** The order is on the book where its index entry says. */
  predicate Live(b: BookState, id: OrderId) {
    && id in b.refs && id in b.orders && b.refs[id].slot.Some?
    && Entry(id, b.refs[id].slot.value) in b.Queue(b.refs[id].side, b.refs[id].price)
  }

  /** A live order leaves its queue and the index; a level left empty goes too. */
  ghost function Unqueue(b: BookState, id: OrderId): BookState
    requires Live(b, id)
  {
    var ref := b.refs[id];
    var st := b.SideOf(ref.side);
    var level := st.levels[ref.price].Remove(Entry(id, ref.slot.value), b.orders[id].Pending());
    b.WithSide(ref.side,
      if level.queue == [] then st.EraseLevel(ref.price)
      else st.SetLevel(ref.price, level)).(refs := Drop(b.refs, id))
  }

  /** A resting order that shows nothing any more: an iceberg with a hidden rest goes to the back
      of the queue with a new clip, any other order is finished. */
  ghost function RemoveResting(b: BookState, id: OrderId): BookState
    requires Live(b, id)
  {
    var o := b.orders[id];
    if o.HasDisplay() && o.Remaining() > 0 then
      Rest(Unqueue(b, id).(orders := b.orders[id := o.Refresh()]), id)
    else
      Release(Unqueue(b, id), id)
  }

  // ---- matching ---------------------------------------------------------------------------------

  ghost function BestPrice(b: BookState, s: Side): Option<Price> {
    b.SideOf(s).Best(s)
  }

  /** The incoming order has something left, and the best opposite level is within its limit. */
  ghost predicate CanMatch(b: BookState, id: OrderId, respectPrice: bool)
    requires id in b.orders
  {
    var o := b.orders[id];
    var best := BestPrice(b, Opposite(o.side));
    && o.Pending() > 0
    && best.Some?
    && (respectPrice ==> Crosses(o.side, o.price, best.value))
  }

  /** The order that is hit first: the oldest one at the best opposite price. */
  ghost function Head(b: BookState, id: OrderId): OrderId
    requires id in b.orders && BestPrice(b, Opposite(b.orders[id].side)).Some?
  {
    var s := Opposite(b.orders[id].side);
    var p := BestPrice(b, s).value;
    assert p in b.SideOf(s).NonEmpty();
    b.Queue(s, p)[0].id
  }

  function TradeQty(o: OrderState, head: OrderState): Qty {
    Min(o.Pending(), head.Pending())
  }

  function TradeOf(o: OrderState, head: OrderState): TradeEvent {
    TradeEvent(o.instrument, o.side, o.id, head.side, head.id, head.price, TradeQty(o, head))
  }

  /** Both orders are filled, the level's depth goes down, and a positive trade is reported. */
  ghost function Fill(b: BookState, id: OrderId): BookState
    requires id in b.orders && BestPrice(b, Opposite(b.orders[id].side)).Some?
    requires Head(b, id) in b.orders
  {
    var o, head := b.orders[id], b.orders[Head(b, id)];
    var s := Opposite(o.side);
    var p := BestPrice(b, s).value;
    assert p in b.SideOf(s).NonEmpty();
    var t := TradeQty(o, head);
    var level := b.SideOf(s).levels[p];
    b.WithSide(s, b.SideOf(s).SetLevel(p, level.(openQty := SaturatingSub(level.openQty, t)))).(
      orders := b.orders[id := o.AddFill(t)][Head(b, id) := head.AddFill(t)],
      trades := if t > 0 then b.trades + [TradeOf(o, head)] else b.trades)
  }

  // ---- fill-or-kill liquidity ---------------------------------------------------------------------

  /** The depth of the given levels that an order of side s may take, summed with 32-bit wrap-around. */
  function SumDepth(levels: map<Price, LevelState>, prices: seq<Price>, s: Side, limit: Price): Qty
    requires forall p :: p in prices ==> p in levels
  {
    if prices == [] then 0 else
    var last := prices[|prices| - 1];
    var before := SumDepth(levels, prices[..|prices| - 1], s, limit);
    if Crosses(s, limit, last) then WrapAdd(before, levels[last].openQty) else before
  }

  ghost function Liquidity(b: BookState, s: Side, limit: Price): Qty {
    var opp := b.SideOf(Opposite(s));
    AscendingIsSorted(opp.NonEmpty());
    SumDepth(opp.levels, Ascending(opp.NonEmpty()), s, limit)
  }
}
