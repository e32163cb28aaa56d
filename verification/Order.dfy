/**
  The order entity: total, working, filled and display quantities.  `OrderState` is the value an
  order holds; the class `Order` updates it in place.
 */
module Orders {
  import opened Types

  datatype OrderState = OrderState(
    id: OrderId,
    instrument: Token,
    side: Side,
    price: Price,
    total: Qty,
    working: Qty,
    filled: Qty,
    display: Qty,
    kind: OrderType)
  {
    function Pending(): Qty {
      if working < filled then 0 else working - filled
    }

    predicate HasDisplay() {
      display > 0 && kind == ICEBERG
    }

    function Remaining(): Qty {
      if total < filled then 0 else total - filled
    }

    function Refresh(): (r: OrderState)
      ensures r == this.(working := r.working)
    {
      if HasDisplay() then
        if Remaining() == 0 then this.(working := filled)
        else this.(working := filled + Min(display, Remaining()))
      else
        this.(working := total)
    }

    function AddFill(q: Qty): OrderState {
      this.(filled := WrapAdd(filled, q))
    }

    function ModifyQty(newQty: Qty): Option<OrderState> {
      if newQty < filled then None else Some(this.(total := newQty).Refresh())
    }

    function HandleIceberg(): OrderState {
      (if HasDisplay() then this else this.(display := Remaining())).Refresh()
    }

    /** The quantity ordering every live order keeps. */
    predicate Sane() {
      filled <= working <= total
    }

    /** What an order on the book looks like: a limit order works all of its quantity, an iceberg
        never more than one clip. */
    predicate Restable() {
      && Sane()
      && side != INVALID
      && (kind == LIMIT || (kind == ICEBERG && display > 0))
      && (if kind == ICEBERG then Pending() <= display else working == total)
    }

    /** Nothing is left to show only when nothing is left at all. */
    predicate Settled() {
      Pending() == 0 ==> Remaining() == 0
    }
  }

  /** What counts of an order: what it shows, what it shows when it is refreshed, or all that is left
      of it. */
  datatype Measure = Shown | FullClip | Whole

  function Amount(m: Measure, o: OrderState): nat {
    match m
    case Shown => o.Pending()
    case FullClip => if o.HasDisplay() then Min(o.display, o.Remaining()) else o.Remaining()
    case Whole => o.Remaining()
  }

  /** An order as its builder hands it over: nothing filled, everything working. */
  predicate AsBuilt(o: OrderState) {
    o.filled == 0 && o.working == o.total && o.side != INVALID && o.id != INVALID_ORDER
  }

  /** Refreshing an order exposes one clip of what remains (an iceberg) or all of it, and
      refreshing again changes nothing. */
  lemma RefreshExposes(o: OrderState)
    requires o.filled <= o.total
    ensures o.Refresh().Sane() && o.Refresh().Settled()
    ensures o.Refresh().Remaining() == o.Remaining()
    ensures o.Refresh().Pending() == if o.HasDisplay() then Min(o.display, o.Remaining()) else o.Remaining()
    ensures o.Refresh().Refresh() == o.Refresh()
  {
  }

  /** Shrinking a live order that is not an iceberg takes exactly the difference off what it
      shows.  For an iceberg the clip may grow: it is refilled. */
  lemma ShrinkInPlace(o: OrderState, newQty: Qty)
    requires o.Restable() && o.filled <= newQty <= o.total
    ensures o.ModifyQty(newQty).Some?
    ensures o.kind != ICEBERG ==> o.Pending() - o.ModifyQty(newQty).value.Pending() == o.total - newQty
    ensures o.kind == ICEBERG ==>
      (o.ModifyQty(newQty).value.Pending() > o.Pending() <==> Min(o.display, newQty - o.filled) > o.Pending())
    ensures o.ModifyQty(newQty).value.Restable() && o.ModifyQty(newQty).value.Settled()
  {
  }

  /** The same order with perhaps more filled: who sent it, what it asks for and at what price is as it was. */
  predicate LaterOf(o: OrderState, o': OrderState) {
    o' == o.(filled := o'.filled, working := o'.working) && o.filled <= o'.filled
  }

  // ---- the records an order becomes ------------------------------------------------------------------

  /** The order with another price and quantity.  It works one clip of what is then left if it has a
      display quantity, and all of it otherwise; nothing else changes. */
  function Resized(o: OrderState, price: Price, qty: Qty): OrderState
    requires o.filled <= qty
  {
    var left := qty - o.filled;
    var works := if o.kind == ICEBERG && o.display > 0 then Min(o.display, left) else left;
    OrderState(o.id, o.instrument, o.side, price, qty, o.filled + works, o.filled, o.display, o.kind)
  }

  /** The order after t of it has traded on its way in, as it comes to rest: an iceberg that was given no
      display quantity has all it came with as one, and then shows one clip of what is left. */
  function Rested(o: OrderState, t: nat): OrderState
    requires o.filled + t <= o.total
  {
    var display: Qty := if o.kind == ICEBERG && o.display == 0 then o.total - o.filled else o.display;
    var left := o.total - o.filled - t;
    var works := if o.kind == ICEBERG then Min(display, left) else left;
    OrderState(o.id, o.instrument, o.side, o.price, o.total, o.filled + t + works, o.filled + t, display, o.kind)
  }

  /** A new quantity is refused exactly below what is filled; otherwise it is the new total, and only what
      the order works changes with it. */
  lemma ModifiedIs(o: OrderState, newQty: Qty)
    ensures o.ModifyQty(newQty) == if newQty < o.filled then None else Some(Resized(o, o.price, newQty))
    ensures newQty >= o.filled ==> var o' := o.ModifyQty(newQty).value;
      o'.total == newQty && o'.Remaining() == newQty - o.filled && o' == o.(total := newQty, working := o'.working)
  {
  }

  /** Preparing an iceberg leaves a given display quantity alone and makes a missing one exactly what
      remains; then it works one clip of that. */
  lemma PreparedIs(o: OrderState)
    requires o.kind == ICEBERG && o.filled <= o.total
    ensures o.HandleIceberg() == Rested(o, 0)
    ensures o.display > 0 ==> o.HandleIceberg().display == o.display
    ensures o.display == 0 ==> o.HandleIceberg().display == o.total - o.filled
  {
  }

  /** What comes to rest after a match is the order that came, less what it traded. */
  lemma RestedIs(o: OrderState, t: nat)
    requires o.filled + t <= o.total
    ensures var o1 := if o.kind == ICEBERG then o.HandleIceberg() else o;
      o1.(filled := o1.filled + t).Refresh() == Rested(o, t)
    ensures Rested(o, t).Remaining() == o.total - o.filled - t
  {
  }

  class Order {
    const id: OrderId
    const instrument: Token
    const side: Side
    const kind: OrderType
    var price: Price
    var total: Qty
    var working: Qty
    var filled: Qty
    var display: Qty

    ghost function State(): OrderState
      reads this
    {
      OrderState(id, instrument, side, price, total, working, filled, display, kind)
    }

    constructor (id: OrderId, instrument: Token, side: Side, price: Price, quantity: Qty, kind: OrderType, display: Qty)
      ensures State() == OrderState(id, instrument, side, price, quantity, quantity, 0, display, kind)
      ensures side != INVALID && id != INVALID_ORDER ==> AsBuilt(State())
    {
      this.id, this.instrument, this.side, this.kind := id, instrument, side, kind;
      this.price, this.total, this.working, this.filled, this.display := price, quantity, quantity, 0, display;
    }

    function PendingQuantity(): (q: Qty)
      reads this
      ensures q == State().Pending()
    {
      if working < filled then 0 else working - filled
    }

    function RemainingQuantity(): (q: Qty)
      reads this
      ensures q == State().Remaining()
    {
      if total < filled then 0 else total - filled
    }

    predicate HasDisplayQuantity()
      reads this
      ensures HasDisplayQuantity() == State().HasDisplay()
    {
      display > 0 && kind == ICEBERG
    }

    method RefreshWorkingQuantity()
      modifies this
      ensures State() == old(State()).Refresh() && State() == old(State()).(working := working)
      ensures working == if kind == ICEBERG && display > 0
        then filled + Min(display, if total > filled then total - filled else 0) else total
    {
      if HasDisplayQuantity() {
        var remaining := RemainingQuantity();
        if remaining == 0 {
          working := filled;
          return;
        }
        var clip := if display <= remaining then display else remaining;
        working := filled + clip;
      } else {
        working := total;
      }
    }

    method ModifyQty(newOrderQty: Qty) returns (ok: bool)
      modifies this
      ensures ok <==> old(filled) <= newOrderQty
      ensures ok ==> State() == Resized(old(State()), old(price), newOrderQty)
      ensures ok ==> old(State()).ModifyQty(newOrderQty) == Some(State())
      ensures !ok ==> State() == old(State())
    {
      if newOrderQty < filled {
        return false;
      }
      total := newOrderQty;
      RefreshWorkingQuantity();
      return true;
    }

    method AddFill(filledQty: Qty)
      modifies this
      ensures State() == old(State()).AddFill(filledQty)
      ensures State() == old(State()).(filled := (old(filled) + filledQty) % QTY_MOD)
    {
      filled := WrapAdd(filled, filledQty);
    }

    method ModifyPrice(newPrice: Price)
      modifies this
      ensures State() == old(State()).(price := newPrice)
    {
      price := newPrice;
    }

    method SetDisplayQuantity(displayQty: Qty)
      modifies this
      ensures State() == old(State()).(display := displayQty)
    {
      display := displayQty;
    }
  }
}
