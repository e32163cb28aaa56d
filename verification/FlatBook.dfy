/**
  The naive book: one flat list of the resting orders of both sides, oldest first, each with the
  time at which it came to rest.  Matching looks through the whole list for the best-priced and,
  among those, oldest order.

  The only thing it keeps besides the list is the price window of each side, because a new price
  far away makes the real book forget orders.
 */
module FlatBooks {
  import opened Types
  import opened Orders
  import opened PriceWindows
  import opened BookInvariant

  datatype Resting = Resting(order: OrderState, since: nat)

  datatype FlatBook = FlatBook(
    list: seq<Resting>,
    clock: nat,
    bidBase: Option<Price>,
    askBase: Option<Price>,
    trades: seq<TradeEvent>)
  {
    function BaseOf(s: Side): Option<Price> {
      if s == BUY then bidBase else askBase
    }

    function WithBase(s: Side, base: Price): FlatBook {
      if s == BUY then this.(bidBase := Some(base)) else this.(askBase := Some(base))
    }
  }

  const EMPTY_FLAT := FlatBook([], 0, None, None, [])

  // ---- looking for an order -------------------------------------------------------------------------

  predicate Better(s: Side, p: Price, q: Price) {
    if s == BUY then p > q else p < q
  }

  /** The index of the best-priced and then oldest order of side s. */
  function Front(list: seq<Resting>, s: Side): (k: Option<nat>)
    ensures k.Some? ==> k.value < |list| && list[k.value].order.side == s
  {
    if list == [] then None else
    var last := |list| - 1;
    var before := Front(list[..last], s);
    if list[last].order.side != s then before
    else if before.None? || Better(s, list[last].order.price, list[before.value].order.price) then Some(last)
    else before
  }

  /** `Front` is what it says: no order of the side is better, and none as good is older. */
  lemma {:induction false} FrontIsBest(list: seq<Resting>, s: Side)
    ensures Front(list, s).None? <==> forall i :: 0 <= i < |list| ==> list[i].order.side != s
    ensures Front(list, s).Some? ==> var k := Front(list, s).value;
      && (forall i :: 0 <= i < |list| && list[i].order.side == s ==>
            NoWorse(s, list[k].order.price, list[i].order.price))
      && (forall i :: 0 <= i < k && list[i].order.side == s ==> list[i].order.price != list[k].order.price)
  {
    if list != [] {
      var last := |list| - 1;
      FrontIsBest(list[..last], s);
      assert forall i :: 0 <= i < last ==> list[..last][i] == list[i];
    }
  }

  /** The index of the order with this id. */
  function IndexOf(list: seq<Resting>, id: OrderId): (k: Option<nat>)
    ensures k.Some? ==> k.value < |list| && list[k.value].order.id == id
    ensures k.None? ==> forall i :: 0 <= i < |list| ==> list[i].order.id != id
  {
    if list == [] then None
    else if list[0].order.id == id then Some(0)
    else
      var k := IndexOf(list[1..], id);
      if k.Some? then Some(k.value + 1) else None
  }

  function TakeOut(list: seq<Resting>, k: nat): seq<Resting>
    requires k < |list|
  {
    list[..k] + list[k + 1..]
  }

  // ---- what holds of the list -----------------------------------------------------------------------

  ghost predicate FlatOk(f: FlatBook) {
    && (forall i :: 0 <= i < |f.list| ==> f.list[i].order.Restable() && f.list[i].order.Settled())
    && (forall i, j :: 0 <= i < j < |f.list| ==> f.list[i].order.id != f.list[j].order.id)
    && (forall i, j :: 0 <= i < j < |f.list| ==> f.list[i].since < f.list[j].since)
    && (forall i :: 0 <= i < |f.list| ==> f.list[i].since < f.clock)
  }

  lemma ListedFit(f: FlatBook, k: nat)
    requires FlatOk(f) && k < |f.list|
    ensures f.list[k].order.Restable() && f.list[k].order.Settled()
  {
  }

  // ---- matching -------------------------------------------------------------------------------------

  predicate NaiveCanMatch(f: FlatBook, o: OrderState, respectPrice: bool) {
    var k := Front(f.list, Opposite(o.side));
    && o.Pending() > 0
    && k.Some?
    && (respectPrice ==> Crosses(o.side, o.price, f.list[k.value].order.price))
  }

  /** Trades with the front order.  If it then shows nothing it leaves the list; an iceberg with
      something in reserve comes back as the youngest order. */
  function NaiveStep(f: FlatBook, o: OrderState): (FlatBook, OrderState)
    requires Front(f.list, Opposite(o.side)).Some?
  {
    var k := Front(f.list, Opposite(o.side)).value;
    var r := f.list[k].order;
    var t: Qty := Min(o.Pending(), r.Pending());
    var r' := r.AddFill(t);
    var trades := if t > 0
      then f.trades + [TradeEvent(o.instrument, o.side, o.id, r.side, r.id, r.price, t)] else f.trades;
    var after :=
      if r'.Pending() > 0 then f.(list := f.list[k := f.list[k].(order := r')])
      else if r'.HasDisplay() && r'.Remaining() > 0 then
        f.(list := TakeOut(f.list, k) + [Resting(r'.Refresh(), f.clock)], clock := f.clock + 1)
      else f.(list := TakeOut(f.list, k));
    (after.(trades := trades), o.AddFill(t))
  }

  /** Replacing an order in place, or taking it out, keeps the list right. */
  lemma ReplaceKeeps(f: FlatBook, k: nat, o: OrderState)
    requires FlatOk(f) && k < |f.list| && o.id == f.list[k].order.id && o.Restable() && o.Settled()
    ensures FlatOk(f.(list := f.list[k := f.list[k].(order := o)]))
  {
  }

  lemma TakeOutKeeps(f: FlatBook, k: nat)
    requires FlatOk(f) && k < |f.list|
    ensures FlatOk(f.(list := TakeOut(f.list, k)))
    ensures forall i :: 0 <= i < |f.list| - 1 ==> TakeOut(f.list, k)[i].order.id != f.list[k].order.id
  {
  }

  /** An order that comes to rest becomes the youngest one. */
  lemma AppendKeeps(f: FlatBook, o: OrderState)
    requires FlatOk(f) && o.Restable() && o.Settled()
    requires forall i :: 0 <= i < |f.list| ==> f.list[i].order.id != o.id
    ensures FlatOk(f.(list := f.list + [Resting(o, f.clock)], clock := f.clock + 1))
  {
  }

  /** A step keeps the list right, and either fills something or shortens the list. */
  lemma NaiveStepKeeps(f: FlatBook, o: OrderState)
    requires FlatOk(f) && Front(f.list, Opposite(o.side)).Some? && o.Sane()
    ensures FlatOk(NaiveStep(f, o).0) && NaiveStep(f, o).1.Sane()
    ensures var t := Min(o.Pending(), f.list[Front(f.list, Opposite(o.side)).value].order.Pending());
      && NaiveStep(f, o).1 == o.(filled := o.filled + t)
      && NaiveStep(f, o).1.Pending() == o.Pending() - t
      && (t == 0 && o.Pending() > 0 ==> |NaiveStep(f, o).0.list| < |f.list|)
  {
    var k := Front(f.list, Opposite(o.side)).value;
    var r := f.list[k].order;
    var t: Qty := Min(o.Pending(), r.Pending());
    FilledOrder(o, t);
    FilledOrder(r, t);
    var r' := r.AddFill(t);
    hide OrderState.AddFill, TakeOut, Front, OrderState.Settled, OrderState.Restable, OrderState.Refresh;
    if r'.Pending() > 0 {
      ReplaceKeeps(f, k, r');
    } else {
      TakeOutKeeps(f, k);
      FreshClip(r');
      if r'.HasDisplay() && r'.Remaining() > 0 {
        AppendKeeps(f.(list := TakeOut(f.list, k)), r'.Refresh());
      }
    }
  }

  /** A used-up iceberg shows a new clip. */
  lemma FreshClip(o: OrderState)
    requires o.Restable()
    ensures o.Refresh().Restable() && o.Refresh().Settled() && o.Refresh().Remaining() == o.Remaining()
  {
    RefreshExposes(o);
  }

  function NaiveLoop(f: FlatBook, o: OrderState, respectPrice: bool): (FlatBook, OrderState)
    requires FlatOk(f) && o.Sane()
    decreases o.Pending(), |f.list|
  {
    if NaiveCanMatch(f, o, respectPrice) then
      NaiveStepKeeps(f, o);
      var (f', o') := NaiveStep(f, o);
      NaiveLoop(f', o', respectPrice)
    else (f, o)
  }

  lemma {:induction false} NaiveLoopKeeps(f: FlatBook, o: OrderState, respectPrice: bool)
    requires FlatOk(f) && o.Sane()
    ensures var (f', o') := NaiveLoop(f, o, respectPrice);
      FlatOk(f') && o'.Sane() && o' == o.(filled := o'.filled) && !NaiveCanMatch(f', o', respectPrice)
    decreases o.Pending(), |f.list|
  {
    if NaiveCanMatch(f, o, respectPrice) {
      NaiveStepKeeps(f, o);
      var (f', o') := NaiveStep(f, o);
      NaiveLoopKeeps(f', o', respectPrice);
    }
  }

  // ---- resting --------------------------------------------------------------------------------------

  /** The price window of side s once it takes in `price`. */
  function NaiveBase(f: FlatBook, s: Side, price: Price): Price {
    var front := Front(f.list, s);
    var best := if front.Some? then Some(f.list[front.value].order.price) else None;
    if f.BaseOf(s).None? then InitialBase(price)
    else if InWindow(f.BaseOf(s).value, price) then f.BaseOf(s).value
    else RebalancedBase(best, price)
  }

  /** The orders of side s outside the window are forgotten. */
  function Evict(list: seq<Resting>, s: Side, base: Price): seq<Resting> {
    if list == [] then []
    else if list[0].order.side == s && !InWindow(base, list[0].order.price) then Evict(list[1..], s, base)
    else [list[0]] + Evict(list[1..], s, base)
  }

  function NaiveRest(f: FlatBook, o: OrderState): FlatBook {
    var base := NaiveBase(f, o.side, o.price);
    f.(list := Evict(f.list, o.side, base) + [Resting(o.Refresh(), f.clock)], clock := f.clock + 1)
      .WithBase(o.side, base)
  }

  /** Evicting keeps the order of the others. */
  lemma {:induction false} EvictKeepsOrder(list: seq<Resting>, s: Side, base: Price)
    ensures forall i :: 0 <= i < |Evict(list, s, base)| ==> Evict(list, s, base)[i] in list
    ensures (forall i, j :: 0 <= i < j < |list| ==> list[i].since < list[j].since) ==>
      forall i, j :: 0 <= i < j < |Evict(list, s, base)| ==>
        Evict(list, s, base)[i].since < Evict(list, s, base)[j].since
    ensures (forall i, j :: 0 <= i < j < |list| ==> list[i].order.id != list[j].order.id) ==>
      forall i, j :: 0 <= i < j < |Evict(list, s, base)| ==>
        Evict(list, s, base)[i].order.id != Evict(list, s, base)[j].order.id
  {
    if list != [] {
      EvictKeepsOrder(list[1..], s, base);
      var rest := Evict(list[1..], s, base);
      forall i | 0 <= i < |rest|
        ensures exists k :: 0 < k < |list| && list[k] == rest[i]
      {
        assert rest[i] in list[1..];
        var k :| 0 <= k < |list[1..]| && list[1..][k] == rest[i];
        assert list[k + 1] == rest[i];
      }
    }
  }

  lemma EvictKeeps(f: FlatBook, s: Side, base: Price)
    requires FlatOk(f)
    ensures FlatOk(f.(list := Evict(f.list, s, base)))
    ensures forall i :: 0 <= i < |Evict(f.list, s, base)| ==> Evict(f.list, s, base)[i] in f.list
  {
    hide OrderState.Restable, OrderState.Settled, Evict;
    EvictKeepsOrder(f.list, s, base);
  }

  lemma NaiveRestKeeps(f: FlatBook, o: OrderState)
    requires FlatOk(f) && o.filled <= o.total && o.Refresh().Restable()
    requires forall i :: 0 <= i < |f.list| ==> f.list[i].order.id != o.id
    ensures FlatOk(NaiveRest(f, o))
  {
    hide FlatOk, NaiveBase, Evict, OrderState.Refresh, OrderState.Restable;
    var base := NaiveBase(f, o.side, o.price);
    EvictKeeps(f, o.side, base);
    RefreshExposes(o);
    var left := f.(list := Evict(f.list, o.side, base));
    AppendKeeps(left, o.Refresh());
    BaseIsFree(left.(list := left.list + [Resting(o.Refresh(), f.clock)], clock := f.clock + 1), o.side, base);
  }

  /** The price window does not matter for the list. */
  lemma BaseIsFree(f: FlatBook, s: Side, base: Price)
    requires FlatOk(f)
    ensures FlatOk(f.WithBase(s, base))
  {
  }

  // ---- the operations -------------------------------------------------------------------------------

  function NaiveExecute(f: FlatBook, o: OrderState, respectPrice: bool, allowRest: bool): FlatBook
    requires FlatOk(f) && o.Sane()
  {
    var (f', o') := NaiveLoop(f, o, respectPrice);
    if allowRest && o'.Pending() > 0 then NaiveRest(f', o') else f'
  }

  /** Processing an order by its type; whether a fill-or-kill order is let through is given. */
  function NaiveProcess(f: FlatBook, o: OrderState, accept: bool): FlatBook
    requires FlatOk(f) && o.Sane()
  {
    match o.kind
    case LIMIT => NaiveExecute(f, o, true, true)
    case MARKET => NaiveExecute(f, o, false, false)
    case IOC => NaiveExecute(f, o, true, false)
    case FOK => if accept then NaiveExecute(f, o, true, false) else f
    case ICEBERG => NaiveExecute(f, Rested(o, 0), true, true)
  }

  function NaiveCancel(f: FlatBook, id: OrderId): (FlatBook, bool) {
    var k := IndexOf(f.list, id);
    if k.None? then (f, false) else (f.(list := TakeOut(f.list, k.value)), true)
  }

  /** A smaller quantity at the same price keeps the order's place in the list; any other change
      takes it out and processes it anew. */
  function NaiveModify(f: FlatBook, id: OrderId, newPrice: Price, newQty: Qty, accept: bool): FlatBook
    requires FlatOk(f)
  {
    var k := IndexOf(f.list, id);
    if k.None? then f else
    var o := f.list[k.value].order;
    if newPrice == o.price && newQty <= o.total then
      if newQty < o.filled then f
      else f.(list := f.list[k.value := f.list[k.value].(order := Resized(o, newPrice, newQty))])
    else
      TakeOutKeeps(f, k.value);
      var left := f.(list := TakeOut(f.list, k.value));
      if newQty < o.filled then left else NaiveProcess(left, Resized(o, newPrice, newQty), accept)
  }
}
