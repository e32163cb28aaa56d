/**
  What one match moves: the incoming order is filled by exactly as much as the resting orders, which
  is exactly what the trades report and exactly the smaller of what it wanted and what was in reach,
  hidden iceberg quantity included.
 */
module Conservation {
  import opened Types
  import opened Orders
  import opened BookInvariant
  import opened FlatBooks

  /** A choice of resting orders: those an incoming order may trade with, those of a side at given
      prices or at better prices than one, or the one with an id. */
  datatype Selector =
    | InReach(side: Side, limit: Price, respectPrice: bool)
    | AtPrices(side: Side, prices: set<Price>)
    | InFrontOf(side: Side, price: Price)
    | WithId(id: OrderId)

  predicate Selects(sel: Selector, r: OrderState) {
    match sel
    case InReach(side, limit, respectPrice) =>
      r.side == Opposite(side) && (respectPrice ==> Crosses(side, limit, r.price))
    case AtPrices(side, prices) => r.side == side && r.price in prices
    case InFrontOf(side, price) => r.side == side && Better(side, r.price, price)
    case WithId(id) => r.id == id
  }

  function ReachOf(o: OrderState, respectPrice: bool): Selector {
    InReach(o.side, o.price, respectPrice)
  }

  /** The amount of the selected orders. */
  function Total(list: seq<Resting>, m: Measure, sel: Selector): nat {
    if list == [] then 0 else
    (if Selects(sel, list[0].order) then Amount(m, list[0].order) else 0) + Total(list[1..], m, sel)
  }

  /** What is left of the selected orders, hidden quantity included. */
  function TotalRemaining(list: seq<Resting>, sel: Selector): nat {
    Total(list, Whole, sel)
  }

  lemma {:induction false} TotalConcat(l: seq<Resting>, r: seq<Resting>, m: Measure, sel: Selector)
    ensures Total(l + r, m, sel) == Total(l, m, sel) + Total(r, m, sel)
  {
    if l == [] {
      assert l + r == r;
    } else {
      TotalConcat(l[1..], r, m, sel);
      assert (l + r)[1..] == l[1..] + r;
    }
  }

  function RemainingIf(e: Resting, sel: Selector): nat {
    if Selects(sel, e.order) then e.order.Remaining() else 0
  }

  lemma TotalOne(e: Resting, sel: Selector)
    ensures TotalRemaining([e], sel) == RemainingIf(e, sel)
  {
    assert TotalRemaining([e][1..], sel) == 0;
  }

  lemma TotalAround(list: seq<Resting>, k: nat, e: Resting, sel: Selector)
    requires k < |list|
    ensures TotalRemaining(list[k := e], sel) ==
      TotalRemaining(list, sel) - RemainingIf(list[k], sel) + RemainingIf(e, sel)
    ensures TotalRemaining(TakeOut(list, k), sel) == TotalRemaining(list, sel) - RemainingIf(list[k], sel)
  {
    TotalConcat(list[..k], [e] + list[k + 1..], Whole, sel);
    TotalConcat([e], list[k + 1..], Whole, sel);
    TotalConcat(list[..k], list[k + 1..], Whole, sel);
    TotalConcat(list[..k], [list[k]] + list[k + 1..], Whole, sel);
    TotalConcat([list[k]], list[k + 1..], Whole, sel);
    TotalOne(e, sel);
    TotalOne(list[k], sel);
    assert list[k := e] == list[..k] + ([e] + list[k + 1..]);
    assert list == list[..k] + ([list[k]] + list[k + 1..]);
  }

  /** Orders that are selected alike count alike. */
  lemma {:induction false} TotalAlike(list: seq<Resting>, m: Measure, sel: Selector, sel': Selector)
    requires forall i :: 0 <= i < |list| ==> (Selects(sel, list[i].order) <==> Selects(sel', list[i].order))
    ensures Total(list, m, sel) == Total(list, m, sel')
  {
    if list != [] {
      TotalAlike(list[1..], m, sel, sel');
    }
  }

  lemma {:induction false} TotalNone(list: seq<Resting>, m: Measure, sel: Selector)
    requires forall i :: 0 <= i < |list| ==> !Selects(sel, list[i].order)
    ensures Total(list, m, sel) == 0
  {
    if list != [] {
      TotalNone(list[1..], m, sel);
    }
  }

  /** A step takes its traded quantity off what is left of the front order and nothing else. */
  lemma StepTotal(f: FlatBook, o: OrderState, sel: Selector)
    requires FlatOk(f) && o.Sane() && Front(f.list, Opposite(o.side)).Some?
    ensures var r := f.list[Front(f.list, Opposite(o.side)).value].order; var t := Min(o.Pending(), r.Pending());
      TotalRemaining(NaiveStep(f, o).0.list, sel) ==
        TotalRemaining(f.list, sel) - (if Selects(sel, r) then t else 0)
  {
    hide Front, TakeOut, Total, OrderState.Refresh;
    var k := Front(f.list, Opposite(o.side)).value;
    var r := f.list[k].order;
    var t: Qty := Min(o.Pending(), r.Pending());
    ListedFit(f, k);
    FilledOrder(r, t);
    var e := f.list[k].(order := r.AddFill(t));
    TotalAround(f.list, k, e, sel);
    FreshClip(e.order);
    if e.order.Pending() == 0 {
      ExhaustedOrder(r, t);
    }
    var back := Resting(e.order.Refresh(), f.clock);
    TotalConcat(TakeOut(f.list, k), [back], Whole, sel);
    TotalOne(back, sel);
  }

  /** What leaves the list for good has nothing left. */
  lemma ExhaustedOrder(r: OrderState, t: Qty)
    requires r.Restable() && t <= r.Pending() && r.AddFill(t).Pending() == 0
    ensures !(r.AddFill(t).HasDisplay() && r.AddFill(t).Remaining() > 0) ==> r.AddFill(t).Remaining() == 0
  {
  }

  /** The quantity reported by trades, and the part of it traded by one resting order. */
  function SumQty(trades: seq<TradeEvent>): nat {
    if trades == [] then 0 else SumQty(trades[..|trades| - 1]) + trades[|trades| - 1].quantity
  }

  function SumQtyOf(trades: seq<TradeEvent>, id: OrderId): nat {
    if trades == [] then 0 else
    var last := trades[|trades| - 1];
    SumQtyOf(trades[..|trades| - 1], id) + if last.restingId == id then last.quantity else 0
  }

  lemma SumAppend(trades: seq<TradeEvent>, e: TradeEvent, id: OrderId)
    ensures SumQty(trades + [e]) == SumQty(trades) + e.quantity
    ensures SumQtyOf(trades + [e], id) == SumQtyOf(trades, id) + if e.restingId == id then e.quantity else 0
  {
    assert (trades + [e])[..|trades|] == trades;
  }

  /** Nothing is in reach once the loop has stopped short. */
  lemma StoppedShort(f: FlatBook, o: OrderState, respectPrice: bool)
    requires !NaiveCanMatch(f, o, respectPrice) && o.Pending() > 0
    ensures TotalRemaining(f.list, ReachOf(o, respectPrice)) == 0
  {
    FrontIsBest(f.list, Opposite(o.side));
    TotalNone(f.list, Whole, ReachOf(o, respectPrice));
  }

  /** Conservation with the exact amount: fill of the incoming order, loss of the resting orders in
      reach, and reported trades are all min(wanted, in reach); out of reach nothing is lost. */
  lemma {:induction false} LoopConserves(f: FlatBook, o: OrderState, respectPrice: bool)
    requires FlatOk(f) && o.Sane()
    ensures var (f', o') := NaiveLoop(f, o, respectPrice); var reach := ReachOf(o, respectPrice);
      var t := Min(o.Pending(), TotalRemaining(f.list, reach));
      && o'.filled == o.filled + t && o'.Pending() == o.Pending() - t
      && TotalRemaining(f'.list, reach) == TotalRemaining(f.list, reach) - t
      && SumQty(f'.trades) == SumQty(f.trades) + t
    decreases o.Pending(), |f.list|
  {
    hide FlatOk, Front, NaiveStep, TotalRemaining, SumQty, Selects;
    if NaiveCanMatch(f, o, respectPrice) {
      NaiveStepKeeps(f, o);
      StepTotal(f, o, ReachOf(o, respectPrice));
      StepReports(f, o, 0);
      FrontInReach(f, o, respectPrice);
      var (f', o') := NaiveStep(f, o);
      LoopConserves(f', o', respectPrice);
    } else if o.Pending() > 0 {
      StoppedShort(f, o, respectPrice);
    }
  }

  lemma FrontInReach(f: FlatBook, o: OrderState, respectPrice: bool)
    requires FlatOk(f) && NaiveCanMatch(f, o, respectPrice)
    ensures Selects(ReachOf(o, respectPrice), f.list[Front(f.list, Opposite(o.side)).value].order)
    ensures var r := f.list[Front(f.list, Opposite(o.side)).value].order;
      Min(o.Pending(), r.Pending()) <= TotalRemaining(f.list, ReachOf(o, respectPrice))
  {
    var k := Front(f.list, Opposite(o.side)).value;
    ListedFit(f, k);
    TotalAround(f.list, k, f.list[k], ReachOf(o, respectPrice));
  }

  /** A step reports exactly what it traded, against the front order. */
  lemma StepReports(f: FlatBook, o: OrderState, id: OrderId)
    requires FlatOk(f) && o.Sane() && Front(f.list, Opposite(o.side)).Some?
    ensures var r := f.list[Front(f.list, Opposite(o.side)).value].order; var t := Min(o.Pending(), r.Pending());
      && SumQty(NaiveStep(f, o).0.trades) == SumQty(f.trades) + t
      && SumQtyOf(NaiveStep(f, o).0.trades, id) == SumQtyOf(f.trades, id) + if r.id == id then t else 0
  {
    hide SumQty, SumQtyOf, Front, FlatOk, TakeOut;
    var r := f.list[Front(f.list, Opposite(o.side)).value].order;
    var t: Qty := Min(o.Pending(), r.Pending());
    SumAppend(f.trades, TradeEvent(o.instrument, o.side, o.id, r.side, r.id, r.price, t), id);
  }

  /** Order by order: what a resting order loses in a match is what the trades against it report.
      So the clips of an iceberg add up to its remaining quantity when it is gone. */
  lemma {:induction false} LoopPerOrder(f: FlatBook, o: OrderState, respectPrice: bool, id: OrderId)
    requires FlatOk(f) && o.Sane()
    ensures var f' := NaiveLoop(f, o, respectPrice).0;
      TotalRemaining(f'.list, WithId(id)) + SumQtyOf(f'.trades, id) ==
        TotalRemaining(f.list, WithId(id)) + SumQtyOf(f.trades, id)
    decreases o.Pending(), |f.list|
  {
    hide FlatOk, Front, NaiveStep, TotalRemaining, SumQtyOf;
    if NaiveCanMatch(f, o, respectPrice) {
      NaiveStepKeeps(f, o);
      StepTotal(f, o, WithId(id));
      StepReports(f, o, id);
      var (f', o') := NaiveStep(f, o);
      LoopPerOrder(f', o', respectPrice, id);
    }
  }

  // ---- the prices of the trades ---------------------------------------------------------------------

  /** No order of a side is better than q. */
  ghost predicate AtBest(list: seq<Resting>, s: Side, q: Price) {
    forall i :: 0 <= i < |list| && list[i].order.side == s ==> NoWorse(s, q, list[i].order.price)
  }

  lemma StepAtBest(f: FlatBook, o: OrderState, q: Price)
    requires FlatOk(f) && o.Sane() && Front(f.list, Opposite(o.side)).Some?
    requires AtBest(f.list, Opposite(o.side), q)
    ensures var p := f.list[Front(f.list, Opposite(o.side)).value].order.price;
      && NoWorse(Opposite(o.side), q, p)
      && AtBest(NaiveStep(f, o).0.list, Opposite(o.side), p)
  {
    FrontIsBest(f.list, Opposite(o.side));
  }

  /** Within one match the trades start at the best price and only get worse from there. */
  lemma {:induction false} LoopWorsens(f: FlatBook, o: OrderState, respectPrice: bool, n: nat, q: Price)
    requires FlatOk(f) && o.Sane() && n <= |f.trades|
    requires AtBest(f.list, Opposite(o.side), q)
    requires forall i :: n <= i < |f.trades| ==> NoWorse(Opposite(o.side), f.trades[i].price, q)
    requires forall i, j :: n <= i < j < |f.trades| ==> NoWorse(Opposite(o.side), f.trades[i].price, f.trades[j].price)
    ensures var f' := NaiveLoop(f, o, respectPrice).0;
      && f.trades <= f'.trades
      && forall i, j :: n <= i < j < |f'.trades| ==> NoWorse(Opposite(o.side), f'.trades[i].price, f'.trades[j].price)
    decreases o.Pending(), |f.list|
  {
    if NaiveCanMatch(f, o, respectPrice) {
      NaiveStepKeeps(f, o);
      StepAtBest(f, o, q);
      var p := f.list[Front(f.list, Opposite(o.side)).value].order.price;
      var (f', o') := NaiveStep(f, o);
      hide FlatOk, AtBest;
      assert f'.trades == f.trades || (|f'.trades| == |f.trades| + 1 && f.trades <= f'.trades &&
        f'.trades[|f.trades|].price == p);
      LoopWorsens(f', o', respectPrice, n, p);
    }
  }
}
