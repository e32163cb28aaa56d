/**
  Exact depths over whole operations and runs.  From a book with exact depths an operation leaves one
  that is too small for four reasons only, all of which can be told beforehand: what comes to rest
  overflows its level; a match puts back the next clip of an iceberg and that one overflows its level; an
  iceberg is cut down in place and refilled; or an order the window has dropped is cut down in place.
 */
module DepthRuns {
  import opened Types
  import opened Orders
  import opened PriceWindows
  import opened BookSpec
  import opened BookInvariant
  import opened BookOps
  import opened FlatBooks
  import opened Simulation
  import opened Listing
  import opened Conservation
  import opened BookTotals
  import opened Clips
  import opened Depths

  // ---- which refill overflows -----------------------------------------------------------------------

  /** What the first order of a queue shows. */
  ghost function FrontClip(b: BookState, s: Side, p: Price): nat {
    var q := b.Queue(s, p);
    if q != [] && q[0].id in b.orders then b.orders[q[0].id].Pending() else 0
  }

  /** The first order of the queue has another clip after this one, and with it its level overflows. */
  ghost predicate NextClipOverflows(b: BookState, s: Side, p: Price) {
    var q := b.Queue(s, p);
    && q != [] && q[0].id in b.orders
    && var h := b.orders[q[0].id];
       && h.HasDisplay() && h.Remaining() > h.Pending()
       && ShownAt(b, s, p) - h.Pending() + Min(h.display, h.Remaining() - h.Pending()) >= QTY_MOD
  }

  /** What is left at better prices than p, hidden quantity included. */
  ghost function Ahead(b: BookState, o: OrderState, p: Price): int {
    ReachAmount(b, o.(price := p), true, Whole) - SumQueue(b.Queue(Opposite(o.side), p), b.orders, Whole)
  }

  /** Taking the given amount uses up, at some price within the limit, a first clip of which the next one
      overflows its level. */
  ghost predicate RefillOverflows(b: BookState, o: OrderState, respectPrice: bool, amount: nat) {
    exists p {:trigger NextClipOverflows(b, Opposite(o.side), p)} ::
      && Within(o.side, o.price, respectPrice, p)
      && NextClipOverflows(b, Opposite(o.side), p)
      && amount >= Ahead(b, o, p) + FrontClip(b, Opposite(o.side), p)
  }

  // ---- what is ahead --------------------------------------------------------------------------------

  lemma {:induction false} ReachSplits(list: seq<Resting>, s: Side, p: Price)
    requires s != INVALID
    ensures Total(list, Whole, InReach(s, p, true)) ==
      Total(list, Whole, AtPrices(Opposite(s), {p})) + Total(list, Whole, InFrontOf(Opposite(s), p))
  {
    if list != [] {
      ReachSplits(list[1..], s, p);
    }
  }

  lemma AheadIsTotal(b: BookState, f: FlatBook, o: OrderState, p: Price)
    requires Inv(b) && Sim(b, f) && FlatOk(f) && o.side != INVALID
    ensures Ahead(b, o, p) == Total(f.list, Whole, InFrontOf(Opposite(o.side), p))
  {
    hide Inv, Sim, FlatOk, Total, ReachAmount, SumQueue;
    ReachIsTotal(b, f, o.(price := p), true, Whole);
    SimQueue(b, f, Opposite(o.side), p);
    SumQueueIsTotal(b.Queue(Opposite(o.side), p), b.orders, f.list, Whole, Opposite(o.side), p);
    ReachSplits(f.list, o.side, p);
  }

  lemma AheadIsNat(b: BookState, o: OrderState, p: Price)
    requires Inv(b) && o.side != INVALID
    ensures Ahead(b, o, p) >= 0
  {
    hide Inv, Sim, FlatOk, Total, Ahead;
    var f := HasFlat(b);
    AheadIsTotal(b, f, o, p);
  }

  /** Nothing is ahead of the best level, and behind it there is at least its first order. */
  lemma AheadOfBest(b: BookState, id: OrderId, p: Price)
    requires MatchInv(b, id) && BestPrice(b, Opposite(b.orders[id].side)).Some?
    requires b.Queue(Opposite(b.orders[id].side), p) != []
    ensures Head(b, id) in b.orders
    ensures var o := b.orders[id];
      if p == BestPrice(b, Opposite(o.side)).value then Ahead(b, o, p) == 0
      else Ahead(b, o, p) >= b.orders[Head(b, id)].Remaining()
  {
    hide Inv, Sim, FlatOk, Total, Ahead, Front, Head, BestPrice;
    StoredOrder(b, id);
    var f := HasFlat(b);
    var o := b.orders[id];
    var s := Opposite(o.side);
    AheadIsTotal(b, f, o, p);
    FrontIsHead(b, f, s);
    FrontIsBest(f.list, s);
    HeadEntry(b, id);
    var k := Front(f.list, s).value;
    if p == BestPrice(b, s).value {
      TotalNone(f.list, Whole, InFrontOf(s, p));
    } else {
      SomethingAt(b, f, s, p);
      TotalAround(f.list, k, f.list[k], InFrontOf(s, p));
    }
  }

  lemma SomethingAt(b: BookState, f: FlatBook, s: Side, p: Price)
    requires Inv(b) && Sim(b, f) && s != INVALID && b.Queue(s, p) != []
    ensures exists i :: 0 <= i < |f.list| && f.list[i].order.side == s && f.list[i].order.price == p
  {
    SimQueue(b, f, s, p);
    var i := PickedIsListed(f.list, s, p, 0);
  }

  /** A round takes what it trades off what is ahead of every worse level. */
  lemma StepAhead(b: BookState, id: OrderId, p: Price)
    requires MatchInv(b, id) && BestPrice(b, Opposite(b.orders[id].side)).Some? && b.orders[id].Pending() > 0
    requires p != BestPrice(b, Opposite(b.orders[id].side)).value && b.Queue(Opposite(b.orders[id].side), p) != []
    ensures Head(b, id) in b.orders
    ensures Ahead(MatchStep(b, id), b.orders[id], p) ==
      Ahead(b, b.orders[id], p) - TradeQty(b.orders[id], b.orders[Head(b, id)])
  {
    hide Inv, Sim, FlatOk, Total, Ahead, Front, NaiveStep, MatchStep, Head, BestPrice;
    StoredOrder(b, id);
    var f := HasFlat(b);
    var o := b.orders[id];
    var s := Opposite(o.side);
    FrontIsHead(b, f, s);
    FrontIsBest(f.list, s);
    HeadEntry(b, id);
    SomethingAt(b, f, s, p);
    AheadIsTotal(b, f, o, p);
    MatchStepKeeps(b, id);
    SimStep(b, f, id);
    NaiveStepKeeps(f, o);
    AheadIsTotal(MatchStep(b, id), NaiveStep(f, o).0, o, p);
    StepTotal(f, o, InFrontOf(s, p));
  }

  // ---- one round ------------------------------------------------------------------------------------

  /** The first order of a queue shows something unless it has nothing left. */
  lemma FrontShows(b: BookState, s: Side, p: Price)
    requires Inv(b) && s != INVALID && NextClipOverflows(b, s, p)
    ensures FrontClip(b, s, p) > 0
  {
    QueuedIsLive(b, None, s, p, 0);
  }

  /** Where nothing is taken, nothing is refilled. */
  lemma NothingTaken(b: BookState, o: OrderState, respectPrice: bool)
    requires Inv(b) && o.side != INVALID
    ensures !RefillOverflows(b, o, respectPrice, 0)
  {
    hide Inv, Ahead, FrontClip, NextClipOverflows, Within;
    if p {:trigger NextClipOverflows(b, Opposite(o.side), p)} :|
      NextClipOverflows(b, Opposite(o.side), p) && 0 >= Ahead(b, o, p) + FrontClip(b, Opposite(o.side), p) {
      AheadIsNat(b, o, p);
      FrontShows(b, Opposite(o.side), p);
    }
  }

  lemma NothingWithin(b: BookState, id: OrderId, respectPrice: bool)
    requires MatchInv(b, id) && !CanMatch(b, id, respectPrice)
    ensures !RefillOverflows(b, b.orders[id], respectPrice, b.orders[id].Pending())
  {
    StoredOrder(b, id);
    var o := b.orders[id];
    NothingTaken(b, o, respectPrice);
    hide Inv, Ahead, FrontClip, ShownAt;
    if p {:trigger NextClipOverflows(b, Opposite(o.side), p)} :|
      Within(o.side, o.price, respectPrice, p) && NextClipOverflows(b, Opposite(o.side), p) {
      assert p in b.SideOf(Opposite(o.side)).NonEmpty();
    }
  }

  /** A clip that is used up now and does not fit again. */
  lemma OverflowsNow(b: BookState, id: OrderId, respectPrice: bool)
    requires MatchInv(b, id) && CanMatch(b, id, respectPrice) && Head(b, id) in b.orders && !StepFits(b, id)
    ensures RefillOverflows(b, b.orders[id], respectPrice, b.orders[id].Pending())
  {
    hide Inv, InvBut, Ahead, ShownAt, Live, EntryOk, LevelOk, OrderState.AddFill, OrderState.Restable;
    HeadIsLive(b, id);
    HeadFits(b, id);
    var o, h := b.orders[id], b.orders[Head(b, id)];
    var s := Opposite(o.side);
    var p := BestPrice(b, s).value;
    FilledOrder(h, TradeQty(o, h));
    AddedFillIs(h, TradeQty(o, h));
    AheadOfBest(b, id, p);
    assert NextClipOverflows(b, s, p);
    assert Within(o.side, o.price, respectPrice, p);
  }

  lemma AddedFillIs(h: OrderState, t: Qty)
    requires h.Sane() && t <= h.Pending()
    ensures var after := h.AddFill(t);
      after.display == h.display && after.kind == h.kind && after.Remaining() == h.Remaining() - t
  {
  }

  /** The clip of the head outlasts the incoming order. */
  lemma ClipOutlasts(b: BookState, id: OrderId, respectPrice: bool)
    requires MatchInv(b, id) && CanMatch(b, id, respectPrice) && Head(b, id) in b.orders
    requires b.orders[id].Pending() < b.orders[Head(b, id)].Pending()
    ensures !RefillOverflows(b, b.orders[id], respectPrice, b.orders[id].Pending())
  {
    hide Inv, InvBut, Ahead, ShownAt, Live, EntryOk, LevelOk, Within, BestPrice, Head;
    HeadIsLive(b, id);
    HeadFits(b, id);
    var o := b.orders[id];
    var s := Opposite(o.side);
    if p {:trigger NextClipOverflows(b, s, p)} :|
      NextClipOverflows(b, s, p) && o.Pending() >= Ahead(b, o, p) + FrontClip(b, s, p) {
      AheadOfBest(b, id, p);
    }
  }

  /** A level whose orders all show full clips never grows by a refill. */
  lemma FullNeverOverflows(b: BookState, s: Side, p: Price)
    requires Inv(b) && s != INVALID && FullFrom(b, s, p, 0) && ExactAt(b, s, p)
    ensures !NextClipOverflows(b, s, p)
  {
    hide Inv, SumQueue;
    var q := b.Queue(s, p);
    if q != [] && q[0].id in b.orders {
      assert b.Queue(s, p)[0] == q[0];
      assert Full(b.orders[q[0].id]);
    }
  }

  /** At another level than the best one, a round shifts everything by what it trades. */
  lemma SameOverflow(b: BookState, id: OrderId, p: Price, amount: nat)
    requires MatchInv(b, id) && BestPrice(b, Opposite(b.orders[id].side)).Some? && b.orders[id].Pending() > 0
    requires p != BestPrice(b, Opposite(b.orders[id].side)).value && Head(b, id) in b.orders
    requires amount >= TradeQty(b.orders[id], b.orders[Head(b, id)])
    ensures var o, b' := b.orders[id], MatchStep(b, id); var s := Opposite(o.side);
      var t := TradeQty(o, b.orders[Head(b, id)]);
      (NextClipOverflows(b, s, p) && amount >= Ahead(b, o, p) + FrontClip(b, s, p)) <==>
      (NextClipOverflows(b', s, p) && amount - t >= Ahead(b', o, p) + FrontClip(b', s, p))
  {
    hide Inv, Ahead, ShownAt, DepthAt, MatchStep, BestPrice, Head;
    StepElsewhere(b, id, p);
    var q := b.Queue(Opposite(b.orders[id].side), p);
    if q != [] {
      StepAhead(b, id, p);
      assert q[0].id in b.orders;
    }
  }

  /** A round that uses up the clip of the head, which then fits or has no other one, leaves the question
      to the rest of the match. */
  lemma OverflowsLater(b: BookState, id: OrderId, respectPrice: bool)
    requires MatchInv(b, id) && CanMatch(b, id, respectPrice) && Head(b, id) in b.orders && StepFits(b, id)
    requires Exact(b) && OnlyHeadsUsed(b) && b.orders[id].Pending() >= b.orders[Head(b, id)].Pending()
    ensures id in MatchStep(b, id).orders
    ensures var o, o' := b.orders[id], MatchStep(b, id).orders[id];
      RefillOverflows(b, o, respectPrice, o.Pending()) <==>
      RefillOverflows(MatchStep(b, id), o', respectPrice, o'.Pending())
  {
    hide Inv, Exact, OnlyHeadsUsed, NextClipOverflows, FrontClip, Ahead, MatchStep, BestPrice, Head, Within, StepFits;
    StoredOrder(b, id);
    MatchStepKeeps(b, id);
    MatchStepSide(b, id);
    BestLevelSafe(b, id);
    var o, b' := b.orders[id], MatchStep(b, id);
    var s, t := Opposite(o.side), TradeQty(o, b.orders[Head(b, id)]);
    SameAhead(b', o, b'.orders[id]);
    forall p
      ensures (NextClipOverflows(b, s, p) && o.Pending() >= Ahead(b, o, p) + FrontClip(b, s, p)) <==>
        (NextClipOverflows(b', s, p) && b'.orders[id].Pending() >= Ahead(b', o, p) + FrontClip(b', s, p))
    {
      if p != BestPrice(b, s).value {
        SameOverflow(b, id, p, o.Pending());
      }
    }
  }

  lemma SameAhead(b: BookState, o: OrderState, o': OrderState)
    requires o.side == o'.side
    ensures forall p :: Ahead(b, o, p) == Ahead(b, o', p)
  {
    hide SumQueue, AmountWithin;
  }

  /** The best level neither overflows in this round nor will later. */
  lemma BestLevelSafe(b: BookState, id: OrderId)
    requires MatchInv(b, id) && BestPrice(b, Opposite(b.orders[id].side)).Some? && b.orders[id].Pending() > 0
    requires Head(b, id) in b.orders && StepFits(b, id) && Exact(b) && OnlyHeadsUsed(b)
    requires b.orders[id].Pending() >= b.orders[Head(b, id)].Pending()
    ensures var s := Opposite(b.orders[id].side); var p := BestPrice(b, s).value;
      !NextClipOverflows(b, s, p) && !NextClipOverflows(MatchStep(b, id), s, p)
  {
    hide Inv, InvBut, Fill, OnlyHeadsUsed, MatchStep, Head, ShownAt, Live, EntryOk, LevelOk, OrderState.AddFill,
      OrderState.Restable;
    StoredOrder(b, id);
    HeadIsLive(b, id);
    HeadFits(b, id);
    FilledIsLive(b, id);
    MatchStepKeeps(b, id);
    MatchStepUsed(b, id);
    MatchStepDepth(b, id);
    var o, h := b.orders[id], b.orders[Head(b, id)];
    FilledOrder(h, TradeQty(o, h));
    AddedFillIs(h, TradeQty(o, h));
    var s := Opposite(o.side);
    assert ExactAt(MatchStep(b, id), s, BestPrice(b, s).value);
    FullNeverOverflows(MatchStep(b, id), s, BestPrice(b, s).value);
  }

  // ---- a whole match --------------------------------------------------------------------------------

  /** A match keeps the depths exact exactly when it does not use up a clip of which the next one
      overflows. */
  lemma {:induction false} MatchLoopDepth(b: BookState, id: OrderId, respectPrice: bool)
    requires MatchInv(b, id) && Exact(b) && OnlyHeadsUsed(b)
    ensures Exact(MatchLoop(b, id, respectPrice)) <==>
      !RefillOverflows(b, b.orders[id], respectPrice, b.orders[id].Pending())
    decreases b.orders[id].Pending(), |b.orders|
  {
    hide Inv, MatchStep, Exact, OnlyHeadsUsed, RefillOverflows, StepFits, TooSmall, BestPrice, Head, Fill;
    if CanMatch(b, id, respectPrice) {
      MatchStepKeeps(b, id);
      MatchStepDepth(b, id);
      MatchStepUsed(b, id);
      var b' := MatchStep(b, id);
      if !StepFits(b, id) {
        OverflowsNow(b, id, respectPrice);
        OverflowIsTooSmall(b, id);
        EndsTooSmall(b', id, respectPrice, BestPrice(b, Opposite(b.orders[id].side)).value);
      } else {
        MatchLoopDepth(b', id, respectPrice);
        if b.orders[id].Pending() < b.orders[Head(b, id)].Pending() {
          ClipOutlasts(b, id, respectPrice);
          StoredOrder(b', id);
          NothingTaken(b', b'.orders[id], respectPrice);
        } else {
          OverflowsLater(b, id, respectPrice);
        }
      }
    } else {
      NothingWithin(b, id, respectPrice);
    }
  }

  /** With the order refreshed, what the orders of its level show does not overflow. */
  ghost predicate NoOverflow(b: BookState, o: OrderState) {
    ShownAt(b, o.side, o.price) + Amount(FullClip, o) < QTY_MOD
  }

  /** Coming to rest does not mend the depths. */
  lemma RestNeverMends(m: BookState, id: OrderId)
    requires MatchInv(m, id) && !Exact(m)
    requires forall p :: ExactAt(m, m.orders[id].side, p)
    ensures !Exact(Rest(m, id))
  {
    hide Inv, Rest, ExactAt, OrderState.Refresh, SideState.EnsureLevel;
    StoredOrder(m, id);
    IndexedStored(m);
    RestShape(m, id);
    var s, p :| s != INVALID && !ExactAt(m, s, p);
    SameAt(m, None, Rest(m, id), s, p);
  }

  /** An executed order keeps the depths exact exactly when no refilled clip overflows its level and, if
      the order comes to rest, it does not overflow its own. */
  lemma ExecuteDepth(b: BookState, id: OrderId, respectPrice: bool, allowRest: bool)
    requires MatchInv(b, id) && Exact(b) && OnlyHeadsUsed(b)
    ensures var o := b.orders[id];
      var t := Min(o.Pending(), ReachAmount(b, o, respectPrice, Whole)); var left := o.(filled := o.filled + t);
      Exact(ExecuteMatch(b, id, respectPrice, allowRest)) <==>
        !RefillOverflows(b, o, respectPrice, o.Pending()) && (allowRest && t < o.Pending() ==> NoOverflow(b, left))
  {
    hide Inv, MatchLoop, Rest, ReachAmount, ShownAt, DepthAt, ExactAt, RefillOverflows, OrderState.Refresh;
    LoopTrades(b, id, respectPrice);
    MatchLoopDepth(b, id, respectPrice);
    MatchLoopOwnSide(b, id, respectPrice);
    var m, o := MatchLoop(b, id, respectPrice), b.orders[id];
    IndexedStored(b);
    IndexedStored(m);
    StoredOrder(b, id);
    StoredOrder(m, id);
    forall p
      ensures ExactAt(m, o.side, p) && ShownAt(m, o.side, p) == ShownAt(b, o.side, p)
    {
      assert ExactAt(b, o.side, p);
      SameAt(b, None, m, o.side, p);
    }
    if allowRest && m.orders[id].Pending() > 0 {
      if Exact(m) {
        RestDepth(m, id);
      } else {
        RestNeverMends(m, id);
      }
    } else {
      SameDepth(m, None, Release(m, id));
    }
  }

  // ---- operations -----------------------------------------------------------------------------------

  /** An incoming order comes to rest with what it did not trade. */
  lemma LeftoverOf(b: BookState, o: OrderState)
    requires o.Sane()
    ensures var o1 := if o.kind == ICEBERG then o.HandleIceberg() else o; var t := Executed(b, o);
      && o1.side == o.side && o1.price == o.price && o1.id == o.id && o1.filled == o.filled && o1.total == o.total
      && (ComesToRest(b, o) ==>
            o.filled + t <= o.total && (NoOverflow(b, Rested(o, t)) <==> NoOverflow(b, o1.(filled := o1.filled + t))))
  {
    hide ReachAmount, FokLiquidity, ShownAt;
    if ComesToRest(b, o) {
      RestedIs(o, Executed(b, o));
    }
  }

  /** Processing the order overflows no level: no clip that the match refills, and not the order's own
      level if it comes to rest. */
  ghost predicate OverflowsNothing(b: BookState, o: OrderState) {
    && !RefillOverflows(b, o, RespectsPrice(o), Worked(b, o))
    && (ComesToRest(b, o) ==> NoOverflow(b, Rested(o, Executed(b, o))))
  }

  /** The question depends on the opposite side, and on the sum of the order's own level. */
  lemma RefillFrame(b: BookState, b': BookState, o: OrderState, o': OrderState, respectPrice: bool, amount: nat)
    requires Inv(b) && o.side != INVALID && b'.SideOf(Opposite(o.side)) == b.SideOf(Opposite(o.side))
    requires o'.side == o.side && o'.price == o.price
    requires forall c :: c in b.refs && b.refs[c].side == Opposite(o.side) ==>
      c in b.orders && c in b'.orders && b'.orders[c] == b.orders[c]
    ensures RefillOverflows(b', o', respectPrice, amount) <==> RefillOverflows(b, o, respectPrice, amount)
  {
    hide Inv, SumQueue, AmountWithin, Within, FokLiquidity;
    var s := Opposite(o.side);
    IndexedStored(b);
    forall p
      ensures Ahead(b', o', p) == Ahead(b, o, p) && FrontClip(b', s, p) == FrontClip(b, s, p)
      ensures NextClipOverflows(b', s, p) <==> NextClipOverflows(b, s, p)
    {
      ReachFrame(b, b', o.(price := p), true);
      SameSums(b, None, b', s, p);
      QueueIsIndexed(b, s, p);
      QueuedSide(b, s, p);
    }
  }

  lemma QueuedSide(b: BookState, s: Side, p: Price)
    requires Inv(b) && s != INVALID
    ensures b.Queue(s, p) != [] ==> b.Queue(s, p)[0].id in b.refs && b.refs[b.Queue(s, p)[0].id].side == s
  {
    if b.Queue(s, p) != [] {
      QueuedIsLive(b, None, s, p, 0);
    }
  }

  lemma ProcessDepth(b: BookState, id: OrderId)
    requires MatchInv(b, id) && Exact(b) && OnlyHeadsUsed(b)
    requires b.orders[id].kind == ICEBERG || b.orders[id].Pending() == b.orders[id].Remaining()
    ensures Exact(ProcessOrder(b, id)) <==> OverflowsNothing(b, b.orders[id])
  {
    hide Inv, ExecuteMatch, ReachAmount, Exact, OnlyHeadsUsed, RefillOverflows, FokLiquidity, OrderState.HandleIceberg;
    var o := b.orders[id];
    StoredOrder(b, id);
    IndexedStored(b);
    LeftoverOf(b, o);
    match o.kind {
      case LIMIT => ExecuteDepth(b, id, true, true);
      case MARKET => ExecuteDepth(b, id, false, false);
      case IOC => ExecuteDepth(b, id, true, false);
      case FOK =>
        ExecuteDepth(b, id, true, false);
        SameDepth(b, None, Release(b, id));
        NothingTaken(b, o, true);
      case ICEBERG => IcebergDepth(b, id);
    }
  }

  lemma IcebergDepth(b: BookState, id: OrderId)
    requires MatchInv(b, id) && Exact(b) && OnlyHeadsUsed(b) && b.orders[id].kind == ICEBERG
    ensures Exact(ProcessOrder(b, id)) <==> OverflowsNothing(b, b.orders[id])
  {
    hide InvBut, ExecuteMatch, AmountWithin, Exact, ExactAt, DepthAt, ShownAt, OnlyHeadsUsed, RefillOverflows,
      FokLiquidity,
      OrderState.HandleIceberg;
    StoredOrder(b, id);
    IndexedStored(b);
    IcebergKeeps(b, id);
    var o := b.orders[id];
    var o1 := o.HandleIceberg();
    var b1 := b.WithOrder(o1);
    LeftoverOf(b, o);
    PreparedIceberg(o);
    PreparedReach(b, id, o1, true);
    SameDepth(b, None, b1);
    SameUsed(b, None, b1);
    SameAt(b, None, b1, o.side, o.price);
    RefillFrame(b, b1, o, o1, true, o1.Pending());
    ExecuteDepth(b1, id, true, true);
  }

  /** Storing an order that is not indexed changes none of this. */
  lemma StoredDepth(b: BookState, o: OrderState)
    requires Inv(b) && o.id !in b.refs && o.side != INVALID
    ensures Exact(b.WithOrder(o)) <==> Exact(b)
    ensures OnlyHeadsUsed(b) ==> OnlyHeadsUsed(b.WithOrder(o))
    ensures OverflowsNothing(b.WithOrder(o), o) <==> OverflowsNothing(b, o)
  {
    hide Inv, ReachAmount, Exact, ExactAt, DepthAt, ShownAt, OnlyHeadsUsed, RefillOverflows, FokLiquidity,
      OrderState.HandleIceberg,
      OrderState.AddFill;
    IndexedStored(b);
    var b1 := b.WithOrder(o);
    SameDepth(b, None, b1);
    if OnlyHeadsUsed(b) {
      SameUsed(b, None, b1);
    }
    StoredReach(b, o);
    RefillFrame(b, b1, o, o, RespectsPrice(o), Worked(b, o));
    SameAt(b, None, b1, o.side, o.price);
  }

  /** Adding an order keeps the depths exact exactly when it overflows nothing. */
  lemma AddDepth(b: BookState, o: OrderState)
    requires Inv(b) && Addable(b, o) && Exact(b) && OnlyHeadsUsed(b)
    ensures Exact(AddOrder(b, o)) <==> OverflowsNothing(b, o)
  {
    hide InvBut, ProcessOrder, Exact, OnlyHeadsUsed, OverflowsNothing;
    AddedIsStored(b, o);
    IndexedStored(b);
    StoredDepth(b, o);
    ProcessDepth(b.WithOrder(o), o.id);
  }

  lemma CancelDepth(b: BookState, id: OrderId)
    requires Inv(b) && Exact(b)
    ensures Exact(CancelOrder(b, id).0)
  {
    hide InvBut, Unqueue, Exact, Live;
    IndexedStored(b);
    if id in b.refs {
      if Live(b, id) {
        UnqueueDepth(b, None, id);
        UnqueueKeeps(b, None, id);
        IndexedStored(Unqueue(b, id));
        SameDepth(Unqueue(b, id), None, Release(Unqueue(b, id), id));
      } else {
        SameDepth(b, None, b.(refs := Drop(b.refs, id)));
      }
    }
  }

  lemma ReenterDepth(b: BookState, id: OrderId, price: Price, qty: Qty)
    requires Inv(b) && Live(b, id) && id in b.orders && Exact(b) && OnlyHeadsUsed(b)
    ensures Exact(ReenterBook(b, id, price, qty)) <==>
      (qty >= b.orders[id].filled ==> OverflowsNothing(Unqueue(b, id), Resized(b.orders[id], price, qty)))
  {
    hide InvBut, Unqueue, ProcessOrder, Exact, OnlyHeadsUsed, OverflowsNothing, Live, OrderState.Refresh,
      OrderState.Restable;
    LiveFits(b, id);
    IndexedStored(b);
    ReenteredIsStored(b, id, price, qty);
    UnqueueDepth(b, None, id);
    UnqueueUsed(b, None, id);
    var left := Unqueue(b, id);
    IndexedStored(left);
    if qty < b.orders[id].filled {
      SameDepth(left, None, left.(orders := Drop(left.orders, id)));
    } else {
      var o := Resized(b.orders[id], price, qty);
      ReenteredShows(b.orders[id], price, qty);
      StoredDepth(left, o);
      ProcessDepth(left.WithOrder(o), id);
    }
  }

  /** The operation makes no depth too small: what it processes overflows nothing, and an order that it
      modifies in place does not come to show more or, if the window has dropped it, less at a price that
      shows something. */
  ghost predicate Careful(b: BookState, op: Op)
    requires Inv(b)
  {
    match op
    case Add(o) => OverflowsNothing(b, o)
    case Cancel(id) => true
    case Modify(id, price, qty) =>
      if id !in b.refs || b.refs[id].price !in b.SideOf(b.refs[id].side).levels then true else
      IndexedOrder(b, id);
      var o := b.orders[id];
      if qty < o.filled then true
      else if price == o.price && qty <= o.total then
        var after := Resized(o, price, qty);
        if Live(b, id) then after.Pending() <= o.Pending()
        else after.Pending() >= o.Pending() || ShownAt(b, o.side, o.price) == 0
      else Live(b, id) ==> OverflowsNothing(Unqueue(b, id), Resized(o, price, qty))
  }

  lemma ModifyDepth(b: BookState, id: OrderId, price: Price, qty: Qty)
    requires Inv(b) && Exact(b) && OnlyHeadsUsed(b)
    ensures Exact(ModifyOrder(b, id, price, qty)) <==> Careful(b, Modify(id, price, qty))
  {
    hide InvBut, Unqueue, ModifyInPlace, ReenterBook, Exact, OnlyHeadsUsed, OverflowsNothing, ShownAt, Live, Reenter,
      OrderState.Refresh;
    if id in b.refs && b.refs[id].price in b.SideOf(b.refs[id].side).levels {
      IndexedOrder(b, id);
      var o := b.orders[id];
      if price == o.price && qty <= o.total {
        ModifiedIs(o, qty);
        if qty >= o.filled {
          InPlaceDepth(b, id, qty);
        }
      } else if Live(b, id) {
        ReenterDepth(b, id, price, qty);
      }
    }
  }

  /** From exact depths, an operation leaves exact depths exactly when it is careful. */
  lemma ApplyDepth(b: BookState, op: Op)
    requires Inv(b) && Allowed(b, op) && Exact(b) && OnlyHeadsUsed(b)
    ensures Exact(Apply(b, op)) <==> Careful(b, op)
  {
    hide InvBut, Exact, OnlyHeadsUsed, OverflowsNothing, AddOrder, CancelOrder, ModifyOrder;
    match op {
      case Add(o) => AddDepth(b, o);
      case Cancel(id) => CancelDepth(b, id);
      case Modify(id, price, qty) => ModifyDepth(b, id, price, qty);
    }
  }

  /** So in every reachable book, where only the heads of queues can have partly used clips. */
  lemma ReachableDepth(b: BookState, op: Op)
    requires Reachable(b) && Inv(b) && Allowed(b, op) && Exact(b)
    ensures Exact(Apply(b, op)) <==> Careful(b, op)
  {
    hide InvBut, Apply, Allowed, Exact, OnlyHeadsUsed, Careful, Reachable;
    ReachableIsUsed(b);
    ApplyDepth(b, op);
  }

  // ---- runs -----------------------------------------------------------------------------------------

  /** Every operation of the run is careful when it comes. */
  ghost predicate CarefulRun(b: BookState, ops: seq<Op>)
    requires Inv(b)
    decreases |ops|
  {
    ops == [] ||
    (Allowed(b, ops[0]) && Careful(b, ops[0]) && (ApplyKeeps(b, ops[0]); CarefulRun(Apply(b, ops[0]), ops[1..])))
  }

  /** The run only goes through books with exact depths. */
  ghost predicate ExactRun(b: BookState, ops: seq<Op>)
    requires Inv(b)
    decreases |ops|
  {
    Exact(b) &&
    (ops == [] || (Allowed(b, ops[0]) && (ApplyKeeps(b, ops[0]); ExactRun(Apply(b, ops[0]), ops[1..]))))
  }

  /** A run keeps every depth exact throughout exactly when all its operations are careful. */
  lemma {:induction false} ExactThroughout(b: BookState, ops: seq<Op>)
    requires Inv(b) && Exact(b) && OnlyHeadsUsed(b)
    ensures ExactRun(b, ops) <==> CarefulRun(b, ops)
    decreases |ops|
  {
    hide Inv, Apply, Exact, OnlyHeadsUsed, Careful, Allowed;
    if ops != [] && Allowed(b, ops[0]) {
      ApplyKeeps(b, ops[0]);
      ApplyDepth(b, ops[0]);
      ApplyUsed(b, ops[0]);
      if Exact(Apply(b, ops[0])) {
        ExactThroughout(Apply(b, ops[0]), ops[1..]);
      }
    }
  }

  /** On careful runs every level's depth is exactly what its orders show. */
  lemma {:induction false} ExactOverRuns(b: BookState, ops: seq<Op>, b': BookState)
    requires Inv(b) && Exact(b) && OnlyHeadsUsed(b) && CarefulRun(b, ops) && Runs(b, ops, b')
    ensures Exact(b') && OnlyHeadsUsed(b')
    decreases |ops|
  {
    hide Inv, Apply, Exact, OnlyHeadsUsed, Careful;
    if ops != [] {
      ApplyKeeps(b, ops[0]);
      ApplyDepth(b, ops[0]);
      ApplyUsed(b, ops[0]);
      ExactOverRuns(Apply(b, ops[0]), ops[1..], b');
    }
  }

  lemma EmptyIsExact()
    ensures Exact(EMPTY_BOOK) && OnlyHeadsUsed(EMPTY_BOOK)
  {
  }
}
