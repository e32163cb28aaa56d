/**
  Fill-or-kill orders: an accepted one is filled completely, a rejected one leaves no trace, and
  which of the two happens.
 */
module FillOrKill {
  import opened Types
  import opened Orders
  import opened PriceWindows
  import opened BookSpec
  import opened BookInvariant
  import opened BookOps
  import opened Conservation
  import opened BookTotals
  import opened Depths

  // ---- the depth in reach ---------------------------------------------------------------------------

  /** The depth at the given prices that an order of side s may take, as a plain sum. */
  ghost function DepthWithin(b: BookState, prices: seq<Price>, s: Side, limit: Price): nat
    requires forall p :: p in prices ==> p in b.SideOf(Opposite(s)).levels
  {
    if prices == [] then 0 else
    var last := prices[|prices| - 1];
    DepthWithin(b, prices[..|prices| - 1], s, limit) +
    if Crosses(s, limit, last) then b.SideOf(Opposite(s)).levels[last].openQty else 0
  }

  /** The depth of the opposite levels within the limit of the order, level by level. */
  ghost function DepthReach(b: BookState, o: OrderState): nat {
    AscendingIsSorted(b.SideOf(Opposite(o.side)).NonEmpty());
    DepthWithin(b, Ascending(b.SideOf(Opposite(o.side)).NonEmpty()), o.side, o.price)
  }

  /** What the orders show that are in reach of the order. */
  ghost function ShownReach(b: BookState, o: OrderState): nat {
    ReachAmount(b, o, true, Shown)
  }

  lemma WrapSum(a: nat, d: Qty)
    ensures WrapAdd(a % QTY_MOD, d) == (a + d) % QTY_MOD
  {
  }

  /** The 32-bit sum is the plain sum modulo 2^32. */
  lemma {:induction false} SumWraps(b: BookState, prices: seq<Price>, s: Side, limit: Price)
    requires forall p :: p in prices ==> p in b.SideOf(Opposite(s)).levels
    ensures SumDepth(b.SideOf(Opposite(s)).levels, prices, s, limit) == DepthWithin(b, prices, s, limit) % QTY_MOD
  {
    if prices != [] {
      var k := |prices| - 1;
      SumWraps(b, prices[..k], s, limit);
      assert prices[k] in prices;
      WrapSum(DepthWithin(b, prices[..k], s, limit), b.SideOf(Opposite(s)).levels[prices[k]].openQty);
    }
  }

  lemma LiquidityWraps(b: BookState, o: OrderState)
    ensures Liquidity(b, o.side, o.price) == DepthReach(b, o) % QTY_MOD
  {
    AscendingIsSorted(b.SideOf(Opposite(o.side)).NonEmpty());
    SumWraps(b, Ascending(b.SideOf(Opposite(o.side)).NonEmpty()), o.side, o.price);
  }

  // ---- depth against what is shown ------------------------------------------------------------------

  lemma LevelWithin(b: BookState, s: Side, p: Price)
    requires Inv(b) && s != INVALID && p in b.SideOf(s).levels
    ensures b.SideOf(s).levels[p].openQty <= SumQueue(b.Queue(s, p), b.orders, Shown)
  {
    assert LevelOk(s, p, b.SideOf(s).levels[p], b, None);
  }

  /** Every level in reach has the depth that its orders show. */
  ghost predicate ExactReach(b: BookState, o: OrderState) {
    forall p {:trigger ExactAt(b, Opposite(o.side), p)} :: Crosses(o.side, o.price, p) ==>
      ExactAt(b, Opposite(o.side), p)
  }

  lemma {:induction false} DepthIsWithin(b: BookState, prices: seq<Price>, s: Side, limit: Price)
    requires Inv(b) && s != INVALID
    requires forall p :: p in prices ==> p in b.SideOf(Opposite(s)).levels
    ensures DepthWithin(b, prices, s, limit) <= AmountWithin(b, prices, s, limit, true, Shown)
    ensures DepthWithin(b, prices, s, limit) == AmountWithin(b, prices, s, limit, true, Shown) <==>
      forall i :: 0 <= i < |prices| && Crosses(s, limit, prices[i]) ==> ExactAt(b, Opposite(s), prices[i])
  {
    hide Inv, SumQueue, Crosses;
    if prices != [] {
      var k := |prices| - 1;
      DepthIsWithin(b, prices[..k], s, limit);
      assert prices[k] in prices;
      LevelWithin(b, Opposite(s), prices[k]);
      assert forall i :: 0 <= i < k ==> prices[..k][i] == prices[i];
    }
  }

  /** The depth in reach never exceeds what is shown there, and is as much exactly when every level in
      reach has the depth that its orders show. */
  lemma DepthIsShown(b: BookState, o: OrderState)
    requires Inv(b) && o.side != INVALID
    ensures DepthReach(b, o) <= ShownReach(b, o)
    ensures DepthReach(b, o) == ShownReach(b, o) <==> ExactReach(b, o)
  {
    hide DepthWithin, AmountWithin, Crosses, ExactAt;
    var s := Opposite(o.side);
    var prices := Ascending(b.SideOf(s).NonEmpty());
    AscendingIsSorted(b.SideOf(s).NonEmpty());
    DepthIsWithin(b, prices, o.side, o.price);
    forall p
      ensures p in prices || ExactAt(b, s, p)
    {
      if p in b.SideOf(s).levels {
        LevelAt(b, s, p);
        assert p in b.SideOf(s).NonEmpty();
      } else {
        NoLevelIsExact(b, s, p);
      }
    }
    forall i | 0 <= i < |prices|
      ensures prices[i] in prices
    {
    }
  }

  lemma NoLevelIsExact(b: BookState, s: Side, p: Price)
    requires p !in b.SideOf(s).levels
    ensures ExactAt(b, s, p)
  {
  }

  lemma {:induction false} ShownWithinWhole(b: BookState, prices: seq<Price>, s: Side, limit: Price)
    requires Inv(b) && s != INVALID
    ensures AmountWithin(b, prices, s, limit, true, Shown) <= AmountWithin(b, prices, s, limit, true, Whole)
  {
    hide Inv, SumQueue;
    if prices != [] {
      ShownWithinWhole(b, prices[..|prices| - 1], s, limit);
      IndexedStored(b);
      hide InvBut;
      ShownIsLessAt(b, None, Opposite(s), prices[|prices| - 1]);
    }
  }

  // ---- acceptance -----------------------------------------------------------------------------------

  /** The order is accepted exactly when the depth in reach, modulo 2^32, is enough; and only if enough
      is shown.  It is rejected although enough is shown only when the sum of the depths overflows, or when
      some level in reach has too small a depth. */
  lemma AcceptedExactlyWhen(b: BookState, o: OrderState)
    requires Inv(b) && o.side != INVALID
    ensures FokLiquidity(b, o) <==> DepthReach(b, o) % QTY_MOD >= o.Pending()
    ensures FokLiquidity(b, o) ==> ShownReach(b, o) >= o.Pending()
    ensures ShownReach(b, o) >= o.Pending() && !FokLiquidity(b, o) ==> DepthReach(b, o) >= QTY_MOD || !ExactReach(b, o)
    ensures DepthReach(b, o) < QTY_MOD && ExactReach(b, o) ==> (FokLiquidity(b, o) <==> ShownReach(b, o) >= o.Pending())
  {
    hide Inv, Liquidity, DepthReach, ShownReach, ExactReach;
    LiquidityWraps(b, o);
    DepthIsShown(b, o);
  }

  /** All or nothing: in every book that satisfies the invariant a fill-or-kill order either trades its
      whole quantity and is gone, or leaves the book exactly as it was. */
  lemma AllOrNothing(b: BookState, o: OrderState)
    requires Inv(b) && Addable(b, o) && o.kind == FOK
    ensures var b' := AddOrder(b, o);
      if FokLiquidity(b, o) then SumQty(b'.trades) == SumQty(b.trades) + o.total && o.id !in b'.orders
      else b' == b
  {
    hide InvBut, AddOrder, SumQty, Liquidity, AmountWithin, DepthReach;
    RejectedLeavesNoTrace(b, o);
    AddTrades(b, o);
    AcceptedExactlyWhen(b, o);
    ShownWithinWhole(b, Ascending(b.SideOf(Opposite(o.side)).NonEmpty()), o.side, o.price);
  }
}
