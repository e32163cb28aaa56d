/**
  Every book that satisfies the invariant has a flat list behind it: its queues one after the other.
  So what is proved about a book together with a flat list holds of every such book.
 */
module Listing {
  import opened Types
  import opened Orders
  import opened PriceWindows
  import opened BookSpec
  import opened BookInvariant
  import opened FlatBooks
  import opened Simulation

  /** Orders as list entries, stamped one after the other. */
  function Stamped(q: seq<OrderState>, from: nat): seq<Resting> {
    seq(|q|, i requires 0 <= i < |q| => Resting(q[i], from + i))
  }

  lemma PickBoth(q: seq<OrderState>, r: seq<OrderState>, from: nat, s: Side, p: Price)
    ensures Pick(Stamped(q + r, from), s, p) == Pick(Stamped(q, from), s, p) + Pick(Stamped(r, from + |q|), s, p)
  {
    PickConcat(Stamped(q, from), Stamped(r, from + |q|), s, p);
    assert Stamped(q + r, from) == Stamped(q, from) + Stamped(r, from + |q|);
  }

  lemma {:induction false} PickStamped(q: seq<OrderState>, from: nat, s: Side, p: Price, s': Side, p': Price)
    requires forall i :: 0 <= i < |q| ==> q[i].side == s && q[i].price == p
    ensures Pick(Stamped(q, from), s', p') == if s' == s && p' == p then q else []
  {
    if q != [] {
      PickStamped(q[1..], from + 1, s, p, s', p');
      PickBoth([q[0]], q[1..], from, s', p');
      PickOne(Resting(q[0], from), s', p');
      assert q == [q[0]] + q[1..];
      assert Stamped([q[0]], from) == [Resting(q[0], from)];
    }
  }

  /** The orders queued at the given prices of a side. */
  ghost function SideOrders(b: BookState, s: Side, prices: seq<Price>): seq<OrderState>
    requires Inv(b) && s != INVALID
  {
    if prices == [] then [] else
    var k := |prices| - 1;
    QueueIsStored(b, None, s, prices[k]);
    SideOrders(b, s, prices[..k]) + Resolve(b.Queue(s, prices[k]), b.orders)
  }

  /** A stored order that is queued on side s at one of the prices. */
  ghost predicate ListedFrom(b: BookState, s: Side, prices: seq<Price>, o: OrderState) {
    o.side == s && o.price in prices && o.id in b.orders && b.orders[o.id] == o && o.Restable() && o.Settled()
  }

  ghost predicate Apart(q: seq<OrderState>) {
    forall i, j :: 0 <= i < j < |q| ==> q[i].id != q[j].id
  }

  lemma OneQueueListed(b: BookState, s: Side, p: Price)
    requires Inv(b) && s != INVALID
    ensures Stored(b.Queue(s, p), b.orders) && Apart(Resolve(b.Queue(s, p), b.orders))
    ensures forall i :: 0 <= i < |b.Queue(s, p)| ==> ListedFrom(b, s, [p], Resolve(b.Queue(s, p), b.orders)[i])
  {
    QueueIsStored(b, None, s, p);
    OnlyOnce(b, s, p);
    forall i | 0 <= i < |b.Queue(s, p)|
      ensures ListedFrom(b, s, [p], Resolve(b.Queue(s, p), b.orders)[i])
    {
      QueuedIsLive(b, None, s, p, i);
    }
  }

  lemma {:induction false} SideListed(b: BookState, s: Side, prices: seq<Price>)
    requires Inv(b) && s != INVALID
    requires forall i, j :: 0 <= i < j < |prices| ==> prices[i] < prices[j]
    ensures forall i :: 0 <= i < |SideOrders(b, s, prices)| ==> ListedFrom(b, s, prices, SideOrders(b, s, prices)[i])
    ensures Apart(SideOrders(b, s, prices))
  {
    hide Inv, OrderState.Restable, OrderState.Settled;
    if prices != [] {
      var k := |prices| - 1;
      SideListed(b, s, prices[..k]);
      OneQueueListed(b, s, prices[k]);
    }
  }

  lemma OneMorePicked(b: BookState, q: seq<OrderState>, s: Side, at: Price, from: nat, s': Side, p: Price)
    requires Inv(b) && s != INVALID
    ensures Stored(b.Queue(s, at), b.orders)
    ensures var r := Resolve(b.Queue(s, at), b.orders);
      Pick(Stamped(q + r, from), s', p) == Pick(Stamped(q, from), s', p) + if s' == s && p == at then r else []
  {
    hide Inv, Pick, Resolve, Apart, OrderState.Restable, OrderState.Settled;
    OneQueueListed(b, s, at);
    var r := Resolve(b.Queue(s, at), b.orders);
    PickBoth(q, r, from, s', p);
    assert forall i :: 0 <= i < |r| ==> ListedFrom(b, s, [at], r[i]);
    PickStamped(r, from + |q|, s, at, s', p);
  }

  lemma {:induction false} SidePicked(b: BookState, s: Side, prices: seq<Price>, from: nat, s': Side, p: Price)
    requires Inv(b) && s != INVALID
    requires forall i, j :: 0 <= i < j < |prices| ==> prices[i] < prices[j]
    ensures Stored(b.Queue(s, p), b.orders)
    ensures Pick(Stamped(SideOrders(b, s, prices), from), s', p) ==
      if s' == s && p in prices then Resolve(b.Queue(s, p), b.orders) else []
  {
    hide Inv, Pick, Resolve, Stamped, Stored;
    InvIsInvBut(b);
    hide InvBut;
    QueueIsStored(b, None, s, p);
    if prices == [] {
      PickStamped([], from, s, p, s', p);
    } else {
      var k := |prices| - 1;
      SidePicked(b, s, prices[..k], from, s', p);
      OneMorePicked(b, SideOrders(b, s, prices[..k]), s, prices[k], from, s', p);
      assert p in prices <==> p in prices[..k] || p == prices[k];
    }
  }

  lemma StampedOk(b: BookState, q: seq<OrderState>, r: seq<OrderState>, prices: seq<Price>, prices': seq<Price>)
    requires forall i :: 0 <= i < |q| ==> ListedFrom(b, BUY, prices, q[i])
    requires forall i :: 0 <= i < |r| ==> ListedFrom(b, SELL, prices', r[i])
    requires Apart(q) && Apart(r)
    ensures FlatOk(FlatBook(Stamped(q + r, 0), |q + r|, b.bids.base, b.asks.base, b.trades))
  {
    hide OrderState.Restable, OrderState.Settled;
  }

  ghost function AllOrders(b: BookState): seq<OrderState>
    requires Inv(b)
  {
    SideOrders(b, BUY, Ascending(b.bids.NonEmpty())) + SideOrders(b, SELL, Ascending(b.asks.NonEmpty()))
  }

  lemma AllPicked(b: BookState, s: Side, p: Price)
    requires Inv(b) && s != INVALID
    ensures Stored(b.Queue(s, p), b.orders)
    ensures Pick(Stamped(AllOrders(b), 0), s, p) == Resolve(b.Queue(s, p), b.orders)
  {
    hide Inv, Pick, SideOrders, Stamped, BestOf, Ascending;
    AscendingIsSorted(b.bids.NonEmpty());
    AscendingIsSorted(b.asks.NonEmpty());
    var bidPrices, askPrices := Ascending(b.bids.NonEmpty()), Ascending(b.asks.NonEmpty());
    var bids, asks := SideOrders(b, BUY, bidPrices), SideOrders(b, SELL, askPrices);
    PickBoth(bids, asks, 0, s, p);
    SidePicked(b, BUY, bidPrices, 0, s, p);
    SidePicked(b, SELL, askPrices, |bids|, s, p);
    assert p in b.SideOf(s).NonEmpty() <==> b.Queue(s, p) != [];
    if b.Queue(s, p) == [] {
      ResolveNothing(b.orders);
    }
  }

  /** The queues of a right book, one after the other, are a flat list for it. */
  lemma HasFlat(b: BookState) returns (f: FlatBook)
    requires Inv(b)
    ensures Sim(b, f) && FlatOk(f)
  {
    hide Inv, Pick, FlatOk, ListedFrom, SideOrders, Stamped, BestOf;
    AscendingIsSorted(b.bids.NonEmpty());
    AscendingIsSorted(b.asks.NonEmpty());
    var bidPrices, askPrices := Ascending(b.bids.NonEmpty()), Ascending(b.asks.NonEmpty());
    SideListed(b, BUY, bidPrices);
    SideListed(b, SELL, askPrices);
    StampedOk(b, SideOrders(b, BUY, bidPrices), SideOrders(b, SELL, askPrices), bidPrices, askPrices);
    hide Ascending, Apart;
    f := FlatBook(Stamped(AllOrders(b), 0), |AllOrders(b)|, b.bids.base, b.asks.base, b.trades);
    forall s, p | s != INVALID
      ensures SameQueue(b, f, s, p)
    {
      AllPicked(b, s, p);
    }
  }
}
