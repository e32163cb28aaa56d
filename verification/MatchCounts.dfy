/**
  The number of trades of one match, exactly.  Fully consumed levels count alike in the book and in the
  research matcher; at the last price reached the book takes orders by age and the research matcher by
  size, and the numbers of trades agree exactly when as many of them cover what is still wanted there.
 */
module MatchCounts {
  import opened Types
  import opened Orders
  import opened BookInvariant
  import opened FlatBooks
  import opened Conservation
  import opened HeapMatcher
  import opened Agreement
  import opened TradeCounts

  /** How many of the quantities, from the front, it takes to cover an amount. */
  function Needed(quantities: seq<int>, amount: int): nat {
    if quantities == [] || amount <= 0 then 0 else 1 + Needed(quantities[1..], amount - quantities[0])
  }

  /** What the orders at a price have left, oldest first. */
  function ByAge(list: seq<Resting>, s: Side, p: Price): seq<int> {
    if list == [] then [] else
    (if list[0].order.side == s && list[0].order.price == p then [list[0].order.Remaining()] else [])
      + ByAge(list[1..], s, p)
  }

  /** The quantities of the pairs with a key, smallest first. */
  function BySize(h: Heap, key: int): seq<int> {
    if h == [] then [] else (if h[0].key == key then [h[0].qty] else []) + BySize(h[1..], key)
  }

  /** The pairs with a smaller key: their number, or their quantity. */
  datatype Aspect = Number | Quantity

  function Weight(q: Quote, a: Aspect): int {
    if a == Number then 1 else q.qty
  }

  function Below(h: Heap, key: int, a: Aspect): int {
    if h == [] then 0 else (if h[0].key < key then Weight(h[0], a) else 0) + Below(h[1..], key, a)
  }

  /** The same of the orders of a side in a list. */
  function Before(list: seq<Resting>, s: Side, key: int, a: Aspect): int {
    if list == [] then 0 else
    (if list[0].order.side == s && QuoteOf(list[0].order).key < key then Weight(QuoteOf(list[0].order), a) else 0) +
      Before(list[1..], s, key, a)
  }

  function KeyOf(s: Side, p: Price): int {
    if s == SELL then p else BidKey(p)
  }

  // ---- equal quotes weigh the same ------------------------------------------------------------------

  lemma {:induction false} BelowConcat(g: Heap, h: Heap, key: int, a: Aspect)
    ensures Below(g + h, key, a) == Below(g, key, a) + Below(h, key, a)
  {
    if g == [] {
      assert g + h == h;
    } else {
      BelowConcat(g[1..], h, key, a);
      assert (g + h)[1..] == g[1..] + h;
    }
  }

  lemma BelowCut(h: Heap, j: nat, key: int, a: Aspect)
    requires j < |h|
    ensures Below(h, key, a) == Below(h[..j] + h[j + 1..], key, a) + if h[j].key < key then Weight(h[j], a) else 0
    ensures multiset(h[..j] + h[j + 1..]) == multiset(h) - multiset{h[j]}
  {
    hide Weight;
    BelowConcat(h[..j], h[j + 1..], key, a);
    BelowConcat(h[..j], [h[j]] + h[j + 1..], key, a);
    assert ([h[j]] + h[j + 1..])[1..] == h[j + 1..];
    hide Below;
    CutPairs(h, j);
  }

  lemma CutPairs(h: Heap, j: nat)
    requires j < |h|
    ensures h == h[..j] + ([h[j]] + h[j + 1..])
    ensures multiset(h[..j] + h[j + 1..]) == multiset(h) - multiset{h[j]}
  {
    assert h == h[..j] + ([h[j]] + h[j + 1..]);
  }

  lemma FirstQuote(list: seq<Resting>, h: Heap, s: Side) returns (j: nat)
    requires multiset(h) == Quotes(list, s) && list != [] && list[0].order.side == s
    ensures j < |h| && h[j] == QuoteOf(list[0].order)
    ensures multiset(h) - multiset{h[j]} == Quotes(list[1..], s)
  {
    var q := QuoteOf(list[0].order);
    var rest := Quotes(list[1..], s);
    assert multiset(h) == multiset{q} + rest;
    hide Quotes;
    assert q in multiset(h);
    j :| 0 <= j < |h| && h[j] == q;
    assert (multiset{q} + rest) - multiset{q} == rest;
  }

  lemma FirstBefore(list: seq<Resting>, s: Side, key: int, a: Aspect)
    requires list != []
    ensures var q := QuoteOf(list[0].order);
      Before(list, s, key, a) ==
        Before(list[1..], s, key, a) + if list[0].order.side == s && q.key < key then Weight(q, a) else 0
  {
  }

  lemma {:induction false} SameWeight(list: seq<Resting>, h: Heap, s: Side, key: int, a: Aspect)
    requires multiset(h) == Quotes(list, s)
    ensures Below(h, key, a) == Before(list, s, key, a)
    decreases |list|
  {
    if list == [] {
      NoPairs(h, key, a);
    } else {
      hide Weight, Below, QuoteOf, Quotes, Before;
      FirstBefore(list, s, key, a);
      if list[0].order.side == s {
        var j := FirstQuote(list, h, s);
        BelowCut(h, j, key, a);
        SameWeight(list[1..], h[..j] + h[j + 1..], s, key, a);
      } else {
        NotQuoted(list, s);
        SameWeight(list[1..], h, s, key, a);
      }
    }
  }

  lemma NoPairs(h: Heap, key: int, a: Aspect)
    requires multiset(h) == multiset{}
    ensures Below(h, key, a) == 0
  {
    assert |h| == |multiset(h)| == 0;
  }

  lemma NotQuoted(list: seq<Resting>, s: Side)
    requires list != [] && list[0].order.side != s
    ensures Quotes(list, s) == Quotes(list[1..], s)
  {
  }

  lemma {:induction false} BeforeIsTotal(list: seq<Resting>, s: Side, p: Price)
    requires s != INVALID
    ensures Before(list, s, KeyOf(s, p), Quantity) == Total(list, Whole, InFrontOf(s, p))
    ensures Before(list, s, KeyOf(s, p) + 1, Quantity) == Total(list, Whole, InReach(Opposite(s), p, true))
  {
    if list != [] {
      BeforeIsTotal(list[1..], s, p);
    }
  }

  lemma {:induction false} BelowIsOffered(h: Heap, key: int)
    ensures Below(h, key, Quantity) == Offered(h, key - 1)
  {
    if h != [] {
      BelowIsOffered(h[1..], key);
    }
  }

  // ---- the research matcher -------------------------------------------------------------------------

  lemma {:induction false} BelowIsPositive(h: Heap, key: int)
    requires HeapOk(h)
    ensures Below(h, key, Quantity) >= 0 && Below(h, key, Number) >= 0
    ensures h != [] && h[0].key < key ==> Below(h, key, Quantity) >= h[0].qty
    ensures h == [] || h[0].key >= key ==> Below(h, key, Quantity) == 0 && Below(h, key, Number) == 0
  {
    if h != [] {
      BelowIsPositive(h[1..], key);
    }
  }

  /** The first pair, and the others. */
  lemma FirstPair(h: Heap, key: int, limit: int)
    requires HeapOk(h) && h != []
    ensures HeapOk(h[1..]) && h[0].qty > 0
    ensures forall a :: Below(h, key, a) == Below(h[1..], key, a) + if h[0].key < key then Weight(h[0], a) else 0
    ensures Offered(h, limit) == Offered(h[1..], limit) + if h[0].key <= limit then h[0].qty else 0
    ensures BySize(h, key) == if h[0].key == key then [h[0].qty] + BySize(h[1..], key) else BySize(h[1..], key)
    ensures h[0].key >= key ==> Below(h, key, Quantity) == 0 == Below(h, key, Number)
    ensures Below(h[1..], key, Quantity) >= 0 && Offered(h[1..], limit) >= 0
  {
    BelowIsPositive(h, key);
    BelowIsPositive(h[1..], key);
    OfferedIsPositive(h[1..], limit);
  }

  lemma OneNeeded(q: seq<int>, amount: int)
    requires q != [] && amount > 0
    ensures Needed(q, amount) == 1 + Needed(q[1..], amount - q[0])
    ensures amount <= q[0] ==> Needed(q, amount) == 1
  {
  }

  /** All pairs below the last key, and at that key as many as cover what is still wanted. */
  lemma {:induction false} HitCounts(h: Heap, limit: int, qty: int, key: int)
    requires HeapOk(h) && key <= limit
    requires var t := Min(qty, Offered(h, limit)); Below(h, key, Quantity) < t <= Below(h, key + 1, Quantity)
    ensures var t := Min(qty, Offered(h, limit));
      Hit(h, limit, qty).trades == Below(h, key, Number) + Needed(BySize(h, key), t - Below(h, key, Quantity))
    decreases |h|
  {
    hide HeapOk, Hit, Below, BySize, Offered, Needed, Push;
    BelowIsPositive(h, key);
    BelowIsPositive(h, key + 1);
    FirstPair(h, key, limit);
    FirstPair(h, key + 1, limit);
    var t, ahead := Min(qty, Offered(h, limit)), Below(h, key, Quantity);
    var u := Min(qty, h[0].qty);
    HitRest(h, limit, qty);
    if h[0].key == key {
      assert BySize(h, key)[1..] == BySize(h[1..], key);
      OneNeeded(BySize(h, key), t - ahead);
    }
    if t == u {
      NothingLeft(h[1..], limit, qty - u);
    } else {
      HitCounts(h[1..], limit, qty - u, key);
    }
  }

  lemma HitRest(h: Heap, limit: int, qty: int)
    requires HeapOk(h) && CanHit(h, limit, qty)
    ensures HeapOk(h[1..])
    ensures Hit(h, limit, qty).trades == if qty >= h[0].qty then 1 + Hit(h[1..], limit, qty - h[0].qty).trades else 1
  {
  }

  lemma NothingLeft(h: Heap, limit: int, qty: int)
    requires HeapOk(h) && Min(qty, Offered(h, limit)) <= 0
    ensures Hit(h, limit, qty).trades == 0
  {
    OfferedIsPositive(h, limit);
  }

  // ---- the book -------------------------------------------------------------------------------------

  /** Every order of the side has something left. */
  ghost predicate AllLeft(list: seq<Resting>, s: Side) {
    forall i :: 0 <= i < |list| && list[i].order.side == s ==> list[i].order.Remaining() > 0
  }

  lemma {:induction false} AgesAt(list: seq<Resting>, k: nat, s: Side, p: Price)
    requires k < |list| && list[k].order.side == s
    requires forall i :: 0 <= i < k && list[i].order.side == s ==> list[i].order.price != list[k].order.price
    ensures var rest := ByAge(TakeOut(list, k), s, p);
      ByAge(list, s, p) == if list[k].order.price == p then [list[k].order.Remaining()] + rest else rest
  {
    if k == 0 {
      assert TakeOut(list, 0) == list[1..];
    } else {
      AgesAt(list[1..], k - 1, s, p);
      assert TakeOut(list, k) == [list[0]] + TakeOut(list[1..], k - 1);
    }
  }

  lemma {:induction false} BeforeAt(list: seq<Resting>, k: nat, s: Side, key: int, a: Aspect)
    requires k < |list| && list[k].order.side == s
    ensures var q := QuoteOf(list[k].order);
      Before(list, s, key, a) == Before(TakeOut(list, k), s, key, a) + if q.key < key then Weight(q, a) else 0
  {
    if k == 0 {
      assert TakeOut(list, 0) == list[1..];
    } else {
      BeforeAt(list[1..], k - 1, s, key, a);
      assert TakeOut(list, k) == [list[0]] + TakeOut(list[1..], k - 1);
    }
  }

  lemma {:induction false} BeforeIsPositive(list: seq<Resting>, s: Side, key: int, a: Aspect)
    requires AllLeft(list, s)
    ensures Before(list, s, key, a) >= 0
    ensures (forall i :: 0 <= i < |list| && list[i].order.side == s ==> QuoteOf(list[i].order).key >= key) ==>
      Before(list, s, key, a) == 0
  {
    if list != [] {
      BeforeIsPositive(list[1..], s, key, a);
    }
  }

  /** What an order finds that is matched against a list. */
  function Found(f: FlatBook, o: OrderState): int {
    Min(o.Pending(), Before(f.list, Opposite(o.side), LimitKey(o) + 1, Quantity))
  }

  lemma LimitIsKey(o: OrderState)
    requires o.side != INVALID
    ensures LimitKey(o) == KeyOf(Opposite(o.side), o.price)
  {
  }

  lemma NoMoreTrades(f: FlatBook, o: OrderState)
    requires FlatOk(f) && o.Sane() && o.side != INVALID && AllLeft(f.list, Opposite(o.side)) && Found(f, o) <= 0
    ensures NaiveLoop(f, o, true) == (f, o)
  {
    hide FlatOk, Front, Before, AllLeft, OrderState.Remaining, OrderState.Pending, NaiveStep;
    if NaiveCanMatch(f, o, true) {
      FrontCounts(f, o);
      var k := Front(f.list, Opposite(o.side)).value;
      LeftTaken(f.list, k, Opposite(o.side));
      BeforeAt(f.list, k, Opposite(o.side), LimitKey(o) + 1, Quantity);
      BeforeIsPositive(TakeOut(f.list, k), Opposite(o.side), LimitKey(o) + 1, Quantity);
    }
  }

  lemma FrontCounts(f: FlatBook, o: OrderState)
    requires o.side != INVALID && NaiveCanMatch(f, o, true) && AllLeft(f.list, Opposite(o.side))
    ensures var r := f.list[Front(f.list, Opposite(o.side)).value].order;
      r.side == Opposite(o.side) && r.Remaining() > 0 && QuoteOf(r).key <= LimitKey(o)
  {
    hide Front, OrderState.Remaining;
  }

  lemma LeftTaken(list: seq<Resting>, k: nat, s: Side)
    requires k < |list| && AllLeft(list, s)
    ensures AllLeft(TakeOut(list, k), s)
  {
    hide OrderState.Remaining;
  }

  /** A round takes the oldest order of the best price. */
  lemma StepTakes(f: FlatBook, o: OrderState)
    requires FlatOk(f) && o.Sane() && o.side != INVALID && AllLimit(f) && AllLeft(f.list, Opposite(o.side))
    requires NaiveCanMatch(f, o, true)
    ensures var k := Front(f.list, Opposite(o.side)).value; var (f', o') := NaiveStep(f, o);
      var r := f.list[k].order; var t := Min(o.Pending(), r.Remaining());
      && r.side == Opposite(o.side) && r.Remaining() > 0 && QuoteOf(r).key <= LimitKey(o)
      && |f'.trades| == |f.trades| + 1 && o' == o.(filled := o.filled + t) && o'.Pending() == o.Pending() - t
      && (t == r.Remaining() ==> f'.list == TakeOut(f.list, k))
      && AllLimit(f') && FlatOk(f') && o'.Sane()
      && (forall i :: 0 <= i < k && f.list[i].order.side == r.side ==> f.list[i].order.price != r.price)
      && (forall i :: 0 <= i < |f.list| && f.list[i].order.side == r.side ==>
        QuoteOf(r).key <= QuoteOf(f.list[i].order).key)
  {
    FrontIsBest(f.list, Opposite(o.side));
    NaiveStepKeeps(f, o);
    StepAllLimit(f, o);
    hide Front;
    var k := Front(f.list, Opposite(o.side)).value;
    var r := f.list[k].order;
    ListedFit(f, k);
    FilledOrder(r, Min(o.Pending(), r.Pending()));
  }

  /** All orders at better prices than the last one, and at that price as many as cover what is still
      wanted. */
  lemma {:induction false} LoopTakes(f: FlatBook, o: OrderState, p: Price)
    requires FlatOk(f) && o.Sane() && o.side != INVALID && AllLimit(f) && AllLeft(f.list, Opposite(o.side))
    requires KeyOf(Opposite(o.side), p) <= LimitKey(o)
    requires var s := Opposite(o.side);
      Before(f.list, s, KeyOf(s, p), Quantity) < Found(f, o) <= Before(f.list, s, KeyOf(s, p) + 1, Quantity)
    ensures var s := Opposite(o.side); var ahead := Before(f.list, s, KeyOf(s, p), Quantity);
      |NaiveLoop(f, o, true).0.trades| ==
        |f.trades| + Before(f.list, s, KeyOf(s, p), Number) + Needed(ByAge(f.list, s, p), Found(f, o) - ahead)
    decreases |f.list|
  {
    hide FlatOk, Front, NaiveStep, ByAge, Before, OrderState.Pending, OrderState.Remaining, AllLeft, AllLimit;
    var s := Opposite(o.side);
    var key := KeyOf(s, p);
    BeforeIsPositive(f.list, s, key, Quantity);
    MustMatch(f, o);
    StepTakes(f, o);
    var k := Front(f.list, s).value;
    var r := f.list[k].order;
    var (f', o') := NaiveStep(f, o);
    BeforeAt(f.list, k, s, key, Quantity);
    BeforeAt(f.list, k, s, key, Number);
    BeforeAt(f.list, k, s, key + 1, Quantity);
    BeforeAt(f.list, k, s, LimitKey(o) + 1, Quantity);
    AgesAt(f.list, k, s, p);
    LeftTaken(f.list, k, s);
    var left := TakeOut(f.list, k);
    BeforeIsPositive(left, s, key, Quantity);
    BeforeIsPositive(left, s, LimitKey(o) + 1, Quantity);
    BestKey(f.list, s, r, key);
    if o.Pending() >= r.Remaining() {
      if Found(f', o') > 0 {
        LoopTakes(f', o', p);
      } else {
        NoMoreTrades(f', o');
      }
    } else {
      assert NaiveLoop(f', o', true) == (f', o');
    }
  }

  /** Something is found only by an order that can match. */
  lemma MustMatch(f: FlatBook, o: OrderState)
    requires FlatOk(f) && o.side != INVALID && AllLeft(f.list, Opposite(o.side)) && Found(f, o) > 0
    ensures NaiveCanMatch(f, o, true)
  {
    FrontIsBest(f.list, Opposite(o.side));
    hide Front;
    BeforeIsPositive(f.list, Opposite(o.side), LimitKey(o) + 1, Quantity);
  }

  /** If the best order is not before a key, none is; if it is not at the key either, all at it come later. */
  lemma BestKey(list: seq<Resting>, s: Side, r: OrderState, key: int)
    requires AllLeft(list, s)
    requires forall i :: 0 <= i < |list| && list[i].order.side == s ==> QuoteOf(r).key <= QuoteOf(list[i].order).key
    ensures QuoteOf(r).key >= key ==> Before(list, s, key, Quantity) == 0 == Before(list, s, key, Number)
    ensures QuoteOf(r).key > key ==> Before(list, s, key + 1, Quantity) == 0
  {
    BeforeIsPositive(list, s, key, Quantity);
    BeforeIsPositive(list, s, key, Number);
    BeforeIsPositive(list, s, key + 1, Quantity);
  }

  // ---- both -----------------------------------------------------------------------------------------

  /** p is the last price that a match reaches: what it finds goes beyond the better prices, but not
      beyond p. */
  ghost predicate LastReached(f: FlatBook, o: OrderState, p: Price) {
    var s := Opposite(o.side);
    var found := Min(o.Pending(), TotalRemaining(f.list, ReachOf(o, true)));
    && Crosses(o.side, o.price, p)
    && Total(f.list, Whole, InFrontOf(s, p)) < found <= Total(f.list, Whole, InReach(o.side, p, true))
  }

  /** What is still wanted when the match comes to price p. */
  ghost function StillWanted(f: FlatBook, o: OrderState, p: Price): int {
    Min(o.Pending(), TotalRemaining(f.list, ReachOf(o, true))) - Total(f.list, Whole, InFrontOf(Opposite(o.side), p))
  }

  lemma {:induction false} NothingUsedUp(list: seq<Resting>, h: Heap, s: Side)
    requires HeapOk(h) && forall q :: q in Quotes(list, s) ==> q in h
    ensures AllLeft(list, s)
  {
    if list != [] {
      NothingUsedUp(list[1..], h, s);
      if list[0].order.side == s {
        assert QuoteOf(list[0].order) in QuoteIf(list[0], s);
        assert QuoteOf(list[0].order) in h;
      }
    }
  }

  /** From equal quotes, book and research matcher make the same number of trades in a match exactly when
      at the last price reached as many orders by age as by size cover what is still wanted there. */
  lemma CountsAgreeExactlyWhen(f: FlatBook, h: Heap, o: OrderState, p: Price)
    requires FlatOk(f) && o.Sane() && o.side != INVALID && AllLimit(f) && SameQuotes(f, h, Opposite(o.side))
    requires LastReached(f, o, p) && HeapOk(h)
    ensures var s := Opposite(o.side); var wanted := StillWanted(f, o, p);
      |NaiveLoop(f, o, true).0.trades| == |f.trades| + Hit(h, LimitKey(o), o.Pending()).trades <==>
      Needed(ByAge(f.list, s, p), wanted) == Needed(BySize(h, KeyOf(s, p)), wanted)
  {
    hide FlatOk, NaiveLoop, Hit, Quotes, Before, Below, ByAge, BySize, Needed, Total, HeapOk;
    var s := Opposite(o.side);
    var key := KeyOf(s, p);
    QuotesInHeap(f, h, s);
    NothingUsedUp(f.list, h, s);
    LimitIsKey(o);
    BeforeIsTotal(f.list, s, p);
    BeforeIsTotal(f.list, s, o.price);
    SameWeight(f.list, h, s, key, Quantity);
    SameWeight(f.list, h, s, key, Number);
    SameWeight(f.list, h, s, key + 1, Quantity);
    SameWeight(f.list, h, s, LimitKey(o) + 1, Quantity);
    BelowIsOffered(h, LimitKey(o) + 1);
    LoopTakes(f, o, p);
    HitCounts(h, LimitKey(o), o.Pending(), key);
  }

  lemma QuotesInHeap(f: FlatBook, h: Heap, s: Side)
    requires SameQuotes(f, h, s)
    ensures forall q :: q in Quotes(f.list, s) ==> q in h
  {
    hide Quotes, HeapOk;
    forall q | q in Quotes(f.list, s)
      ensures q in h
    {
      assert q in multiset(h);
    }
  }

  /** A match that finds nothing makes no trades in either. */
  lemma NothingFound(f: FlatBook, h: Heap, o: OrderState)
    requires FlatOk(f) && o.Sane() && o.side != INVALID && SameQuotes(f, h, Opposite(o.side)) && HeapOk(h)
    requires Min(o.Pending(), TotalRemaining(f.list, ReachOf(o, true))) == 0
    ensures NaiveLoop(f, o, true) == (f, o) && Hit(h, LimitKey(o), o.Pending()).trades == 0
  {
    hide FlatOk, NaiveLoop, Hit, Quotes, Before, Below, Total, HeapOk;
    var s := Opposite(o.side);
    QuotesInHeap(f, h, s);
    NothingUsedUp(f.list, h, s);
    LimitIsKey(o);
    BeforeIsTotal(f.list, s, o.price);
    SameWeight(f.list, h, s, LimitKey(o) + 1, Quantity);
    BelowIsOffered(h, LimitKey(o) + 1);
    NoMoreTrades(f, o);
    NothingLeft(h, LimitKey(o), o.Pending());
  }
}
