/**
  The sliding price window and the plain price-to-queue map that a ring of slots stands for.

  Every intermediate value below has type `Price`, so the verifier shows that none of the source's
  64-bit additions and subtractions wraps around.
 */
module PriceWindows {
  import opened Types
  import opened PriceLevels

  const CAPACITY: int := 1024
  const HALF_CAPACITY: int := CAPACITY / 2
  const SPAN: int := CAPACITY - 1
  const MAX_BASE: Price := MAX_U64 - SPAN

  function ClampBase(candidate: Price): Price {
    if candidate > MAX_BASE then MAX_BASE else candidate
  }

  function InitialBase(price: Price): Price {
    ClampBase(if price > HALF_CAPACITY then price - HALF_CAPACITY else 0)
  }

  predicate InWindow(base: Price, price: Price) {
    base <= price <= base + SPAN
  }

  function FocusAnchoredBase(price: Price): Price {
    if price <= SPAN then 0 else ClampBase(price - SPAN)
  }

  /** The base after a rebalance: centred on the best price if there is one, then shifted just far
      enough to take in the focus, or anchored at the focus when that is too far away. */
  function RebalancedBase(best: Option<Price>, focus: Price): Price {
    var reference: Price := if best.Some? then best.value else focus;
    var centred: Price := InitialBase(reference);
    if focus < centred then
      var diff: Price := centred - focus;
      if diff > SPAN then FocusAnchoredBase(focus) else
      var shifted: Price := centred - diff;
      ClampBase(shifted)
    else
      var upper: Price := centred + SPAN;
      if focus > upper then
        var diff: Price := focus - upper;
        if diff > SPAN then FocusAnchoredBase(focus) else
        var shifted: Price := centred + diff;
        ClampBase(shifted)
      else centred
  }

  /** Whatever the best price, the new window lies inside the 64-bit range and takes in the focus. */
  lemma RebalanceTakesInFocus(best: Option<Price>, focus: Price)
    ensures RebalancedBase(best, focus) <= MAX_BASE
    ensures InWindow(RebalancedBase(best, focus), focus)
  {
  }

  // ---- the window, told by distances ----------------------------------------------------------------

  /** The lower edge of the window centred on a price: half a window below it, but so that the window does
      not stick out of the 64-bit range at either end. */
  function CentredLow(centre: Price): Price {
    if centre < CAPACITY / 2 then 0
    else if centre + CAPACITY / 2 - 1 > MAX_U64 then MAX_U64 - CAPACITY + 1
    else centre - CAPACITY / 2
  }

  /** p is in the window centred on a price. */
  predicate Around(centre: Price, p: Price) {
    CentredLow(centre) <= p < CentredLow(centre) + CAPACITY
  }

  /** p is in the window after it has moved to take in `focus`, when the best price was `best`.  A focus
      in the window centred on the best price leaves it at that.  A focus above becomes the upper edge,
      however far above it is.  A focus below becomes the lower edge if it is less than a whole window
      below, and otherwise the upper edge, as far as there are prices below it. */
  predicate MovedCovers(best: Price, focus: Price, p: Price) {
    var low := CentredLow(best);
    var high := low + CAPACITY - 1;
    if low <= focus <= high then low <= p <= high
    else if focus > high then focus - CAPACITY < p <= focus
    else if low - focus < CAPACITY then focus <= p < focus + CAPACITY
    else if focus < CAPACITY then p < CAPACITY
    else focus - CAPACITY < p <= focus
  }

  /** p is in the window of a side once it takes in a price, told from where the window starts and what
      the best price is before that. */
  predicate CoversAfter(base: Option<Price>, best: Option<Price>, price: Price, p: Price) {
    if base.Some? && base.value <= price < base.value + CAPACITY then base.value <= p < base.value + CAPACITY
    else if base.Some? && best.Some? then MovedCovers(best.value, price, p)
    else Around(price, p)
  }

  /** What a rebalanced window, and the first window, cover. */
  lemma WindowByDistance(best: Price, focus: Price, p: Price)
    ensures InWindow(RebalancedBase(Some(best), focus), p) <==> MovedCovers(best, focus, p)
    ensures InWindow(RebalancedBase(None, focus), p) <==> Around(focus, p)
    ensures InWindow(InitialBase(focus), p) <==> Around(focus, p)
  {
  }

  /** The previous best level survives a rebalance exactly when it is less than one window away
      from the focus. */
  lemma BestSurvives(best: Price, focus: Price)
    ensures InWindow(RebalancedBase(Some(best), focus), best) <==> -SPAN <= best - focus <= SPAN
  {
  }

  /** One side of the book: the active levels by price, and the base of the window once there is one. */
  datatype SideState = SideState(levels: map<Price, LevelState>, base: Option<Price>)
  {
    ghost predicate Windowed() {
      && (base.None? ==> levels == map[])
      && (base.Some? ==> base.value <= MAX_BASE && forall p :: p in levels ==> InWindow(base.value, p))
    }

    ghost function NonEmpty(): set<Price> {
      set p | p in levels && levels[p].queue != []
    }

    ghost function Best(s: Side): Option<Price> {
      BestOf(s, NonEmpty())
    }

    /** The window is moved to take in `price`; the levels it then leaves outside are dropped. */
    ghost function Rebalance(s: Side, price: Price): SideState {
      var b := if base.None? then InitialBase(price) else RebalancedBase(Best(s), price);
      SideState(map p | p in levels && InWindow(b, p) :: levels[p], Some(b))
    }

    ghost function Focus(s: Side, price: Price): SideState {
      if base.Some? && InWindow(base.value, price) then this else Rebalance(s, price)
    }

    ghost function EnsureLevel(s: Side, price: Price): SideState {
      var f := Focus(s, price);
      if price in f.levels then f else f.(levels := f.levels[price := EMPTY_LEVEL])
    }

    ghost function SetLevel(price: Price, level: LevelState): SideState {
      this.(levels := levels[price := level])
    }

    ghost function EraseLevel(price: Price): SideState {
      this.(levels := Drop(levels, price))
    }
  }

  const NO_LEVELS := SideState(map[], None)

  ghost predicate IsBest(s: Side, prices: set<Price>, p: Price) {
    p in prices && forall q :: q in prices ==> NoWorse(s, p, q)
  }

  lemma {:induction false} BestExists(s: Side, prices: set<Price>)
    requires prices != {}
    ensures exists p :: IsBest(s, prices, p)
    decreases |prices|
  {
    var q :| q in prices;
    var rest := prices - {q};
    assert forall x :: x in prices ==> x == q || x in rest;
    if rest == {} {
      assert IsBest(s, prices, q);
    } else {
      BestExists(s, rest);
      var p :| IsBest(s, rest, p);
      assert IsBest(s, prices, if NoWorse(s, p, q) then p else q);
    }
  }

  /** The best price of a set, if it has any. */
  ghost function BestOf(s: Side, prices: set<Price>): (r: Option<Price>)
    ensures r.None? <==> prices == {}
    ensures r.Some? ==> IsBest(s, prices, r.value)
  {
    if prices == {} then None else
    BestExists(s, prices);
    var p :| IsBest(s, prices, p);
    Some(p)
  }

  lemma BestIsUnique(s: Side, prices: set<Price>, p: Price)
    requires IsBest(s, prices, p)
    ensures BestOf(s, prices) == Some(p)
  {
  }

  /** One more candidate is compared with the best so far. */
  lemma BestWithCandidate(s: Side, prices: set<Price>, p: Price, best: Price)
    requires p in prices && (IsBest(s, prices, best) || IsBest(s, prices - {p}, best))
    ensures IsBest(s, prices, if NoWorse(s, best, p) then best else p)
  {
    assert forall q :: q in prices ==> q == p || q in prices - {p};
  }

  lemma BestAlone(s: Side, prices: set<Price>, p: Price)
    requires p in prices && prices - {p} == {}
    ensures IsBest(s, prices, p)
  {
    assert forall q :: q in prices ==> q == p || q in prices - {p};
  }

  ghost function Below(prices: set<Price>, bound: int): set<Price> {
    set p | p in prices && p < bound
  }

  lemma BelowAll(prices: set<Price>, bound: int)
    requires forall p :: p in prices ==> p < bound
    ensures Below(prices, bound) == prices
  {
  }

  /** A scan that has the best of the prices below `bound` looks at `bound` itself. */
  lemma BelowStep(s: Side, prices: set<Price>, bound: int, best: Option<Price>)
    requires if best.None? then Below(prices, bound) == {} else IsBest(s, Below(prices, bound), best.value)
    ensures bound !in prices ==> Below(prices, bound + 1) == Below(prices, bound)
    ensures bound in prices ==> IsBest(s, Below(prices, bound + 1),
      if best.None? then bound else if NoWorse(s, best.value, bound) then best.value else bound)
  {
    if bound in prices {
      assert Below(prices, bound + 1) - {bound} == Below(prices, bound);
      if best.None? {
        BestAlone(s, Below(prices, bound + 1), bound);
      } else {
        BestWithCandidate(s, Below(prices, bound + 1), bound, best.value);
      }
    } else {
      assert Below(prices, bound + 1) == Below(prices, bound);
    }
  }

  lemma NonEmptyIsActive(st: SideState, price: Price)
    ensures price in st.NonEmpty() ==> price in st.levels
  {
  }

  lemma WindowUnmoved(st: SideState, s: Side, price: Price)
    requires st.Windowed() && st.base.Some? && RebalancedBase(st.Best(s), price) == st.base.value
    ensures st.Rebalance(s, price) == st
  {
    assert (map p | p in st.levels && InWindow(st.base.value, p) :: st.levels[p]) == st.levels;
  }

  /** A side that has no window yet gets one centred on its first price. */
  lemma FocusOfNothing(st: SideState, s: Side, price: Price)
    requires st.Windowed()
    ensures st.base.None? ==> st.Focus(s, price) == SideState(map[], Some(InitialBase(price)))
    ensures InWindow(InitialBase(price), price)
  {
    if st.base.None? {
      assert st.Rebalance(s, price).levels == map[];
    }
  }

  lemma NonEmptyWithEmpty(st: SideState, price: Price)
    ensures price !in st.levels ==> st.SetLevel(price, EMPTY_LEVEL).NonEmpty() == st.NonEmpty()
  {
  }

  /** Replacing one level changes the non-empty prices at most by its price. */
  lemma NonEmptyAfter(st: SideState, price: Price, level: LevelState)
    requires price in st.levels
    ensures var after := st.SetLevel(price, level).NonEmpty();
      && (level.queue == [] <==> st.levels[price].queue == []) ==> after == st.NonEmpty()
    ensures var after := st.SetLevel(price, level).NonEmpty();
      st.NonEmpty() == after || st.NonEmpty() == after - {price} || st.NonEmpty() == after + {price}
  {
    var after := st.SetLevel(price, level).NonEmpty();
    if level.queue == [] && st.levels[price].queue != [] {
      assert st.NonEmpty() == after + {price};
    } else if level.queue != [] && st.levels[price].queue == [] {
      assert st.NonEmpty() == after - {price};
    } else {
      assert st.NonEmpty() == after;
    }
  }

  lemma EraseAbsent(st: SideState, price: Price)
    requires price !in st.levels
    ensures st.EraseLevel(price) == st
  {
    assert Drop(st.levels, price) == st.levels;
  }

  /** The prices in ascending order. */
  ghost function Ascending(prices: set<Price>): seq<Price>
    decreases |prices|
  {
    var top := BestOf(BUY, prices);
    if top.None? then [] else Ascending(prices - {top.value}) + [top.value]
  }

  lemma {:induction false} AscendingIsSorted(prices: set<Price>)
    ensures forall p :: p in Ascending(prices) <==> p in prices
    ensures forall i, j :: 0 <= i < j < |Ascending(prices)| ==> Ascending(prices)[i] < Ascending(prices)[j]
    decreases |prices|
  {
    var top := BestOf(BUY, prices);
    if top.Some? {
      AscendingIsSorted(prices - {top.value});
      var below := Ascending(prices - {top.value});
      forall i | 0 <= i < |below|
        ensures below[i] < top.value
      {
        assert below[i] in below;
      }
      assert forall p :: p in prices ==> p == top.value || p in prices - {top.value};
    }
  }

  lemma AscendingStep(prices: set<Price>, p: int)
    ensures p !in prices ==> Ascending(Below(prices, p + 1)) == Ascending(Below(prices, p))
    ensures p in prices ==> Ascending(Below(prices, p + 1)) == Ascending(Below(prices, p)) + [p]
  {
    if p in prices {
      assert IsBest(BUY, Below(prices, p + 1), p);
      BestIsUnique(BUY, Below(prices, p + 1), p);
      assert Below(prices, p + 1) - {p} == Below(prices, p);
    } else {
      assert Below(prices, p + 1) == Below(prices, p);
    }
  }

  /** Taking in a price keeps the window legal, keeps exactly the levels inside the new window with
      their queues and slot handles unchanged, and always provides the level asked for. */
  lemma EnsureLevelKeeps(s: Side, st: SideState, price: Price)
    requires st.Windowed()
    ensures st.EnsureLevel(s, price).Windowed() && st.EnsureLevel(s, price).base.Some?
    ensures InWindow(st.EnsureLevel(s, price).base.value, price) && price in st.EnsureLevel(s, price).levels
    ensures var after := st.EnsureLevel(s, price); forall p ::
      p in after.levels <==> p == price || (p in st.levels && InWindow(after.base.value, p))
    ensures forall p :: p in st.EnsureLevel(s, price).levels && p in st.levels ==>
      st.EnsureLevel(s, price).levels[p] == st.levels[p]
  {
    RebalanceTakesInFocus(st.Best(s), price);
  }

  /** Which prices the window covers once it takes in a price, and so which levels are kept, can be told
      by distances from the best price. */
  lemma NewWindow(s: Side, st: SideState, price: Price)
    requires st.Windowed()
    ensures st.EnsureLevel(s, price).base.Some?
    ensures forall p: Price ::
      InWindow(st.EnsureLevel(s, price).base.value, p) <==> CoversAfter(st.base, st.Best(s), price, p)
    ensures forall p :: p in st.EnsureLevel(s, price).levels <==>
      p == price || (p in st.levels && CoversAfter(st.base, st.Best(s), price, p))
  {
    hide RebalancedBase, InitialBase, MovedCovers, Around;
    EnsureLevelKeeps(s, st, price);
    forall p: Price
      ensures InWindow(st.EnsureLevel(s, price).base.value, p) <==> CoversAfter(st.base, st.Best(s), price, p)
    {
      WindowByDistance(if st.Best(s).Some? then st.Best(s).value else price, price, p);
    }
  }

  /** So can which levels a rebalance keeps. */
  lemma RebalancedWindow(s: Side, st: SideState, focus: Price)
    requires st.Windowed()
    ensures forall p :: p in st.Rebalance(s, focus).levels <==>
      p in st.levels && if st.Best(s).Some? then MovedCovers(st.Best(s).value, focus, p) else Around(focus, p)
  {
    hide RebalancedBase, InitialBase, MovedCovers, Around;
    forall p
      ensures p in st.Rebalance(s, focus).levels <==>
        p in st.levels && if st.Best(s).Some? then MovedCovers(st.Best(s).value, focus, p) else Around(focus, p)
    {
      if p in st.levels {
        WindowByDistance(if st.Best(s).Some? then st.Best(s).value else focus, focus, p);
      }
    }
  }

  /** The previous best level is dropped by a new price exactly when it is a whole window or more
      away from it. */
  lemma BestDropped(s: Side, st: SideState, price: Price)
    requires st.Windowed() && st.Best(s).Some?
    ensures var best := st.Best(s).value;
      best !in st.EnsureLevel(s, price).levels <==> best - price > SPAN || price - best > SPAN
  {
    BestSurvives(st.Best(s).value, price);
  }

  /** No level is dropped when the resting prices and the new price lie within half a window of
      each other. */
  lemma CloseLevelsSurvive(s: Side, st: SideState, price: Price, p: Price)
    requires st.Windowed() && st.NonEmpty() == st.levels.Keys && p in st.levels
    requires forall q :: q in st.levels ==> -HALF_CAPACITY <= q - price <= HALF_CAPACITY
    requires forall q, r :: q in st.levels && r in st.levels ==> -HALF_CAPACITY <= q - r <= HALF_CAPACITY
    ensures p in st.EnsureLevel(s, price).levels
  {
    var best := st.Best(s).value;
    assert best in st.levels;
  }
}
