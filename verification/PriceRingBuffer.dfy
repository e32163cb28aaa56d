/**
  One side of the book as an array of slots over a sliding window of consecutive prices, with the
  slot of the best non-empty level cached.
 */
module PriceRingBuffers {
  import opened Types
  import opened PriceLevels
  import opened PriceWindows

  datatype Slot = Slot(level: PriceLevel, price: Price, active: bool)

  function Prices(visited: seq<Slot>): seq<Price> {
    seq(|visited|, i requires 0 <= i < |visited| => visited[i].price)
  }

  lemma PricesAppend(visited: seq<Slot>, slot: Slot)
    ensures Prices(visited + [slot]) == Prices(visited) + [slot.price]
  {
  }

  method MakeLevels(n: nat) returns (levels: seq<PriceLevel>, ghost home: map<PriceLevel, nat>)
    ensures |levels| == n
    ensures forall i :: 0 <= i < n ==> fresh(levels[i]) && levels[i].Valid() && levels[i].model == EMPTY_LEVEL
    ensures forall i :: 0 <= i < n ==> levels[i] in home && home[levels[i]] == i
    ensures forall l :: l in home ==> fresh(l)
  {
    levels, home := [], map[];
    while |levels| < n
      invariant |levels| <= n
      invariant forall i :: 0 <= i < |levels| ==>
        fresh(levels[i]) && levels[i].Valid() && levels[i].model == EMPTY_LEVEL
      invariant forall i :: 0 <= i < |levels| ==> levels[i] in home && home[levels[i]] == i
      invariant forall l :: l in home ==> fresh(l)
      invariant forall l :: l in home ==> l in levels
    {
      hide PriceLevel.Valid;
      var level := new PriceLevel();
      home := home[level := |levels|];
      levels := levels + [level];
    }
  }

  /** Slot n of the new array: the level moved there once the old slots up to `seen` have been
      looked at, otherwise a spare one. */
  ghost function MovedSlot(was: seq<Slot>, spare: seq<PriceLevel>, base: Price, newBase: Price, n: nat, seen: nat): Slot
    requires n < CAPACITY && |was| == |spare| == CAPACITY && newBase <= MAX_BASE && seen <= CAPACITY
  {
    var j := newBase + n - base;
    if 0 <= j < seen && was[j].active then Slot(was[j].level, newBase + n, true)
    else Slot(spare[n], newBase + n, false)
  }

  ghost predicate Moved(newSlots: seq<Slot>, was: seq<Slot>, spare: seq<PriceLevel>, base: Price, newBase: Price,
      seen: nat)
  {
    && |newSlots| == |was| == |spare| == CAPACITY && newBase <= MAX_BASE && seen <= CAPACITY
    && (forall n {:trigger newSlots[n]} :: 0 <= n < CAPACITY ==>
          newSlots[n] == MovedSlot(was, spare, base, newBase, n, seen))
  }

  /** Every slot owns its level. */
  ghost predicate Housed(slots: seq<Slot>, home: map<PriceLevel, nat>) {
    forall n {:trigger slots[n]} :: 0 <= n < |slots| ==> slots[n].level in home && home[slots[n].level] == n
  }

  lemma NoneMoved(newSlots: seq<Slot>, was: seq<Slot>, spare: seq<PriceLevel>, base: Price, newBase: Price,
      home: map<PriceLevel, nat>)
    requires |newSlots| == |was| == |spare| == CAPACITY && newBase <= MAX_BASE
    requires forall n :: 0 <= n < CAPACITY ==> newSlots[n] == Slot(spare[n], newBase + n, false)
    requires forall n :: 0 <= n < CAPACITY ==> spare[n] in home && home[spare[n]] == n
    ensures Moved(newSlots, was, spare, base, newBase, 0) && Housed(newSlots, home)
  {
  }

  lemma MovedStep(newSlots: seq<Slot>, was: seq<Slot>, spare: seq<PriceLevel>, base: Price, newBase: Price, i: nat,
      home: map<PriceLevel, nat>)
    requires Moved(newSlots, was, spare, base, newBase, i) && i < CAPACITY
    requires was[i].price == base + i && Housed(newSlots, home)
    ensures !was[i].active || !InWindow(newBase, was[i].price) ==>
      Moved(newSlots, was, spare, base, newBase, i + 1)
    ensures was[i].active && InWindow(newBase, was[i].price) && was[i].level !in home ==>
      var n := was[i].price - newBase;
      var after := newSlots[n := Slot(was[i].level, was[i].price, true)];
      Moved(after, was, spare, base, newBase, i + 1) && Housed(after, home[was[i].level := n])
  {
  }

  class PriceRingBuffer {
    const side: Side
    const slots: array<Slot>
    var baseInitialized: bool
    var basePrice: Price
    var activeLevels: nat
    var bestSlot: Option<nat>
    var bestPrice: Price
    ghost var model: SideState
    ghost var home: map<PriceLevel, nat>  // the slot each level belongs to: no two slots share one

    /** Slot i owns its level and stands for its own price. */
    ghost predicate SlotShaped(i: nat)
      requires i < slots.Length
      reads this`home, this`baseInitialized, this`basePrice, slots
    {
      && slots[i].level in home && home[slots[i].level] == i
      && (if baseInitialized then slots[i].price == basePrice + i else !slots[i].active)
    }

    /** Slot i agrees with the abstract side. */
    ghost predicate SlotTied(i: nat)
      requires i < slots.Length
      reads this`model, slots, slots[i].level
    {
      && slots[i].level.Valid()
      && (slots[i].active ==>
            slots[i].price in model.levels && model.levels[slots[i].price] == slots[i].level.model)
    }

    /** An abstract level has its slot. */
    ghost predicate KeyTied(p: Price)
      reads this`baseInitialized, this`basePrice, slots
    {
      && slots.Length == CAPACITY
      && baseInitialized
      && basePrice <= p <= basePrice + SPAN
      && slots[p - basePrice].active
    }

    ghost predicate Shape()
      reads this`home, this`baseInitialized, this`basePrice, slots
    {
      && slots.Length == CAPACITY
      && (baseInitialized ==> basePrice <= MAX_BASE)
      && (forall i {:trigger SlotShaped(i)} :: 0 <= i < CAPACITY ==> SlotShaped(i))
    }

    ghost predicate KeysTied()
      reads this`model, this`activeLevels, this`baseInitialized, this`basePrice, slots
    {
      && model.base == (if baseInitialized then Some(basePrice) else None)
      && activeLevels == |model.levels|
      && (forall p {:trigger KeyTied(p)} :: p in model.levels ==> KeyTied(p))
    }

    ghost predicate Tied()
      reads this`home, this`model, this`activeLevels, this`baseInitialized, this`basePrice
      reads slots, home.Keys
    {
      && Shape()
      && (forall i {:trigger SlotTied(i)} :: 0 <= i < CAPACITY ==> SlotShaped(i) && SlotTied(i))
      && KeysTied()
    }

    /** A slot and its price are the best of the given prices. */
    ghost predicate Points(slot: Option<nat>, price: Price, prices: set<Price>)
      reads this`baseInitialized, this`basePrice
    {
      && (slot.None? ==> prices == {})
      && (slot.Some? ==>
            && baseInitialized
            && slot.value < CAPACITY
            && price == basePrice + slot.value
            && IsBest(side, prices, price))
    }

    /** The cached best is the best of the given prices. */
    ghost predicate CacheFor(prices: set<Price>)
      reads this`bestSlot, this`bestPrice, this`baseInitialized, this`basePrice
    {
      Points(bestSlot, bestPrice, prices)
    }

    /** The cached best is right except that the level of one price may have come or gone since. */
    ghost predicate CacheButFor(price: Price)
      reads this`bestSlot, this`bestPrice, this`baseInitialized, this`basePrice, this`model
    {
      || CacheFor(model.NonEmpty())
      || CacheFor(model.NonEmpty() - {price})
      || CacheFor(model.NonEmpty() + {price})
    }

    ghost predicate Valid()
      reads this, slots, home.Keys
    {
      Tied() && CacheFor(model.NonEmpty())
    }

    ghost function LevelAt(price: Price): PriceLevel
      requires KeyTied(price)
      reads this`baseInitialized, this`basePrice, slots
    {
      slots[price - basePrice].level
    }

    constructor (side: Side)
      ensures this.side == side
      ensures Valid() && fresh(slots) && model == NO_LEVELS
      ensures forall l :: l in home ==> fresh(l)
    {
      this.side := side;
      var levels, homes := MakeLevels(CAPACITY);
      home := homes;
      slots := new Slot[CAPACITY](i requires 0 <= i < |levels| => Slot(levels[i], 0, false));
      baseInitialized, basePrice, activeLevels, bestSlot, bestPrice := false, 0, 0, None, 0;
      model := NO_LEVELS;
      new;
      hide PriceLevel.Valid;
      forall i | 0 <= i < CAPACITY
        ensures SlotShaped(i) && SlotTied(i)
      {
        assert slots[i].level == levels[i];
      }
    }

    predicate PriceInWindow(price: Price)
      requires baseInitialized ==> basePrice <= MAX_BASE
      reads this
      ensures PriceInWindow(price) <==> baseInitialized && InWindow(basePrice, price)
    {
      baseInitialized &&
      var upperInclusive: Price := basePrice + SPAN;
      price >= basePrice && price <= upperInclusive
    }

    function SlotIndex(price: Price): (idx: nat)
      requires baseInitialized && InWindow(basePrice, price)
      reads this
      ensures idx == price - basePrice < CAPACITY
    {
      (price - basePrice) % CAPACITY
    }

    /** The slot of a price, active or not. */
    lemma PriceHasSlot(price: Price)
      requires Tied()
      ensures price in model.levels ==> KeyTied(price)
      ensures baseInitialized && InWindow(basePrice, price) ==>
        && slots.Length == CAPACITY
        && slots[price - basePrice].price == price
        && slots[price - basePrice].level in home
        && slots[price - basePrice].level.Valid()
        && (slots[price - basePrice].active <==> price in model.levels)
        && (price in model.levels ==> slots[price - basePrice].level.model == model.levels[price])
    {
      if baseInitialized && InWindow(basePrice, price) {
        assert SlotTied(price - basePrice) && SlotShaped(price - basePrice);
      }
      assert price in model.levels ==> KeyTied(price);
    }

    method FindLevel(price: Price) returns (level: PriceLevel?)
      requires Tied()
      ensures level == null <==> price !in model.levels
      ensures level != null ==> KeyTied(price) && level == LevelAt(price)
      ensures level != null ==> level in home && level.Valid() && level.model == model.levels[price]
    {
      PriceHasSlot(price);
      hide PriceLevel.Valid;
      if !PriceInWindow(price) {
        return null;
      }
      var slot := slots[SlotIndex(price)];
      if !slot.active || slot.price != price {
        return null;
      }
      return slot.level;
    }

    /** Slot idx holds a level with orders exactly when its price is a non-empty one. */
    lemma SlotNonEmpty(idx: nat)
      requires Tied() && idx < CAPACITY
      ensures slots.Length == CAPACITY
      ensures slots[idx].active ==> baseInitialized
      ensures baseInitialized ==> slots[idx].price == basePrice + idx
      ensures baseInitialized ==>
        (basePrice + idx in model.NonEmpty() <==> slots[idx].active && !slots[idx].level.Empty())
    {
      assert SlotTied(idx) && SlotShaped(idx);
      if baseInitialized {
        PriceHasSlot(basePrice + idx);
      }
    }

    /** No abstract level lies outside the slots. */
    lemma NonEmptyInWindow()
      requires Tied()
      ensures forall p :: p in model.NonEmpty() ==> baseInitialized && basePrice <= p < basePrice + CAPACITY
      ensures Below(model.NonEmpty(), basePrice) == {}
    {
      assert forall p :: p in model.NonEmpty() ==> KeyTied(p);
    }

    lemma TiedIsWindowed()
      requires Tied()
      ensures model.Windowed()
    {
      forall p | p in model.levels
        ensures baseInitialized && InWindow(basePrice, p)
      {
        assert KeyTied(p);
      }
    }

    /** A strictly better price for this side: higher for bids, lower for asks. */
    predicate Improves(price: Price, best: Price) {
      if side == BUY then price > best else price < best
    }

    /** What the cache has to become once the price p has been looked at. */
    lemma CandidateDecides(p: Price)
      requires CacheButFor(p) && basePrice <= p
      ensures p !in model.NonEmpty() ==> CacheFor(model.NonEmpty()) || bestSlot == Some(p - basePrice)
      ensures p !in model.NonEmpty() && CacheFor(model.NonEmpty()) && bestSlot.Some? ==> bestPrice != p
      ensures p in model.NonEmpty() && bestSlot.Some? ==>
        bestSlot.value < CAPACITY && bestPrice == basePrice + bestSlot.value
      ensures p in model.NonEmpty() && bestSlot.None? ==> IsBest(side, model.NonEmpty(), p)
      ensures p in model.NonEmpty() && bestSlot.Some? ==>
        IsBest(side, model.NonEmpty(), if Improves(p, bestPrice) then p else bestPrice)
    {
      hide SideState.NonEmpty;
      var prices := model.NonEmpty();
      if p in prices {
        assert prices + {p} == prices;
        if bestSlot.Some? {
          BestWithCandidate(side, prices, p, bestPrice);
        } else {
          BestAlone(side, prices, p);
        }
      } else {
        assert prices - {p} == prices;
      }
    }

    /** Looks at one slot.  A cached slot that has been emptied is forgotten, so that the next look
        at the best level searches for it. */
    method UpdateBestCandidate(slotIdx: nat)
      requires Tied() && baseInitialized && slotIdx < CAPACITY
      requires CacheButFor(basePrice + slotIdx)
      modifies this`bestSlot, this`bestPrice
      ensures Tied()
      ensures CacheFor(model.NonEmpty()) || bestSlot.None?
      ensures old(CacheFor(model.NonEmpty())) || basePrice + slotIdx in model.NonEmpty() ==> CacheFor(model.NonEmpty())
    {
      hide Tied, CacheButFor, IsBest, SideState.NonEmpty;
      SlotNonEmpty(slotIdx);
      CandidateDecides(basePrice + slotIdx);
      var slot := slots[slotIdx];
      if !slot.active || slot.level.Empty() {
        if bestSlot == Some(slotIdx) {
          bestSlot := None;
        }
        return;
      }
      if bestSlot == None || Improves(slot.price, bestPrice) {
        bestSlot, bestPrice := Some(slotIdx), slot.price;
      }
    }

    method MarkLevelNonEmpty(price: Price)
      requires Tied()
      requires CacheFor(model.NonEmpty()) || (price in model.NonEmpty() && CacheButFor(price))
      modifies this`bestSlot, this`bestPrice
      ensures Valid()
    {
      PriceHasSlot(price);
      CacheIsCacheButFor(price);
      hide Tied, CacheButFor, CacheFor, SideState.NonEmpty;
      assert price in model.NonEmpty() ==> price in model.levels by { NonEmptyIsActive(model, price); }
      if !PriceInWindow(price) {
        return;
      }
      UpdateBestCandidate(SlotIndex(price));
    }

    lemma CacheIsCacheButFor(price: Price)
      ensures CacheFor(model.NonEmpty()) ==> CacheButFor(price)
    {
    }

    /** One step of the scan for the best price. */
    lemma ScanDecides(p: int, prices: set<Price>, slot: Option<nat>, best: Price)
      requires Points(slot, best, Below(prices, p))
      ensures p !in prices ==> Below(prices, p + 1) == Below(prices, p)
      ensures p in prices && slot.None? ==> IsBest(side, Below(prices, p + 1), p)
      ensures p in prices && slot.Some? ==>
        IsBest(side, Below(prices, p + 1), if Improves(p, best) then p else best)
    {
      BelowStep(side, prices, p, if slot.Some? then Some(best) else None);
    }

    /** The scan of recomputeBestInternal over all slots. */
    method ScanBest() returns (slotFound: Option<nat>, priceFound: Price)
      requires Tied()
      ensures Points(slotFound, priceFound, model.NonEmpty())
    {
      NonEmptyInWindow();
      BelowAll(model.NonEmpty(), basePrice + CAPACITY);
      hide Tied, IsBest, Below, SideState.NonEmpty;
      slotFound, priceFound := None, if side == BUY then 0 else MAX_U64;
      var idx := 0;
      while idx < CAPACITY
        invariant 0 <= idx <= CAPACITY
        invariant Points(slotFound, priceFound, Below(model.NonEmpty(), basePrice + idx))
      {
        SlotNonEmpty(idx);
        ScanDecides(basePrice + idx, model.NonEmpty(), slotFound, priceFound);
        var slot := slots[idx];
        if slot.active && !slot.level.Empty() {
          if slotFound == None || Improves(slot.price, priceFound) {
            slotFound, priceFound := Some(idx), slot.price;
          }
        }
        idx := idx + 1;
      }
    }

    method RecomputeBestInternal()
      requires Tied()
      modifies this`bestSlot, this`bestPrice
      ensures Valid()
    {
      hide Tied, IsBest, SideState.NonEmpty;
      var slotFound, priceFound := ScanBest();
      bestSlot, bestPrice := slotFound, priceFound;
    }

    /** The cached slot, if any, has been emptied since it was cached. */
    predicate CacheDead()
      requires bestSlot.Some? ==> bestSlot.value < slots.Length
      reads this`bestSlot, slots, if bestSlot.Some? then {slots[bestSlot.value].level} else {}
    {
      bestSlot.None? || !slots[bestSlot.value].active || slots[bestSlot.value].level.Empty()
    }

    method EnsureBestSlot() returns (found: bool)
      requires Tied() && (bestSlot.Some? ==> bestSlot.value < CAPACITY)
      requires CacheFor(model.NonEmpty()) || CacheDead()
      modifies this`bestSlot, this`bestPrice
      ensures Valid()
      ensures found <==> model.NonEmpty() != {}
    {
      if bestSlot.None? {
        RecomputeBestInternal();
      }
      if bestSlot.None? {
        return false;
      }
      SlotNonEmpty(bestSlot.value);
      hide Tied, Shape, KeysTied, SlotTied, PriceLevel.Valid, SideState.NonEmpty;
      var slot := slots[bestSlot.value];
      if !slot.active || slot.level.Empty() {
        bestSlot := None;
        RecomputeBestInternal();
        return bestSlot.Some?;
      }
      bestPrice := slot.price;
      return true;
    }

    /** The best non-empty level and its price. */
    method BestLevel() returns (level: PriceLevel?, price: Price)
      requires Valid()
      modifies this`bestSlot, this`bestPrice
      ensures Valid()
      ensures level == null <==> model.NonEmpty() == {}
      ensures level != null ==> model.Best(side) == Some(price) && price in model.levels
      ensures level != null ==> KeyTied(price) && level == LevelAt(price)
      ensures level != null ==> level in home && level.Valid() && level.model == model.levels[price]
    {
      hide Tied, SideState.NonEmpty, PriceLevel.Valid;
      var found := EnsureBestSlot();
      if !found {
        return null, 0;
      }
      price := bestPrice;
      NonEmptyIsActive(model, price);
      PriceHasSlot(price);
      level := slots[bestSlot.value].level;
    }

    /** Everything but the level of one price. */
    ghost predicate TiedBut(price: Price)
      reads this, slots, home.Keys - (if KeyTied(price) then {LevelAt(price)} else {})
    {
      && Shape() && KeysTied() && price in model.levels && KeyTied(price)
      && LevelAt(price) in home
      && (forall i {:trigger SlotTied(i)} :: 0 <= i < CAPACITY && i != price - basePrice ==>
            SlotShaped(i) && slots[i].level != LevelAt(price) && SlotTied(i))
    }

    /** Before a level is changed through its own reference. */
    lemma Loosen(price: Price)
      requires Tied() && price in model.levels
      ensures TiedBut(price)
    {
      hide PriceLevel.Valid;
      assert KeyTied(price);
      var at := price - basePrice;
      assert SlotShaped(at);
      forall i | 0 <= i < CAPACITY && i != at
        ensures SlotShaped(i) && slots[i].level != LevelAt(price) && SlotTied(i)
      {
        assert SlotShaped(i);
      }
    }

    /** After a level was changed through its own reference: the abstract side follows, and the
        cached best is right unless the level has just become empty or non-empty. */
    ghost method LevelChanged(price: Price)
      requires TiedBut(price) && LevelAt(price).Valid() && CacheFor(model.NonEmpty())
      modifies this`model
      ensures Tied() && model == old(model).SetLevel(price, LevelAt(price).model)
      ensures CacheButFor(price)
      ensures (old(model.levels[price].queue) == [] <==> LevelAt(price).model.queue == []) ==> Valid()
    {
      hide PriceLevel.Valid, CacheFor;
      ghost var was := model;
      NonEmptyAfter(was, price, LevelAt(price).model);
      hide SideState.NonEmpty;
      model := was.SetLevel(price, LevelAt(price).model);
      assert model.levels.Keys == was.levels.Keys;
      forall i | 0 <= i < CAPACITY
        ensures SlotShaped(i) && SlotTied(i)
      {
        assert SlotShaped(i);
        if i != price - basePrice {
          assert old(SlotTied(i));
        }
      }
    }

    /** The part of eraseLevel that gives the slot back. */
    method ClearSlot(price: Price)
      requires Tied() && price in model.levels && KeyTied(price)
      modifies this`model, this`activeLevels, slots, LevelAt(price)
      ensures Tied() && model == old(model).EraseLevel(price)
    {
      hide PriceLevel.Valid;
      var idx := SlotIndex(price);
      var slot := slots[idx];
      PriceHasSlot(price);
      slot.level.Clear();
      slots[idx] := slot.(active := false);
      if activeLevels > 0 {
        activeLevels := activeLevels - 1;
      }
      model := model.EraseLevel(price);
      assert model.levels.Keys == old(model).levels.Keys - {price};
      forall i | 0 <= i < CAPACITY
        ensures SlotShaped(i) && SlotTied(i)
      {
        assert old(SlotTied(i)) && old(SlotShaped(i)) && old(SlotShaped(idx));
      }
      forall p | p in model.levels
        ensures KeyTied(p)
      {
        assert old(KeyTied(p));
      }
    }

    /** Erasing a level that is not the cached one leaves the cache right. */
    lemma ErasedBest(price: Price)
      requires CacheButFor(price) && basePrice <= price
      ensures bestSlot != Some(price - basePrice) ==> CacheFor(model.EraseLevel(price).NonEmpty())
    {
      assert model.EraseLevel(price).NonEmpty() == model.NonEmpty() - {price};
      hide SideState.NonEmpty, SideState.EraseLevel;
    }

    method EraseLevel(price: Price)
      requires Tied()
      requires CacheFor(model.NonEmpty()) || (price in model.levels && CacheButFor(price))
      modifies this`model, this`activeLevels, this`bestSlot, this`bestPrice, slots, home.Keys
      ensures Valid() && model == old(model).EraseLevel(price)
    {
      CacheIsCacheButFor(price);
      hide PriceLevel.Valid, Tied, CacheButFor, CacheFor, IsBest, SideState.NonEmpty, SideState.EraseLevel;
      var level := FindLevel(price);
      if level == null {
        EraseAbsent(model, price);
        return;
      }
      var idx := SlotIndex(price);
      ErasedBest(price);
      ClearSlot(price);
      if bestSlot == Some(idx) {
        bestSlot := None;
        RecomputeBestInternal();
      }
    }

    /** An array whose slots hold exactly the given levels, each in the slot of its price, is tied to them. */
    lemma FilledIsTied()
      requires slots.Length == CAPACITY && baseInitialized && basePrice <= MAX_BASE
      requires model.base == Some(basePrice) && activeLevels == |model.levels|
      requires forall n {:trigger slots[n]} :: 0 <= n < CAPACITY ==>
        && slots[n].price == basePrice + n && slots[n].level.Valid()
        && slots[n].level in home && home[slots[n].level] == n
        && (slots[n].active <==> basePrice + n in model.levels)
        && (slots[n].active ==> slots[n].level.model == model.levels[basePrice + n])
      requires forall p :: p in model.levels ==> basePrice <= p <= basePrice + SPAN
      ensures Tied()
    {
      hide PriceLevel.Valid;
      forall n | 0 <= n < CAPACITY
        ensures SlotShaped(n) && SlotTied(n)
      {
        assert slots[n] == slots[n];
      }
      forall p | p in model.levels
        ensures KeyTied(p)
      {
        assert slots[p - basePrice].active;
      }
    }

    method InitializeBase(price: Price)
      requires Tied() && !baseInitialized
      modifies this, slots, home.Keys
      ensures Valid() && home == old(home)
      ensures baseInitialized && model == SideState(map[], Some(InitialBase(price)))
    {
      hide PriceLevel.Valid, Tied;
      HomesTied();
      basePrice := if price > HALF_CAPACITY then price - HALF_CAPACITY else 0;
      basePrice := ClampBase(basePrice);
      baseInitialized := true;
      ResetSlots();
      activeLevels := 0;
      bestSlot := None;
      bestPrice := if side == BUY then 0 else MAX_U64;
      model := SideState(map[], Some(basePrice));
      FilledIsTied();
    }

    lemma HomesTied()
      requires Tied()
      ensures slots.Length == CAPACITY
      ensures forall j :: 0 <= j < CAPACITY ==>
        slots[j].level in home && home[slots[j].level] == j && slots[j].level.Valid()
    {
      hide PriceLevel.Valid;
      forall j | 0 <= j < CAPACITY
        ensures slots[j].level in home && home[slots[j].level] == j && slots[j].level.Valid()
      {
        assert SlotShaped(j) && SlotTied(j);
      }
    }

    /** Every slot gets the price of its place in the window and an empty level. */
    method ResetSlots()
      requires slots.Length == CAPACITY && basePrice <= MAX_BASE
      requires forall j :: 0 <= j < CAPACITY ==> slots[j].level in home
      modifies slots, home.Keys
      ensures forall j :: 0 <= j < CAPACITY ==> slots[j].level == old(slots[j].level) && slots[j].level.Valid()
      ensures forall j :: 0 <= j < CAPACITY ==> slots[j].price == basePrice + j && !slots[j].active
    {
      hide PriceLevel.Valid;
      var i := 0;
      while i < CAPACITY
        invariant 0 <= i <= CAPACITY
        invariant forall j :: 0 <= j < CAPACITY ==> slots[j].level == old(slots[j].level)
        invariant forall j :: 0 <= j < i ==> slots[j].price == basePrice + j && !slots[j].active
        invariant forall j :: 0 <= j < i ==> slots[j].level.Valid()
      {
        slots[i] := slots[i].(price := basePrice + i, active := false);
        slots[i].level.Clear();
        i := i + 1;
      }
    }

    /** Old slot j stands for its price; if its level stays, the level has not been touched. */
    ghost predicate Stays(was: seq<Slot>, newBase: Price, j: nat)
      requires j < |was|
      reads this`basePrice, this`home, this`model, was[j].level
    {
      && was[j].level in home && home[was[j].level] == j && was[j].price == basePrice + j
      && (was[j].active <==> was[j].price in model.levels)
      && (was[j].active && InWindow(newBase, was[j].price) ==>
            was[j].level.Valid() && model.levels[was[j].price] == was[j].level.model)
    }

    ghost function Kept(newBase: Price, seen: nat): set<Price>
      reads this`basePrice, this`model
    {
      set p | p in model.levels && InWindow(newBase, p) && p < basePrice + seen
    }

    lemma KeptStep(newBase: Price, seen: nat)
      ensures var p := basePrice + seen;
        |Kept(newBase, seen + 1)| == |Kept(newBase, seen)| +
          if p in model.levels && newBase <= p <= newBase + SPAN then 1 else 0
    {
      var p := basePrice + seen;
      if p in model.levels && newBase <= p <= newBase + SPAN {
        assert Kept(newBase, seen + 1) == Kept(newBase, seen) + {p};
      } else {
        assert Kept(newBase, seen + 1) == Kept(newBase, seen);
      }
    }

    /** Before a move every level is where its slot says. */
    lemma AllStay(newBase: Price)
      requires Tied() && baseInitialized
      ensures forall j {:trigger Stays(slots[..], newBase, j)} :: 0 <= j < CAPACITY ==> Stays(slots[..], newBase, j)
      ensures Kept(newBase, 0) == {}
      ensures Kept(newBase, CAPACITY) == set p | p in model.levels && InWindow(newBase, p)
    {
      forall j | 0 <= j < CAPACITY
        ensures Stays(slots[..], newBase, j)
      {
        assert SlotShaped(j) && SlotTied(j);
        PriceHasSlot(basePrice + j);
      }
      TiedIsWindowed();
    }

    /** The levels inside the new window move to new slots; the others are cleared. */
    method MoveLevels(newBase: Price)
      returns (newSlots: seq<Slot>, newActiveCount: nat, ghost was: seq<Slot>, ghost spare: seq<PriceLevel>,
        ghost newHome: map<PriceLevel, nat>)
      requires Tied() && baseInitialized && newBase <= MAX_BASE
      modifies slots, home.Keys
      ensures was == old(slots[..]) && |was| == |spare| == CAPACITY
      ensures Moved(newSlots, was, spare, basePrice, newBase, CAPACITY)
      ensures Housed(newSlots, newHome)
      ensures forall l :: l in newHome ==> l in home || fresh(l)
      ensures forall j {:trigger Stays(was, newBase, j)} :: 0 <= j < CAPACITY ==> Stays(was, newBase, j)
      ensures forall n :: 0 <= n < CAPACITY ==> spare[n].Valid()
      ensures newActiveCount == |set p | p in model.levels && InWindow(newBase, p)|
    {
      hide Tied, Kept, PriceLevel.Valid, Moved, Housed;
      AllStay(newBase);
      BaseTied();
      var levels, spareHome := MakeLevels(CAPACITY);
      spare := levels;
      newSlots := seq(CAPACITY, n requires 0 <= n < |levels| => Slot(levels[n], newBase + n, false));
      newHome := spareHome;
      newActiveCount := 0;
      was := slots[..];
      NoneMoved(newSlots, was, spare, basePrice, newBase, newHome);
      var i := 0;
      while i < CAPACITY
        invariant 0 <= i <= CAPACITY
        invariant forall j :: i <= j < CAPACITY ==> slots[j] == was[j]
        invariant forall j {:trigger Stays(was, newBase, j)} :: 0 <= j < CAPACITY ==> Stays(was, newBase, j)
        invariant forall n :: 0 <= n < CAPACITY ==> spare[n].Valid()
        invariant |newSlots| == CAPACITY && Moved(newSlots, was, spare, basePrice, newBase, i)
        invariant Housed(newSlots, newHome)
        invariant forall l :: l in newHome ==> fresh(l) || (l in home && home[l] < i)
        invariant newActiveCount == |Kept(newBase, i)|
      {
        var slot := slots[i];
        assert Stays(was, newBase, i);
        KeptStep(newBase, i);
        MovedStep(newSlots, was, spare, basePrice, newBase, i, newHome);
        i := i + 1;
        if !slot.active {
          continue;
        }
        if slot.price < newBase || slot.price > newBase + SPAN {
          DropLevel(i - 1, newBase, was);
          continue;
        }
        var newIdx := slot.price - newBase;
        newSlots := newSlots[newIdx := Slot(slot.level, slot.price, true)];
        newHome := newHome[slot.level := newIdx];
        newActiveCount := newActiveCount + 1;
      }
    }

    /** A level outside the new window is cleared and its slot given up. */
    method DropLevel(i: nat, newBase: Price, ghost was: seq<Slot>)
      requires i < |was| == slots.Length == CAPACITY && slots[i] == was[i]
      requires was[i].active && !InWindow(newBase, was[i].price)
      requires forall j {:trigger Stays(was, newBase, j)} :: 0 <= j < CAPACITY ==> Stays(was, newBase, j)
      modifies slots, was[i].level
      ensures forall j :: 0 <= j < CAPACITY && j != i ==> slots[j] == old(slots[j])
      ensures forall j {:trigger Stays(was, newBase, j)} :: 0 <= j < CAPACITY ==> Stays(was, newBase, j)
    {
      hide PriceLevel.Valid;
      slots[i].level.Clear();
      slots[i] := slots[i].(active := false);
      forall j | 0 <= j < CAPACITY
        ensures Stays(was, newBase, j)
      {
        assert old(Stays(was, newBase, j)) && old(Stays(was, newBase, i));
      }
    }

    /** What the moved slots hold: the levels inside the new window, each in the slot of its price. */
    lemma MovedMeaning(newSlots: seq<Slot>, newBase: Price, was: seq<Slot>, spare: seq<PriceLevel>,
        kept: map<Price, LevelState>)
      requires Moved(newSlots, was, spare, basePrice, newBase, CAPACITY)
      requires forall j {:trigger Stays(was, newBase, j)} :: 0 <= j < CAPACITY ==> Stays(was, newBase, j)
      requires forall n :: 0 <= n < CAPACITY ==> spare[n].Valid()
      requires forall p :: p in model.levels ==> InWindow(basePrice, p)
      requires kept == map p | p in model.levels && InWindow(newBase, p) :: model.levels[p]
      ensures |newSlots| == CAPACITY
      ensures forall n {:trigger newSlots[n]} :: 0 <= n < CAPACITY ==>
        && newSlots[n].price == newBase + n && newSlots[n].level.Valid()
        && (newSlots[n].active <==> newBase + n in kept)
        && (newSlots[n].active ==> newSlots[n].level.model == kept[newBase + n])
      ensures forall p :: p in kept ==> newBase <= p <= newBase + SPAN
    {
      hide PriceLevel.Valid;
      forall n | 0 <= n < CAPACITY
        ensures newSlots[n].price == newBase + n && newSlots[n].level.Valid()
        ensures newSlots[n].active <==> newBase + n in kept
        ensures newSlots[n].active ==> newSlots[n].level.model == kept[newBase + n]
      {
        var j := newBase + n - basePrice;
        assert newSlots[n] == MovedSlot(was, spare, basePrice, newBase, n, CAPACITY);
        if 0 <= j < CAPACITY {
          assert Stays(was, newBase, j);
        }
      }
    }

    method CopySlots(newSlots: seq<Slot>)
      requires |newSlots| == slots.Length
      modifies slots
      ensures forall n :: 0 <= n < slots.Length ==> slots[n] == newSlots[n]
    {
      forall i | 0 <= i < slots.Length {
        slots[i] := newSlots[i];
      }
    }

    /** The moved slots take the place of the old ones. */
    method InstallSlots(newSlots: seq<Slot>, newBase: Price, newActiveCount: nat,
        ghost was: seq<Slot>, ghost spare: seq<PriceLevel>, ghost newHome: map<PriceLevel, nat>)
      requires slots.Length == CAPACITY && baseInitialized && newBase <= MAX_BASE
      requires Moved(newSlots, was, spare, basePrice, newBase, CAPACITY) && Housed(newSlots, newHome)
      requires forall j {:trigger Stays(was, newBase, j)} :: 0 <= j < CAPACITY ==> Stays(was, newBase, j)
      requires forall n :: 0 <= n < CAPACITY ==> spare[n].Valid()
      requires newActiveCount == |set p | p in model.levels && InWindow(newBase, p)|
      requires forall p :: p in model.levels ==> InWindow(basePrice, p)
      modifies this, slots
      ensures Tied() && home == newHome && baseInitialized
      ensures model ==
        SideState(map p | p in old(model).levels && InWindow(newBase, p) :: old(model).levels[p], Some(newBase))
    {
      hide PriceLevel.Valid, Tied, Moved, InWindow;
      ghost var levels := model.levels;
      ghost var kept := map p | p in levels && InWindow(newBase, p) :: levels[p];
      assert kept.Keys == set p | p in levels && InWindow(newBase, p);
      MovedMeaning(newSlots, newBase, was, spare, kept);
      CopySlots(newSlots);
      basePrice := newBase;
      activeLevels := newActiveCount;
      bestSlot := None;
      bestPrice := if side == BUY then 0 else MAX_U64;
      model := SideState(kept, Some(newBase));
      home := newHome;
      FilledIsTied();
    }

    lemma CachedIsBest()
      requires CacheFor(model.NonEmpty())
      ensures model.Best(side) == if bestSlot.Some? then Some(bestPrice) else None
    {
      if bestSlot.Some? {
        BestIsUnique(side, model.NonEmpty(), bestPrice);
      }
    }

    method RebalanceWindow(focusPrice: Price)
      requires Valid()
      modifies this, slots, home.Keys
      ensures Valid() && baseInitialized && model == old(model).Rebalance(side, focusPrice)
      ensures var best := old(model).Best(side); forall p :: p in model.levels <==>
        p in old(model).levels && if best.Some? then MovedCovers(best.value, focusPrice, p) else Around(focusPrice, p)
      ensures forall l :: l in home ==> l in old(home) || fresh(l)
    {
      hide PriceLevel.Valid, Moved, Housed, RebalancedBase, MovedCovers, Around;
      TiedIsWindowed();
      RebalancedWindow(side, model, focusPrice);
      if !baseInitialized {
        assert model.levels == map[] && model.base == None;
        InitializeBase(focusPrice);
        return;
      }
      hide Tied;
      var found := EnsureBestSlot();
      CachedIsBest();
      var newBase := RebalancedBase(if bestSlot.Some? then Some(bestPrice) else None, focusPrice);
      RebalanceTakesInFocus(model.Best(side), focusPrice);
      BaseTied();
      if newBase == basePrice {
        WindowUnmoved(model, side, focusPrice);
      }
      hide SideState.Best, IsBest, SideState.NonEmpty;
      if newBase == basePrice && PriceInWindow(focusPrice) {
        return;
      }
      var newSlots, newActiveCount, was, spare, newHome := MoveLevels(newBase);
      InstallSlots(newSlots, newBase, newActiveCount, was, spare, newHome);
      RecomputeBestInternal();
    }

    lemma BaseTied()
      requires Tied()
      ensures slots.Length == CAPACITY && model.base == (if baseInitialized then Some(basePrice) else None)
      ensures baseInitialized ==> basePrice <= MAX_BASE
    {
    }

    /** The first part of ensureLevel: the window takes in the price. */
    method FocusWindow(price: Price)
      requires Valid()
      modifies this, slots, home.Keys
      ensures Valid() && model == old(model).Focus(side, price)
      ensures baseInitialized && InWindow(basePrice, price)
      ensures forall l :: l in home ==> l in old(home) || fresh(l)
    {
      BaseTied();
      TiedIsWindowed();
      FocusOfNothing(model, side, price);
      RebalanceTakesInFocus(model.Best(side), price);
      hide Tied, CacheFor, SideState.Best, RebalancedBase;
      if !baseInitialized {
        InitializeBase(price);
        BaseTied();
        assert InWindow(basePrice, price);
        return;
      }
      if !PriceInWindow(price) {
        RebalanceWindow(price);
        BaseTied();
      }
    }

    /** The part of ensureLevel that puts an idle slot to use. */
    method ActivateSlot(price: Price)
      requires Tied() && baseInitialized && InWindow(basePrice, price) && price !in model.levels
      modifies this`model, this`activeLevels, slots, home.Keys
      ensures Tied() && model == old(model).SetLevel(price, EMPTY_LEVEL)
    {
      hide PriceLevel.Valid;
      PriceHasSlot(price);
      var idx := SlotIndex(price);
      var slot := slots[idx];
      slots[idx] := slot.(active := true, price := price);
      slot.level.Clear();
      activeLevels := activeLevels + 1;
      model := model.SetLevel(price, EMPTY_LEVEL);
      assert model.levels.Keys == old(model).levels.Keys + {price};
      forall i | 0 <= i < CAPACITY
        ensures SlotShaped(i) && SlotTied(i)
      {
        assert old(SlotTied(i)) && old(SlotShaped(i)) && old(SlotShaped(idx));
      }
      forall p | p in model.levels
        ensures KeyTied(p)
      {
        assert p != price ==> old(KeyTied(p));
      }
    }

    /** The level of a price, made if need be.  The source's two null returns cannot happen: the
        window has just taken in the price, and a slot always stands for its own price. */
    method EnsureLevel(price: Price) returns (level: PriceLevel)
      requires Valid()
      modifies this, slots, home.Keys
      ensures Valid() && model == old(model).EnsureLevel(side, price)
      ensures forall p :: p in model.levels <==>
        p == price || (p in old(model).levels && CoversAfter(old(model).base, old(model).Best(side), price, p))
      ensures price in model.levels && KeyTied(price) && level == LevelAt(price)
      ensures level in home && level.Valid() && level.model == model.levels[price]
      ensures forall l :: l in home ==> l in old(home) || fresh(l)
    {
      hide Tied, CacheFor, CacheButFor, SideState.NonEmpty, SideState.Focus, PriceLevel.Valid, CoversAfter;
      TiedIsWindowed();
      NewWindow(side, model, price);
      FocusWindow(price);
      BaseTied();
      PriceHasSlot(price);
      NonEmptyWithEmpty(model, price);
      assert PriceInWindow(price) && slots[SlotIndex(price)].price == price;
      var idx := SlotIndex(price);
      if !slots[idx].active {
        ActivateSlot(price);
      }
      CacheIsCacheButFor(price);
      UpdateBestCandidate(idx);
      PriceHasSlot(price);
      level := slots[idx].level;
    }

    /** A slot shows a level of this side as it is. */
    ghost predicate Shows(slot: Slot)
      reads this`model, slot.level
    {
      slot.price in model.levels && slot.level.Valid() && slot.level.model == model.levels[slot.price]
    }

    /** What a visit to slot idx finds. */
    lemma SlotVisit(idx: nat)
      requires Tied() && idx < CAPACITY
      ensures slots.Length == CAPACITY
      ensures slots[idx].active && !slots[idx].level.Empty() ==>
        slots[idx].price == basePrice + idx && slots[idx].price in model.NonEmpty() && Shows(slots[idx])
      ensures !(slots[idx].active && !slots[idx].level.Empty()) ==> basePrice + idx !in model.NonEmpty()
    {
      hide PriceLevel.Valid;
      SlotNonEmpty(idx);
      NonEmptyInWindow();
      if baseInitialized {
        PriceHasSlot(basePrice + idx);
      }
    }

    /** Where the scan starts nothing has been seen, and where it ends everything has. */
    lemma ScanBounds()
      requires Tied()
      ensures Prices([]) == Ascending(Below(model.NonEmpty(), basePrice))
      ensures Ascending(Below(model.NonEmpty(), basePrice + CAPACITY)) == Ascending(model.NonEmpty())
    {
      hide Tied;
      NonEmptyInWindow();
      BelowAll(model.NonEmpty(), basePrice + CAPACITY);
      assert Below(model.NonEmpty(), basePrice) == {};
    }

    /** What a shown slot says about its level. */
    lemma Shown(slot: Slot)
      requires Shows(slot)
      ensures slot.price in model.levels && slot.level.openQty == model.levels[slot.price].openQty
    {
    }

    /** The non-empty slots from first to last; the source calls its function on each in turn. */
    method ForEachAscending() returns (visited: seq<Slot>)
      requires Tied()
      ensures Prices(visited) == Ascending(model.NonEmpty())
      ensures forall i {:trigger visited[i]} :: 0 <= i < |visited| ==>
        visited[i].price in model.levels && visited[i].level.openQty == model.levels[visited[i].price].openQty
    {
      hide Tied, Shows, SideState.NonEmpty, Below, Ascending, Prices, PriceLevel.Valid;
      ScanBounds();
      visited := [];
      var idx := 0;
      while idx < CAPACITY
        invariant 0 <= idx <= CAPACITY
        invariant Prices(visited) == Ascending(Below(model.NonEmpty(), basePrice + idx))
        invariant forall i :: 0 <= i < |visited| ==> Shows(visited[i])
      {
        AscendingStep(model.NonEmpty(), basePrice + idx);
        SlotVisit(idx);
        var slot := slots[idx];
        idx := idx + 1;
        if slot.active && !slot.level.Empty() {
          PricesAppend(visited, slot);
          visited := visited + [slot];
        }
      }
      forall i | 0 <= i < |visited|
        ensures visited[i].price in model.levels && visited[i].level.openQty == model.levels[visited[i].price].openQty
      {
        assert Shows(visited[i]);
        Shown(visited[i]);
      }
    }
  }
}
