/**
  One price level: a first-in-first-out queue of order ids kept as a doubly linked list inside a
  vector of nodes, with the unused nodes chained into a free list.

  A slot number of the source's kInvalidSlot is modelled as None.
 */
module PriceLevels {
  import opened Types
  import opened OrderArenas

  datatype Entry = Entry(id: OrderId, slot: nat)

  /**
    What a level means: the queue with the slot handle of each order, the slots that were used and
    given back (most recent first), the number of slots used so far, and the running depth.
    The slots from `high` on are handed out in order, whether or not the vector already has them.
   */
  datatype LevelState = LevelState(queue: seq<Entry>, recycled: seq<nat>, high: nat, openQty: Qty)
  {
    ghost predicate WellFormed() {
      && (forall i :: 0 <= i < |queue| ==> queue[i].id != INVALID_ORDER && queue[i].slot < high)
      && (forall i :: 0 <= i < |recycled| ==> recycled[i] < high)
      && (forall i, j :: 0 <= i < j < |queue| ==> queue[i].slot != queue[j].slot)
      && (forall i, j :: 0 <= i < j < |recycled| ==> recycled[i] != recycled[j])
      && (forall i, j :: 0 <= i < |queue| && 0 <= j < |recycled| ==> queue[i].slot != recycled[j])
      && (forall s :: 0 <= s < high ==> s in recycled || InUse(s))
    }

    predicate InUse(s: nat) {
      exists i :: 0 <= i < |queue| && queue[i].slot == s
    }

    function NextSlot(): nat {
      if recycled != [] then recycled[0] else high
    }

    function Add(id: OrderId, pending: Qty): LevelState {
      LevelState(
        queue + [Entry(id, NextSlot())],
        if recycled != [] then recycled[1..] else [],
        if recycled != [] then high else high + 1,
        WrapAdd(openQty, pending))
    }

    function Remove(e: Entry, pending: Qty): LevelState {
      LevelState(Without(queue, e), [e.slot] + recycled, high, SaturatingSub(openQty, pending))
    }
  }

  const EMPTY_LEVEL := LevelState([], [], 0, 0)

  /** The queue with the first occurrence of e taken out. */
  function Without(q: seq<Entry>, e: Entry): seq<Entry> {
    if q == [] then []
    else if q[0] == e then q[1..]
    else [q[0]] + Without(q[1..], e)
  }

  lemma {:induction false} WithoutIsCut(q: seq<Entry>, e: Entry, k: nat)
    requires k < |q| && q[k] == e
    requires forall i :: 0 <= i < k ==> q[i] != e
    ensures Without(q, e) == q[..k] + q[k + 1..]
  {
    if k > 0 {
      WithoutIsCut(q[1..], e, k - 1);
      assert q[..k] == [q[0]] + q[1..][..k - 1];
    }
  }

  /** Adding and removing keep handles distinct and account for every slot. */
  lemma AddKeepsWellFormed(l: LevelState, id: OrderId, pending: Qty)
    requires l.WellFormed() && id != INVALID_ORDER
    ensures l.Add(id, pending).WellFormed()
  {
    var after := l.Add(id, pending);
    forall s | 0 <= s < after.high
      ensures s in after.recycled || after.InUse(s)
    {
      if s == l.NextSlot() {
        assert after.queue[|l.queue|].slot == s;
      } else if l.InUse(s) {
        var i :| 0 <= i < |l.queue| && l.queue[i].slot == s;
        assert after.queue[i].slot == s;
      }
    }
  }

  lemma RemoveKeepsWellFormed(l: LevelState, k: nat, pending: Qty)
    requires l.WellFormed() && k < |l.queue|
    ensures l.Remove(l.queue[k], pending).queue == l.queue[..k] + l.queue[k + 1..]
    ensures l.Remove(l.queue[k], pending).WellFormed()
  {
    WithoutIsCut(l.queue, l.queue[k], k);
    CutKeepsWellFormed(l, k, l.Remove(l.queue[k], pending));
  }

  lemma CutKeepsWellFormed(l: LevelState, k: nat, after: LevelState)
    requires l.WellFormed() && k < |l.queue|
    requires after.queue == l.queue[..k] + l.queue[k + 1..]
    requires after.recycled == [l.queue[k].slot] + l.recycled && after.high == l.high
    ensures after.WellFormed()
  {
    assert forall i :: 0 <= i < |after.queue| ==> after.queue[i] == l.queue[if i < k then i else i + 1];
    assert forall i :: 0 < i < |after.recycled| ==> after.recycled[i] == l.recycled[i - 1];
    forall s | 0 <= s < after.high
      ensures s in after.recycled || after.InUse(s)
    {
      if s == l.queue[k].slot {
        assert after.recycled[0] == s;
      } else if s in l.recycled {
        assert s in after.recycled;
      } else {
        var i :| 0 <= i < |l.queue| && l.queue[i].slot == s;
        assert after.queue[if i < k then i else i - 1].slot == s;
      }
    }
  }

  datatype Node = Node(order: OrderId, next: Option<nat>, prev: Option<nat>)

  /** The slots from lo up to hi. */
  function Range(lo: nat, hi: nat): (s: seq<nat>)
    requires lo <= hi
    ensures |s| == hi - lo
  {
    seq(hi - lo, i => lo + i)
  }

  function SlotAt(s: seq<nat>, i: int): Option<nat> {
    if 0 <= i < |s| then Some(s[i]) else None
  }

  function EntryAt(q: seq<Entry>, i: int): Option<nat> {
    if 0 <= i < |q| then Some(q[i].slot) else None
  }

  /** Node of the i-th queued order: its id and its two neighbours. */
  ghost predicate Linked(nodes: seq<Node>, q: seq<Entry>, i: nat)
    requires i < |q|
  {
    q[i].slot < |nodes| && nodes[q[i].slot] == Node(q[i].id, EntryAt(q, i + 1), EntryAt(q, i - 1))
  }

  /** The queued nodes form one doubly linked chain in queue order. */
  ghost predicate LiveChain(nodes: seq<Node>, q: seq<Entry>) {
    forall i {:trigger Linked(nodes, q, i)} :: 0 <= i < |q| ==> Linked(nodes, q, i)
  }

  /** The i-th unused node: blank but for the link to the next one. */
  ghost predicate Spare(nodes: seq<Node>, free: seq<nat>, i: nat)
    requires i < |free|
  {
    free[i] < |nodes| && nodes[free[i]] == Node(INVALID_ORDER, SlotAt(free, i + 1), None)
  }

  /** The unused nodes form one singly linked chain. */
  ghost predicate FreeChain(nodes: seq<Node>, free: seq<nat>) {
    forall i {:trigger Spare(nodes, free, i)} :: 0 <= i < |free| ==> Spare(nodes, free, i)
  }

  function SetNext(nodes: seq<Node>, at: Option<nat>, next: Option<nat>): (r: seq<Node>)
    ensures |r| == |nodes|
  {
    if at.Some? && at.value < |nodes| then nodes[at.value := nodes[at.value].(next := next)] else nodes
  }

  function SetPrev(nodes: seq<Node>, at: Option<nat>, prev: Option<nat>): (r: seq<Node>)
    ensures |r| == |nodes|
  {
    if at.Some? && at.value < |nodes| then nodes[at.value := nodes[at.value].(prev := prev)] else nodes
  }

  /** No slot is queued twice, and no queued slot is free. */
  ghost predicate Apart(q: seq<Entry>, free: seq<nat>) {
    && (forall i, j :: 0 <= i < j < |q| ==> q[i].slot != q[j].slot)
    && (forall i, j :: 0 <= i < j < |free| ==> free[i] != free[j])
    && (forall i, j :: 0 <= i < |q| && 0 <= j < |free| ==> q[i].slot != free[j])
  }

  /** Bypassing node k leaves a chain of the others. */
  lemma UnlinkKeepsChains(nodes: seq<Node>, q: seq<Entry>, free: seq<nat>, k: nat)
    requires LiveChain(nodes, q) && FreeChain(nodes, free) && Apart(q, free) && k < |q|
    ensures var n := SetNext(nodes, EntryAt(q, k - 1), EntryAt(q, k + 1));
      var r := SetPrev(n, EntryAt(q, k + 1), EntryAt(q, k - 1));
      LiveChain(r, q[..k] + q[k + 1..]) && FreeChain(r, free)
  {
    var n := SetNext(nodes, EntryAt(q, k - 1), EntryAt(q, k + 1));
    var r := SetPrev(n, EntryAt(q, k + 1), EntryAt(q, k - 1));
    var p := q[..k] + q[k + 1..];
    forall i | 0 <= i < |p|
      ensures Linked(r, p, i)
    {
      assert Linked(nodes, q, if i < k then i else i + 1);
    }
    forall i | 0 <= i < |free|
      ensures Spare(r, free, i)
    {
      assert Spare(nodes, free, i);
    }
  }

  /** Linking a blank node behind the last one extends the chain. */
  lemma AppendKeepsChains(nodes: seq<Node>, q: seq<Entry>, free: seq<nat>, e: Entry)
    requires LiveChain(nodes, q) && FreeChain(nodes, free) && Apart(q + [e], free)
    requires e.slot < |nodes|
    ensures var n := nodes[e.slot := Node(e.id, None, EntryAt(q, |q| - 1))];
      var r := SetNext(n, EntryAt(q, |q| - 1), Some(e.slot));
      LiveChain(r, q + [e]) && FreeChain(r, free)
  {
    var n := nodes[e.slot := Node(e.id, None, EntryAt(q, |q| - 1))];
    var r := SetNext(n, EntryAt(q, |q| - 1), Some(e.slot));
    var p := q + [e];
    assert p[|q|] == e;
    if q != [] {
      assert Linked(nodes, q, |q| - 1);
      assert p[|q| - 1] == q[|q| - 1] && p[|q| - 1].slot != p[|q|].slot;
    }
    forall i | 0 <= i < |p|
      ensures Linked(r, p, i)
    {
      if i < |q| {
        assert Linked(nodes, q, i);
        assert p[i] == q[i] && p[i].slot != p[|q|].slot;
        assert i < |q| - 1 ==> p[i].slot != p[|q| - 1].slot && p[i + 1] == q[i + 1];
        assert i > 0 ==> p[i - 1] == q[i - 1];
      }
    }
    forall i | 0 <= i < |free|
      ensures Spare(r, free, i)
    {
      assert Spare(nodes, free, i);
      assert p[|q|].slot != free[i];
      assert q != [] ==> p[|q| - 1].slot != free[i];
    }
  }

  /** Blanking a node outside both chains and putting it in front of the free chain. */
  lemma ReleaseKeepsChains(nodes: seq<Node>, q: seq<Entry>, free: seq<nat>, s: nat)
    requires LiveChain(nodes, q) && FreeChain(nodes, free) && Apart(q, [s] + free) && s < |nodes|
    ensures var r := nodes[s := Node(INVALID_ORDER, SlotAt(free, 0), None)];
      LiveChain(r, q) && FreeChain(r, [s] + free)
  {
    var r := nodes[s := Node(INVALID_ORDER, SlotAt(free, 0), None)];
    var f := [s] + free;
    forall i | 0 <= i < |q|
      ensures Linked(r, q, i)
    {
      assert Linked(nodes, q, i);
      assert q[i].slot != f[0];
    }
    forall i | 0 <= i < |f|
      ensures Spare(r, f, i)
    {
      if i > 0 {
        assert Spare(nodes, free, i - 1);
        assert f[0] != f[i];
      }
    }
  }

  /** Taking the first spare node off the free chain, or growing the vector when there is none. */
  lemma AllocateKeepsChains(nodes: seq<Node>, q: seq<Entry>, free: seq<nat>, s: nat)
    requires LiveChain(nodes, q) && FreeChain(nodes, free) && Apart(q, free) && free != [] && s == free[0]
    ensures s < |nodes| && nodes[s].next == SlotAt(free[1..], 0)
    ensures var r := nodes[s := Node(INVALID_ORDER, None, None)];
      LiveChain(r, q) && FreeChain(r, free[1..])
  {
    assert Spare(nodes, free, 0);
    var r := nodes[s := Node(INVALID_ORDER, None, None)];
    forall i | 0 <= i < |q|
      ensures Linked(r, q, i)
    {
      assert Linked(nodes, q, i);
    }
    forall i | 0 <= i < |free[1..]|
      ensures Spare(r, free[1..], i)
    {
      assert Spare(nodes, free, i + 1);
    }
  }

  lemma GrowKeepsChains(nodes: seq<Node>, q: seq<Entry>, free: seq<nat>)
    requires LiveChain(nodes, q) && FreeChain(nodes, free)
    ensures LiveChain(nodes + [Node(INVALID_ORDER, None, None)], q)
    ensures FreeChain(nodes + [Node(INVALID_ORDER, None, None)], free)
  {
    var r := nodes + [Node(INVALID_ORDER, None, None)];
    forall i | 0 <= i < |q|
      ensures Linked(r, q, i)
    {
      assert Linked(nodes, q, i);
    }
    forall i | 0 <= i < |free|
      ensures Spare(r, free, i)
    {
      assert Spare(nodes, free, i);
    }
  }

  /** Every slot of a level once more: the recycled ones, then the ones never used. */
  function FreeSlots(l: LevelState, size: nat): seq<nat>
    requires l.high <= size
  {
    l.recycled + Range(l.high, size)
  }

  /** The vector and its three entry points hold exactly the level l. */
  ghost predicate Holds(nodes: seq<Node>, head: Option<nat>, tail: Option<nat>, free: Option<nat>, l: LevelState) {
    && l.WellFormed()
    && l.high <= |nodes|
    && LiveChain(nodes, l.queue)
    && FreeChain(nodes, FreeSlots(l, |nodes|))
    && head == EntryAt(l.queue, 0)
    && tail == EntryAt(l.queue, |l.queue| - 1)
    && free == SlotAt(FreeSlots(l, |nodes|), 0)
  }

  lemma WellFormedApart(l: LevelState, size: nat)
    requires l.WellFormed() && l.high <= size
    ensures Apart(l.queue, FreeSlots(l, size))
  {
  }

  lemma SpareIsBlank(nodes: seq<Node>, free: seq<nat>, i: nat)
    requires FreeChain(nodes, free) && i < |free|
    ensures free[i] < |nodes| && nodes[free[i]].order == INVALID_ORDER
  {
    assert Spare(nodes, free, i);
  }

  lemma EmptyHolds(nodes: seq<Node>)
    requires FreeChain(nodes, Range(0, |nodes|))
    ensures Holds(nodes, None, None, SlotAt(Range(0, |nodes|), 0), EMPTY_LEVEL)
  {
    assert FreeSlots(EMPTY_LEVEL, |nodes|) == Range(0, |nodes|);
  }

  lemma HoldsIgnoresDepth(nodes: seq<Node>, head: Option<nat>, tail: Option<nat>, free: Option<nat>, l: LevelState,
      qty: Qty)
    requires Holds(nodes, head, tail, free, l)
    ensures Holds(nodes, head, tail, free, l.(openQty := qty))
  {
    hide LiveChain, FreeChain, FreeSlots;
    assert FreeSlots(l, |nodes|) == FreeSlots(l.(openQty := qty), |nodes|) by {
      FreeSlotsIgnoresDepth(l, |nodes|, qty);
    }
  }

  lemma FreeSlotsIgnoresDepth(l: LevelState, size: nat, qty: Qty)
    requires l.high <= size
    ensures FreeSlots(l, size) == FreeSlots(l.(openQty := qty), size)
  {
  }

  /** A node that carries an order is the node of a queued order. */
  lemma LiveIndex(nodes: seq<Node>, l: LevelState, s: nat) returns (k: nat)
    requires l.WellFormed() && l.high <= |nodes| && LiveChain(nodes, l.queue)
    requires FreeChain(nodes, FreeSlots(l, |nodes|))
    requires s < |nodes| && nodes[s].order != INVALID_ORDER
    ensures k < |l.queue| && l.queue[k] == Entry(nodes[s].order, s) && Linked(nodes, l.queue, k)
  {
    var free := FreeSlots(l, |nodes|);
    if s >= l.high {
      var i := |l.recycled| + s - l.high;
      assert free[i] == s;
      SpareIsBlank(nodes, free, i);
      assert false;
    } else if s in l.recycled {
      var j :| 0 <= j < |l.recycled| && l.recycled[j] == s;
      assert free[j] == s;
      SpareIsBlank(nodes, free, j);
      assert false;
    }
    assert l.InUse(s);
    k :| 0 <= k < |l.queue| && l.queue[k].slot == s;
    assert Linked(nodes, l.queue, k);
  }

  class PriceLevel {
    var nodes: seq<Node>
    var headSlot: Option<nat>
    var tailSlot: Option<nat>
    var freeHead: Option<nat>
    var count: nat
    var openQty: Qty
    ghost var model: LevelState

    ghost predicate Valid()
      reads this
    {
      && Holds(nodes, headSlot, tailSlot, freeHead, model)
      && count == |model.queue|
      && openQty == model.openQty
    }

    constructor ()
      ensures Valid() && model == EMPTY_LEVEL
    {
      nodes, headSlot, tailSlot, freeHead, count, openQty := [], None, None, None, 0, 0;
      model := EMPTY_LEVEL;
    }

    predicate Empty()
      reads this
      ensures Valid() ==> (Empty() <==> model.queue == [])
    {
      count == 0
    }

    method AddOrder(orderId: OrderId, arena: OrderArena) returns (slot: nat)
      requires Valid() && arena.Valid() && orderId in arena.model && orderId != INVALID_ORDER
      modifies this
      ensures Valid()
      ensures model == old(model).Add(orderId, arena.model[orderId].Pending())
      ensures slot == old(model).NextSlot()
    {
      hide OrderArena.Valid, LiveChain, FreeChain, FreeSlots, Apart;
      ghost var was := model;
      var pending := PendingQty(orderId, arena);
      ghost var after := was.Add(orderId, pending);
      AddKeepsWellFormed(was, orderId, pending);
      hide LevelState.WellFormed;
      slot := AllocateSlot(after);
      ghost var free := FreeSlots(after, |nodes|);
      WellFormedApart(after, |nodes|);
      AppendKeepsChains(nodes, was.queue, free, Entry(orderId, slot));

      nodes := nodes[slot := Node(orderId, None, tailSlot)];
      if tailSlot.Some? {
        nodes := SetNext(nodes, tailSlot, Some(slot));
      } else {
        headSlot := Some(slot);
      }
      tailSlot := Some(slot);

      count := count + 1;
      openQty := WrapAdd(openQty, pending);
      model := after;
    }

    /** Takes a node off the free list, or grows the vector by one. */
    method AllocateSlot(ghost after: LevelState) returns (slot: nat)
      requires Valid()
      requires after.recycled == (if model.recycled != [] then model.recycled[1..] else [])
      requires after.high == if model.recycled != [] then model.high else model.high + 1
      modifies this`nodes, this`freeHead
      ensures slot == model.NextSlot() && slot < |nodes|
      ensures LiveChain(nodes, model.queue)
      ensures after.high <= |nodes| && FreeChain(nodes, FreeSlots(after, |nodes|))
      ensures freeHead == SlotAt(FreeSlots(after, |nodes|), 0)
    {
      hide LiveChain, FreeChain, Apart;
      ghost var free := FreeSlots(model, |nodes|);
      WellFormedApart(model, |nodes|);
      hide LevelState.WellFormed;
      if freeHead.Some? {
        slot := freeHead.value;
        AllocateKeepsChains(nodes, model.queue, free, slot);
        freeHead := nodes[slot].next;
        nodes := nodes[slot := Node(INVALID_ORDER, None, None)];
        assert FreeSlots(after, |nodes|) == free[1..];
        return;
      }
      GrowKeepsChains(nodes, model.queue, free);
      slot := |nodes|;
      nodes := nodes + [Node(INVALID_ORDER, None, None)];
      assert FreeSlots(after, |nodes|) == free;
    }

    static method PendingQty(orderId: OrderId, arena: OrderArena) returns (q: Qty)
      requires arena.Valid() && orderId in arena.model
      ensures q == arena.model[orderId].Pending()
    {
      var order := arena.Find(orderId);
      return order.PendingQuantity();
    }

    method RemoveOrderAt(slot: Option<nat>, orderId: OrderId, arena: OrderArena) returns (ok: bool)
      requires Valid() && arena.Valid() && orderId in arena.model && orderId != INVALID_ORDER
      modifies this
      ensures Valid()
      ensures ok <==> slot.Some? && Entry(orderId, slot.value) in old(model).queue
      ensures ok ==> model == old(model).Remove(Entry(orderId, slot.value), arena.model[orderId].Pending())
      ensures !ok ==> model == old(model)
    {
      hide OrderArena.Valid, LevelState.WellFormed, LiveChain, FreeChain, Linked, FreeSlots, SlotAt, Without;
      if slot.None? || slot.value >= |nodes| || nodes[slot.value].order != orderId {
        NotQueued(slot, orderId);
        return false;
      }
      var s := slot.value;
      ghost var k := LiveIndex(nodes, model, s);

      var pending := PendingQty(orderId, arena);
      openQty := SaturatingSub(openQty, pending);
      Unlink(s, k);
      ReleaseSlot(s, k, pending);
      if count > 0 {
        count := count - 1;
      }
      if count == 0 {
        headSlot, tailSlot := None, None;
      }
      return true;
    }

    lemma NotQueued(slot: Option<nat>, orderId: OrderId)
      requires Valid() && orderId != INVALID_ORDER
      requires slot.None? || slot.value >= |nodes| || nodes[slot.value].order != orderId
      ensures slot.Some? ==> Entry(orderId, slot.value) !in model.queue
    {
      forall i | 0 <= i < |model.queue|
        ensures slot.Some? ==> model.queue[i] != Entry(orderId, slot.value)
      {
        assert Linked(nodes, model.queue, i);
      }
    }

    /** The relinking part of removeOrderAt. */
    method Unlink(s: nat, ghost k: nat)
      requires Holds(nodes, headSlot, tailSlot, freeHead, model)
      requires k < |model.queue| && model.queue[k].slot == s
      modifies this`nodes, this`headSlot, this`tailSlot
      ensures |nodes| == |old(nodes)|
      ensures var q := model.queue[..k] + model.queue[k + 1..];
        && LiveChain(nodes, q)
        && FreeChain(nodes, FreeSlots(model, |nodes|))
        && headSlot == EntryAt(q, 0)
        && tailSlot == EntryAt(q, |q| - 1)
    {
      ghost var q := model.queue;
      WellFormedApart(model, |nodes|);
      UnlinkKeepsChains(nodes, q, FreeSlots(model, |nodes|), k);
      assert Linked(nodes, q, k);
      var node := nodes[s];
      if node.prev.Some? {
        nodes := SetNext(nodes, node.prev, node.next);
      } else {
        headSlot := node.next;
      }
      if node.next.Some? {
        nodes := SetPrev(nodes, node.next, node.prev);
      } else {
        tailSlot := node.prev;
      }
    }

    /** Pushes the node that left the queue onto the free list. */
    method ReleaseSlot(slot: nat, ghost k: nat, ghost pending: Qty)
      requires model.WellFormed() && model.high <= |nodes|
      requires k < |model.queue| && model.queue[k].slot == slot
      requires LiveChain(nodes, model.queue[..k] + model.queue[k + 1..])
      requires FreeChain(nodes, FreeSlots(model, |nodes|)) && freeHead == SlotAt(FreeSlots(model, |nodes|), 0)
      modifies this`nodes, this`freeHead, this`model
      ensures |nodes| == |old(nodes)|
      ensures model == old(model).Remove(old(model).queue[k], pending)
      ensures model.WellFormed() && model.queue == old(model).queue[..k] + old(model).queue[k + 1..]
      ensures LiveChain(nodes, model.queue) && FreeChain(nodes, FreeSlots(model, |nodes|))
      ensures freeHead == SlotAt(FreeSlots(model, |nodes|), 0)
    {
      ghost var free := FreeSlots(model, |nodes|);
      RemoveKeepsWellFormed(model, k, pending);
      model := model.Remove(model.queue[k], pending);
      assert FreeSlots(model, |nodes|) == [slot] + free;
      WellFormedApart(model, |nodes|);
      ReleaseKeepsChains(nodes, model.queue, free, slot);
      nodes := nodes[slot := Node(INVALID_ORDER, freeHead, None)];
      freeHead := Some(slot);
    }

    method HeadOrderId() returns (id: OrderId)
      requires Valid()
      ensures id == if model.queue == [] then INVALID_ORDER else model.queue[0].id
    {
      if headSlot.None? {
        return INVALID_ORDER;
      }
      assert Linked(nodes, model.queue, 0);
      return nodes[headSlot.value].order;
    }

    method DecOpenQty(qty: Qty)
      requires Valid()
      modifies this`openQty, this`model
      ensures Valid()
      ensures model == old(model).(openQty := SaturatingSub(old(model).openQty, qty))
    {
      hide Holds;
      HoldsIgnoresDepth(nodes, headSlot, tailSlot, freeHead, model, SaturatingSub(openQty, qty));
      if qty >= openQty {
        openQty := 0;
      } else {
        openQty := openQty - qty;
      }
      model := model.(openQty := openQty);
    }

    /** Empties the level, whatever state it is in. */
    method Clear()
      modifies this
      ensures Valid() && model == EMPTY_LEVEL
    {
      hide Holds;
      if nodes != [] {
        ResetFreeList();
      } else {
        freeHead := None;
      }
      assert FreeChain(nodes, Range(0, |nodes|)) && freeHead == SlotAt(Range(0, |nodes|), 0);
      EmptyHolds(nodes);
      hide FreeChain, Range;
      headSlot, tailSlot, count, openQty := None, None, 0, 0;
      model := EMPTY_LEVEL;
    }

    method ResetFreeList()
      modifies this`nodes, this`freeHead
      ensures |nodes| == |old(nodes)|
      ensures FreeChain(nodes, Range(0, |nodes|))
      ensures freeHead == SlotAt(Range(0, |nodes|), 0)
    {
      if nodes == [] {
        freeHead := None;
        return;
      }
      freeHead := Some(0);
      var i := 0;
      while i < |nodes|
        invariant 0 <= i <= |nodes| == |old(nodes)|
        invariant freeHead == Some(0)
        invariant forall j :: 0 <= j < i ==>
          nodes[j] == Node(INVALID_ORDER, if j + 1 < |nodes| then Some(j + 1) else None, None)
      {
        nodes := nodes[i := Node(INVALID_ORDER, if i + 1 < |nodes| then Some(i + 1) else None, None)];
        i := i + 1;
      }
    }
  }
}
