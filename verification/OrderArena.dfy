/**
  The id-indexed order store: a vector of owned orders that grows in whole chunks.
 */
module OrderArenas {
  import opened Types
  import opened Orders

  const CHUNK_SIZE: nat := 512

  class OrderArena {
    var slots: seq<Order?>
    ghost var model: map<OrderId, OrderState>
    ghost var owned: set<Order>

    ghost predicate Holds(id: OrderId)
      reads this`slots, this`owned
    {
      id < |slots| && slots[id] != null && slots[id] in owned && slots[id].id == id
    }

    /** Slot i holds order i or nothing, and the slots are whole chunks. */
    ghost predicate Shape()
      reads this`slots, this`owned, this`model
    {
      && |slots| % CHUNK_SIZE == 0
      && |slots| <= INVALID_ORDER + CHUNK_SIZE
      && INVALID_ORDER !in model
      && (forall i {:trigger slots[i]} :: 0 <= i < |slots| && slots[i] != null ==> i < INVALID_ORDER && Holds(i))
      && (forall id: OrderId {:trigger Holds(id)} :: id in model <==> Holds(id))
    }

    /** The stored order is the abstract one. */
    ghost predicate Same(id: OrderId)
      requires Holds(id)
      reads this`slots, this`owned, this`model, slots[id]
    {
      id in model && slots[id].State() == model[id]
    }

    ghost predicate Valid()
      reads this, owned
    {
      Shape() && forall id: OrderId {:trigger Same(id)} :: Holds(id) ==> Same(id)
    }

    /** Everything but the state of one order. */
    ghost predicate ValidBut(id: OrderId)
      reads this, if Holds(id) then owned - {slots[id]} else {}
    {
      && Shape() && Holds(id)
      && (forall k: OrderId {:trigger Same(k)} :: k != id && Holds(k) ==> slots[k] != slots[id] && Same(k))
    }

    constructor ()
      ensures Valid() && owned == {} && model == map[]
    {
      slots, model, owned := [], map[], {};
    }

    method EnsureCapacity(id: OrderId)
      requires Valid() && id != INVALID_ORDER
      modifies this`slots
      ensures Valid() && id < |slots|
    {
      if id < |slots| {
        return;
      }
      var required := id + 1;
      var newSize := ((required + CHUNK_SIZE - 1) / CHUNK_SIZE) * CHUNK_SIZE;
      ghost var was := slots;
      slots := slots + seq(newSize - |slots|, _ => null);
      assert forall k: OrderId :: Holds(k) <==> old(Holds(k));
      assert forall k: OrderId :: Holds(k) ==> old(Same(k));
    }

    /** Takes ownership of the order; an order already stored under its id is dropped. */
    method Store(order: Order)
      requires Valid() && order !in owned && order.id != INVALID_ORDER
      modifies this
      ensures Valid() && owned == old(owned) + {order}
      ensures model == old(model)[order.id := order.State()]
    {
      EnsureCapacity(order.id);
      label grown:
      slots := slots[order.id := order];
      model := model[order.id := order.State()];
      owned := owned + {order};
      forall k | Holds(k)
        ensures Same(k)
      {
        assert k != order.id ==> old@grown(Holds(k)) && old@grown(Same(k));
      }
      assert forall k :: k in model && k != order.id ==> old@grown(Holds(k));
    }

    method Find(id: OrderId) returns (order: Order?)
      requires Valid()
      ensures order == null <==> id !in model
      ensures order != null ==> Holds(id) && order == slots[id] && order.State() == model[id]
    {
      assert Holds(id) ==> Same(id);
      if id >= |slots| {
        return null;
      }
      return slots[id];
    }

    method Erase(id: OrderId)
      requires Valid()
      modifies this`slots, this`model
      ensures Valid() && model == Drop(old(model), id)
    {
      if id < |slots| {
        slots := slots[id := null];
      }
      model := Drop(model, id);
      forall k | Holds(k)
        ensures Same(k)
      {
        assert old(Holds(k)) && old(Same(k));
      }
      assert forall k :: k in model ==> old(Holds(k));
    }

    /** Before one order is changed through its own reference. */
    lemma Loosen(id: OrderId)
      requires Valid() && id in model
      ensures ValidBut(id) && slots[id].State() == model[id]
    {
      assert Holds(id) && Same(id);
      forall k: OrderId | k != id && Holds(k)
        ensures slots[k] != slots[id] && Same(k)
      {
      }
    }

    /** After one order was changed through its own reference. */
    ghost method Sync(id: OrderId)
      requires ValidBut(id)
      modifies this`model
      ensures Valid() && Holds(id) && model == old(model)[id := slots[id].State()]
    {
      model := model[id := slots[id].State()];
      forall k | Holds(k)
        ensures Same(k)
      {
        assert k != id ==> old(Same(k));
      }
    }
  }
}
