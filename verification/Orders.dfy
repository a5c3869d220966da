/** The bounded order store (apps/api/src/orders/orders.repository.ts). */
module Orders {
  import opened Prelude
  import opened JsMaps

  const MAX_ORDERS: nat := 500

  datatype StoredOrder = StoredOrder(id: string, to: string, total: real, vip: bool, createdAt: string)

  type Store = JsMap<string, StoredOrder>

  /** The store after a list of saves. */
  function Saved(saves: seq<StoredOrder>): Store {
    if saves == [] then JsMap([], map[])
    else
      var last := saves[|saves| - 1];
      EvictBefore(Saved(saves[..|saves| - 1]), MAX_ORDERS, last.id, last)
  }

  /** Ids in the order they were newly inserted; an id evicted and saved again appears again. */
  function Insertions(saves: seq<StoredOrder>): seq<string> {
    if saves == [] then []
    else
      var before, id := Insertions(saves[..|saves| - 1]), saves[|saves| - 1].id;
      if id in LastN(before, 500) then before else before + [id]
  }

  /** The most recent order saved under `id`. */
  function LatestSave(saves: seq<StoredOrder>, id: string): Option<StoredOrder> {
    if saves == [] then None
    else if saves[|saves| - 1].id == id then Some(saves[|saves| - 1])
    else LatestSave(saves[..|saves| - 1], id)
  }

  /** What a first-in-first-out list of 500 orders, overwritten in place, would return for `id`. */
  function Retained(saves: seq<StoredOrder>, id: string): Option<StoredOrder> {
    if id in LastN(Insertions(saves), 500) then LatestSave(saves, id) else None
  }

  /**
   * Main result: over any list of saves the store holds the last 500 newly inserted ids in order, and `find`
   * returns the latest save of an id exactly when the id is among them.
   */
  lemma {:induction false} StoreKeepsNewest(saves: seq<StoredOrder>)
    ensures Window(Saved(saves), 500, Insertions(saves))
    ensures Saved(saves).Size() <= 500
    ensures forall id :: Saved(saves).Get(id) == Retained(saves, id)
  {
    if saves != [] {
      var before, last := saves[..|saves| - 1], saves[|saves| - 1];
      assert before + [last] == saves;
      StoreKeepsNewest(before);
      SaveKeepsNewest(saves, before, last);
    }
  }

  lemma SavedSnoc(all: seq<StoredOrder>, saves: seq<StoredOrder>, order: StoredOrder)
    requires all == saves + [order]
    ensures Saved(all) == EvictBefore(Saved(saves), MAX_ORDERS, order.id, order)
    ensures Insertions(all) == if order.id in LastN(Insertions(saves), MAX_ORDERS) then Insertions(saves)
                               else Insertions(saves) + [order.id]
    ensures forall id :: LatestSave(all, id) == if id == order.id then Some(order) else LatestSave(saves, id)
  {
    assert all[..|all| - 1] == saves;
  }

  lemma {:induction false} SaveKeepsNewest(all: seq<StoredOrder>, saves: seq<StoredOrder>, order: StoredOrder)
    requires all == saves + [order] && Window(Saved(saves), MAX_ORDERS, Insertions(saves))
    requires forall id :: Saved(saves).Get(id) == Retained(saves, id)
    ensures Window(Saved(all), MAX_ORDERS, Insertions(all))
    ensures forall id :: Saved(all).Get(id) == Retained(all, id)
  {
    var m, m' := Saved(saves), Saved(all);
    SavedSnoc(all, saves, order);
    EvictionOrdersAgree(m, MAX_ORDERS, order.id, order);
    InsertSlides(m, MAX_ORDERS, Insertions(saves), order.id, order);
    assert m.Has(order.id) <==> order.id in m.keys;
    forall id ensures m'.Get(id) == Retained(all, id) {
      assert m'.Has(id) <==> id in m'.keys;
      if id != order.id && m'.Has(id) { assert m'.Get(id) == m.Get(id); }
    }
  }

  lemma {:induction false} InsertionsExtend(saves: seq<StoredOrder>, more: seq<StoredOrder>)
    ensures Insertions(saves) <= Insertions(saves + more)
  {
    if more == [] {
      assert saves + more == saves;
    } else {
      InsertionsExtend(saves, more[..|more| - 1]);
      InitOfAppend(saves, more);
    }
  }

  lemma LastNOfLog<T>(log: seq<T>, x: T, further: seq<T>, n: nat)
    ensures x in LastN(log + [x] + further, n) <==> |further| < n || x in LastN(further, n)
  {
    var whole := log + [x] + further;
    var kept := LastN(whole, n);
    if |further| < n {
      assert whole[|log|] == x;
      assert kept[|log| - (|whole| - |kept|)] == x;
    } else {
      assert kept == LastN(further, n);
    }
  }

  /** A newly inserted id stays findable until 500 further ids were inserted, unless it is among the last of those. */
  lemma FindableUntilCapacity(saves: seq<StoredOrder>, order: StoredOrder, more: seq<StoredOrder>)
      returns (further: seq<string>)
    requires !Saved(saves).Has(order.id)
    ensures Insertions(saves + [order] + more) == Insertions(saves) + [order.id] + further
    ensures Saved(saves + [order] + more).Get(order.id).Some?
      <==> |further| < MAX_ORDERS || order.id in LastN(further, MAX_ORDERS)
  {
    StoreKeepsNewest(saves);
    assert Saved(saves).Has(order.id) <==> order.id in Saved(saves).keys;
    SavedSnoc(saves + [order], saves, order);
    InsertionsExtend(saves + [order], more);
    var all, log := saves + [order] + more, Insertions(saves) + [order.id];
    further := Insertions(all)[|log|..];
    PrefixRest(log, Insertions(all));
    HasLast(all, Insertions(saves), order.id, further);
  }

  lemma HasLast(all: seq<StoredOrder>, log: seq<string>, id: string, further: seq<string>)
    requires Insertions(all) == log + [id] + further
    ensures Saved(all).Get(id).Some? <==> |further| < 500 || id in LastN(further, 500)
  {
    StoreKeepsNewest(all);
    LastNOfLog(log, id, further, MAX_ORDERS);
    assert Saved(all).Has(id) <==> id in Saved(all).keys;
  }

  class OrdersRepository {
    var orders: Store
    ghost var saves: seq<StoredOrder>

    ghost predicate Valid() reads this {
      orders == Saved(saves)
    }

    constructor ()
      ensures Valid() && saves == []
    {
      orders := JsMap([], map[]);
      saves := [];
    }

    method Save(order: StoredOrder) returns (stored: StoredOrder)
      requires Valid()
      modifies this
      ensures Valid() && saves == old(saves) + [order] && stored == order
    {
      if orders.Size() >= MAX_ORDERS && !orders.Has(order.id) {
        var oldest := orders.keys[0];
        orders := orders.Delete(oldest);
      }
      orders := orders.Set(order.id, order);
      SavedSnoc(saves + [order], saves, order);
      saves := saves + [order];
      return order;
    }

    method Find(id: string) returns (found: Option<StoredOrder>)
      requires Valid()
      ensures found == Retained(saves, id)
    {
      StoreKeepsNewest(saves);
      found := orders.Get(id);
    }
  }
}
