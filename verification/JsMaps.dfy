/**
 * A JavaScript Map: key/value pairs in insertion order. Setting an existing key keeps its
 * position (section 24.1.3.9 of ECMA-262, 14th edition). On top of it, the two eviction
 * orders of the application and what they keep.
 */
module JsMaps {
  import opened Prelude

  function Without<K(==, !new)>(keys: seq<K>, k: K): (r: seq<K>)
    ensures k !in r
    ensures forall x :: x in r <==> x in keys && x != k
    ensures Distinct(keys) ==> Distinct(r)
    ensures k !in keys ==> r == keys
  {
    if keys == [] then []
    else
      var rest := Without(keys[1..], k);
      assert Distinct(keys) ==> keys[0] !in keys[1..] && Distinct(keys[1..]);
      if keys[0] == k then rest else [keys[0]] + rest
  }

  datatype JsMap<K(==, !new), V> = JsMap(keys: seq<K>, at: map<K, V>) {

    ghost predicate Valid() {
      Distinct(keys) && forall k :: k in keys <==> k in at
    }

    predicate Has(k: K) { k in at }

    function Get(k: K): Option<V> {
      if k in at then Some(at[k]) else None
    }

    function Size(): nat { |keys| }

    function Set(k: K, v: V): (m: JsMap<K, V>)
      ensures Valid() ==> m.Valid()
    {
      JsMap(if k in at then keys else keys + [k], at[k := v])
    }

    function Delete(k: K): (m: JsMap<K, V>)
      ensures Valid() ==> m.Valid()
    {
      JsMap(Without(keys, k), at - {k})
    }
  }

  /** Set, then drop the oldest key if the map outgrew its capacity. */
  function EvictAfter<K(!new), V>(m: JsMap<K, V>, capacity: nat, k: K, v: V): JsMap<K, V> {
    var s := m.Set(k, v);
    if s.Size() <= capacity || s.keys == [] then s else s.Delete(s.keys[0])
  }

  /** Drop the oldest key if a new one would not fit, then set. */
  function EvictBefore<K(!new), V>(m: JsMap<K, V>, capacity: nat, k: K, v: V): JsMap<K, V> {
    var s := if m.Size() >= capacity && !m.Has(k) && m.keys != [] then m.Delete(m.keys[0]) else m;
    s.Set(k, v)
  }

  lemma DropFirst<K(!new)>(keys: seq<K>)
    requires Distinct(keys) && keys != []
    ensures Without(keys, keys[0]) == keys[1..]
  {
    assert keys[0] !in keys[1..];
  }

  /** What either eviction order leaves when a new key meets a full map. */
  function Slide<K(!new), V>(m: JsMap<K, V>, k: K, v: V): JsMap<K, V>
    requires m.keys != []
  {
    JsMap(m.keys[1..] + [k], (m.at - {m.keys[0]})[k := v])
  }

  lemma AfterSlides<K(!new), V>(m: JsMap<K, V>, capacity: nat, k: K, v: V)
    requires m.Valid() && m.Size() == capacity >= 1 && !m.Has(k)
    ensures EvictAfter(m, capacity, k, v) == Slide(m, k, v)
  {
    var s := m.Set(k, v);
    var first := m.keys[0];
    assert first in m.keys && k != first;
    DropWithin(m.keys, [k], 1);
    assert s.Valid();
    assert s.keys == m.keys + [k] && s.keys[0] == first;
    DropFirst(s.keys);
    SetThenRemove(m.at, first, k, v);
  }

  lemma SetThenRemove<K, V>(at: map<K, V>, first: K, k: K, v: V)
    requires k != first
    ensures at[k := v] - {first} == (at - {first})[k := v]
  {
  }

  lemma BeforeSlides<K(!new), V>(m: JsMap<K, V>, capacity: nat, k: K, v: V)
    requires m.Valid() && m.Size() == capacity >= 1 && !m.Has(k)
    ensures EvictBefore(m, capacity, k, v) == Slide(m, k, v)
  {
    DropFirst(m.keys);
  }

  /** The two eviction orders agree on every map within capacity, except when nothing may be kept at all. */
  lemma {:induction false} EvictionOrdersAgree<K(!new), V>(m: JsMap<K, V>, capacity: nat, k: K, v: V)
    requires m.Valid() && m.Size() <= capacity
    ensures EvictBefore(m, capacity, k, v) == EvictAfter(m, capacity, k, v) <==> capacity >= 1 || m.Has(k)
  {
    if !m.Has(k) && capacity == m.Size() {
      if capacity == 0 {
        assert m.Set(k, v).keys == [k];
      } else {
        AfterSlides(m, capacity, k, v);
        BeforeSlides(m, capacity, k, v);
      }
    }
  }

  /** The map holds exactly the newest `capacity` insertions, in order. */
  ghost predicate Window<K(!new), V>(m: JsMap<K, V>, capacity: nat, inserted: seq<K>) {
    m.Valid() && m.keys == LastN(inserted, capacity)
  }

  /** Inserting a new key slides the window; overwriting an old one does not; other values stay. */
  lemma InsertSlides<K(!new), V>(m: JsMap<K, V>, capacity: nat, inserted: seq<K>, k: K, v: V)
    requires capacity >= 1 && Window(m, capacity, inserted)
    ensures var m' := EvictAfter(m, capacity, k, v);
      && Window(m', capacity, if m.Has(k) then inserted else inserted + [k])
      && m'.Get(k) == Some(v)
      && forall x :: x != k && m'.Has(x) ==> m'.Get(x) == m.Get(x)
  {
    if !m.Has(k) {
      LastNPush(inserted, k, capacity);
      if m.Size() == capacity {
        AfterSlides(m, capacity, k, v);
      }
    }
  }
}
