/**
 * The two bounded buffers of the application: the ring with a wrapping head index
 * (apps/api/src/common/bounded-ring-buffer.ts) and the push-then-shift array
 * (apps/api/src/processors/audit-trail.service.ts and three others).
 */
module BoundedBuffers {
  import opened Prelude

  datatype Ring<T> = Ring(items: seq<T>, head: nat)

  /** Before the ring is full its head stays at 0. */
  predicate RingValid<T>(r: Ring<T>, capacity: nat) {
    |r.items| <= capacity && r.head < capacity && (|r.items| < capacity ==> r.head == 0)
  }

  function RingPush<T>(r: Ring<T>, capacity: nat, item: T): (r': Ring<T>)
    requires RingValid(r, capacity)
    ensures RingValid(r', capacity)
  {
    if |r.items| < capacity then Ring(r.items + [item], r.head)
    else Ring(r.items[r.head := item], (r.head + 1) % capacity)
  }

  function RingSnapshot<T>(r: Ring<T>, capacity: nat): seq<T>
    requires RingValid(r, capacity)
  {
    if |r.items| < capacity then r.items else r.items[r.head..] + r.items[..r.head]
  }

  lemma FullRingSnapshots<T>(items: seq<T>, h: nat, item: T)
    requires h < |items|
    ensures items[h..] + items[..h] == [items[h]] + (items[h + 1..] + items[..h])
    ensures var next := items[h := item]; next[h + 1..] + next[..h + 1] == (items[h + 1..] + items[..h]) + [item]
    ensures h + 1 == |items| ==> items[h := item] == (items[h + 1..] + items[..h]) + [item]
  {
  }

  /** A push slides the window: overwriting at the head drops exactly the oldest entry. */
  lemma RingPushSlides<T>(r: Ring<T>, capacity: nat, item: T)
    requires RingValid(r, capacity)
    ensures RingSnapshot(RingPush(r, capacity, item), capacity) == LastN(RingSnapshot(r, capacity) + [item], capacity)
  {
    if |r.items| == capacity {
      FullRingPush(r, capacity, item);
    } else {
      assert r.items + [item] == (r.items + [item])[0..] + (r.items + [item])[..0];
    }
  }

  lemma FullRingPush<T>(r: Ring<T>, capacity: nat, item: T)
    requires RingValid(r, capacity) && |r.items| == capacity
    ensures RingSnapshot(RingPush(r, capacity, item), capacity) == LastN(RingSnapshot(r, capacity) + [item], capacity)
  {
    var oldest, kept := r.items[r.head], r.items[r.head + 1..] + r.items[..r.head];
    FullRingSnapshots(r.items, r.head, item);
    assert RingSnapshot(r, capacity) == [oldest] + kept;
    WrapAt(r.head + 1, capacity);
    var next := r.items[r.head := item];
    assert next[0..] + next[..0] == next;
    assert RingSnapshot(RingPush(r, capacity, item), capacity) == kept + [item];
    ConcatAssoc([oldest], kept, [item]);
    ConcatParts([oldest], kept + [item]);
  }

  lemma WrapAt(i: nat, capacity: nat)
    requires 0 < i <= capacity
    ensures i % capacity == if i == capacity then 0 else i
  {
  }

  function RingRun<T>(capacity: nat, pushes: seq<T>): (r: Ring<T>)
    requires capacity >= 1
    ensures RingValid(r, capacity)
  {
    if pushes == [] then Ring([], 0)
    else RingPush(RingRun(capacity, pushes[..|pushes| - 1]), capacity, pushes[|pushes| - 1])
  }

  function ShiftPush<T>(buffer: seq<T>, capacity: nat, item: T): seq<T> {
    var longer := buffer + [item];
    if |longer| > capacity then longer[1..] else longer
  }

  function ShiftRun<T>(capacity: nat, pushes: seq<T>): seq<T> {
    if pushes == [] then [] else ShiftPush(ShiftRun(capacity, pushes[..|pushes| - 1]), capacity, pushes[|pushes| - 1])
  }

  lemma {:induction false} RingKeepsLast<T>(capacity: nat, pushes: seq<T>)
    requires capacity >= 1
    ensures RingSnapshot(RingRun(capacity, pushes), capacity) == LastN(pushes, capacity)
  {
    if pushes != [] {
      var before, x := pushes[..|pushes| - 1], pushes[|pushes| - 1];
      RingKeepsLast(capacity, before);
      assert before + [x] == pushes;
      RingPushSlides(RingRun(capacity, before), capacity, x);
      LastNPush(before, x, capacity);
    }
  }

  lemma {:induction false} ShiftKeepsLast<T>(capacity: nat, pushes: seq<T>)
    ensures ShiftRun(capacity, pushes) == LastN(pushes, capacity)
  {
    if pushes != [] {
      var before, x := pushes[..|pushes| - 1], pushes[|pushes| - 1];
      ShiftKeepsLast(capacity, before);
      assert before + [x] == pushes;
    }
  }

  /** The fast ring and the simple shifting array cannot be told apart, whatever is pushed. */
  lemma {:induction false} RingRefinesShift<T>(capacity: nat, pushes: seq<T>)
    requires capacity >= 1
    ensures RingSnapshot(RingRun(capacity, pushes), capacity) == ShiftRun(capacity, pushes)
  {
    RingKeepsLast(capacity, pushes);
    ShiftKeepsLast(capacity, pushes);
  }

  class BoundedRingBuffer<T> {
    const capacity: nat
    var items: seq<T>
    var head: nat

    predicate Valid() reads this {
      RingValid(Ring(items, head), capacity)
    }

    /** A zero capacity would make the head index `1 % 0`, so it is excluded here. */
    constructor (capacity: nat)
      requires capacity >= 1
      ensures Valid() && this.capacity == capacity && Snapshot() == []
    {
      this.capacity, items, head := capacity, [], 0;
    }

    method Push(item: T)
      requires Valid()
      modifies this
      ensures Valid() && Ring(items, head) == RingPush(old(Ring(items, head)), capacity, item)
      ensures Snapshot() == LastN(old(Snapshot()) + [item], capacity)
    {
      RingPushSlides(Ring(items, head), capacity, item);
      if |items| < capacity {
        items := items + [item];
        return;
      }
      items := items[head := item];
      head := (head + 1) % capacity;
    }

    function Snapshot(): (s: seq<T>)
      requires Valid()
      reads this
      ensures s == RingSnapshot(Ring(items, head), capacity)
    {
      if |items| < capacity then items else items[head..] + items[..head]
    }
  }

  const RING_BUFFER_CAPACITY: nat := 100

  class AuditTrail<Entry> {
    var entries: seq<Entry>

    /** Everything appended so far. */
    ghost var history: seq<Entry>

    ghost predicate Valid() reads this {
      entries == LastN(history, 100)
    }

    constructor ()
      ensures Valid() && history == []
    {
      entries, history := [], [];
    }

    method Append(entry: Entry)
      requires Valid()
      modifies this
      ensures Valid() && history == old(history) + [entry]
    {
      LastNPush(history, entry, RING_BUFFER_CAPACITY);
      entries := entries + [entry];
      if |entries| > RING_BUFFER_CAPACITY {
        entries := entries[1..];
      }
      history := history + [entry];
    }
  }
}
