// The OSAL queue: a ring of fixed-size items over a byte area, and the history of
// what has gone through it.
module Rings {
  import opened Words
  import Lists
  import Waiting
  import opened Memory

  const SIZE_MAX := WORD - 1
  const STRUCT: nat := 24            // sizeof(struct mmosal_queue)

  // -- Slots -------------------------------------------------------------------

  // Where slot i begins.
  function Offset(i: nat, size: nat): nat {
    i * size
  }

  lemma SlotBounds(n: nat, size: nat, i: nat)
    requires i < n
    ensures Offset(i + 1, size) == Offset(i, size) + size
    ensures 0 <= Offset(i, size) <= Offset(i + 1, size) <= Offset(n, size)
  {
    MulMonotone(0, i, size);
    MulMonotone(i, i + 1, size);
    MulMonotone(i + 1, n, size);
  }

  lemma SlotsDisjoint(size: nat, i: nat, j: nat)
    requires i < j
    ensures Offset(i + 1, size) <= Offset(j, size)
  {
    MulMonotone(i + 1, j, size);
  }

  // The k'th item from slot head on, around a ring of n.
  function At(head: nat, k: nat, n: nat): (i: nat)
    requires head < n && k <= n
    ensures i < n
  {
    if head + k < n then head + k else head + k - n
  }

  // The step of head and tail.
  function Following(i: nat, n: nat): nat
    requires 0 < n
  {
    (i + 1) % n
  }

  // Moving the tail on, and the head.
  lemma Advance(head: nat, count: nat, n: nat)
    requires head < n && count < n
    ensures Following(At(head, count, n), n) == At(head, count + 1, n)
  {
    ModAt(At(head, count, n), 1, n);
  }

  lemma Retire(head: nat, count: nat, n: nat)
    requires head < n && 0 < count <= n
    ensures Following(head, n) == At(head, 1, n) < n
    ensures At(At(head, 1, n), count - 1, n) == At(head, count, n)
  {
    ModAt(head, 1, n);
  }

  function Slot(m: seq<uint8>, size: nat, i: nat): seq<uint8>
    requires Offset(i, size) <= Offset(i + 1, size) <= |m|
  {
    m[Offset(i, size)..Offset(i + 1, size)]
  }

  // contents lies in the ring, oldest first from slot head.
  ghost predicate Holds(m: seq<uint8>, n: nat, size: nat, head: nat, contents: seq<seq<uint8>>) {
    && |m| == Offset(n, size) && head < n && |contents| <= n
    && forall k: nat | k < |contents| :: HoldsAt(m, n, size, head, k, contents[k])
  }

  ghost predicate HoldsAt(m: seq<uint8>, n: nat, size: nat, head: nat, k: nat, item: seq<uint8>) {
    && head < n && k < n
    && var i := At(head, k, n);
    0 <= Offset(i, size) <= Offset(i + 1, size) <= |m| && Slot(m, size, i) == item
  }

  lemma StoreTail(m: seq<uint8>, m': seq<uint8>, n: nat, size: nat, head: nat, contents: seq<seq<uint8>>,
                  item: seq<uint8>)
    requires Holds(m, n, size, head, contents) && |contents| < n && |item| == size
    requires var t := At(head, |contents|, n);
             SameOutside(m, m', Offset(t, size), Offset(t + 1, size)) && Offset(t + 1, size) <= |m|
             && Slot(m', size, t) == item
    ensures Holds(m', n, size, head, contents + [item])
  {
    hide Offset;
    var t := At(head, |contents|, n);
    forall k: nat | k < |contents| + 1 ensures HoldsAt(m', n, size, head, k, (contents + [item])[k]) {
      var i := At(head, k, n);
      SlotBounds(n, size, i);
      if k < |contents| {
        assert HoldsAt(m, n, size, head, k, contents[k]);
        if i < t { SlotsDisjoint(size, i, t); } else { SlotsDisjoint(size, t, i); }
        assert Slot(m', size, i) == Slot(m, size, i);
      }
    }
  }

  lemma DropHead(m: seq<uint8>, n: nat, size: nat, head: nat, contents: seq<seq<uint8>>)
    requires Holds(m, n, size, head, contents) && contents != []
    ensures Holds(m, n, size, At(head, 1, n), contents[1..])
  {
    hide Offset;
    forall k: nat | k < |contents| - 1 ensures HoldsAt(m, n, size, At(head, 1, n), k, contents[1..][k]) {
      assert HoldsAt(m, n, size, head, k + 1, contents[k + 1]);
    }
  }

  // The check in mmosal_queue_create() refuses exactly the sizes whose total does
  // not fit in a size_t.
  lemma CreateCheckIsExact(n: word, size: word)
    ensures (size != 0 && n > (SIZE_MAX - STRUCT) / size) <==> STRUCT + n * size > SIZE_MAX
  {
    if size != 0 { DivisionTest(SIZE_MAX - STRUCT, n, size); }
  }

  class Queue {
    const numItems: nat
    const itemSize: nat
    var head: nat
    var tail: nat
    var count: nat
    const items: Memory
    ghost var contents: seq<seq<uint8>>
    ghost var pushed: seq<seq<uint8>>     // every item accepted, in order
    ghost var popped: seq<seq<uint8>>     // every item handed back, in order

    // First in, first out: what went in is what came out and what is still here.
    ghost predicate Valid()
      reads this, items, items.data
    {
      && items.Valid() && |items.bytes| == Offset(numItems, itemSize)
      && count == |contents| <= numItems
      && pushed == popped + contents
      // tail is (head + count) mod numItems; see ModAt.
      && if numItems == 0 then head == 0 && tail == 0
         else head < numItems && Holds(items.bytes, numItems, itemSize, head, contents)
              && tail == At(head, count, numItems)
    }

    // The queue as a wait knows it.
    ghost function AsObject(): Waiting.Object
      reads this
    {
      Waiting.Channel(contents, numItems)
    }

    constructor (numItems: nat, itemSize: nat, area: Memory)
      requires area.Valid() && |area.bytes| == Offset(numItems, itemSize)
      ensures Valid() && contents == [] && pushed == [] && items == area
      ensures this.numItems == numItems && this.itemSize == itemSize
    {
      this.numItems, this.itemSize, items := numItems, itemSize, area;
      head, tail, count := 0, 0, 0;
      contents, pushed, popped := [], [], [];
    }

    // mmosal_queue_push_from_isr()
    method Push(item: seq<uint8>) returns (ok: bool)
      requires Valid() && |item| == itemSize
      modifies this, items, items.data
      ensures Valid() && popped == old(popped)
      ensures ok <==> old(count) < numItems
      ensures contents == if ok then old(contents) + [item] else old(contents)
      ensures pushed == if ok then old(pushed) + [item] else old(pushed)
      // To those who wait on the queue, this is the give of an item.
      ensures ok == Waiting.Accepts(old(AsObject())) && AsObject() == Waiting.Give(old(AsObject()), item)
    {
      hide Holds, Offset, Following;
      if count >= numItems {
        return false;
      }
      StoreItem(item);
      Advance(head, count, numItems);
      tail := Following(tail, numItems);
      count := count + 1;
      assert popped + (contents + [item]) == (popped + contents) + [item];
      contents, pushed := contents + [item], pushed + [item];
      return true;
    }

    // The copy into the slot at the tail.
    method StoreItem(item: seq<uint8>)
      requires Valid() && |item| == itemSize && count < numItems
      modifies items, items.data
      ensures items.Valid() && |items.bytes| == Offset(numItems, itemSize)
      ensures Holds(items.bytes, numItems, itemSize, head, contents + [item])
    {
      hide Offset, Holds;
      ghost var m, t := items.bytes, At(head, count, numItems);
      SlotBounds(numItems, itemSize, tail);
      var a := Offset(tail, itemSize);
      for i := 0 to itemSize
        invariant items.Valid() && SameOutside(m, items.bytes, a, a + i)
        invariant forall x | 0 <= x < i :: items.bytes[a + x] == item[x]
      {
        items.Set(a + i, item[i]);
      }
      assert Slot(items.bytes, itemSize, t) == item;
      StoreTail(m, items.bytes, numItems, itemSize, head, contents, item);
    }

    // The copy out of the slot at the head.
    method LoadItem() returns (item: seq<uint8>)
      requires Valid() && count > 0
      ensures item == contents[0]
    {
      hide Offset;
      assert HoldsAt(items.bytes, numItems, itemSize, head, 0, contents[0]);
      SlotBounds(numItems, itemSize, head);
      item := items.Read(Offset(head, itemSize), itemSize);
    }

    // mmosal_queue_pop_from_isr()
    method Pop() returns (ok: bool, item: seq<uint8>)
      requires Valid()
      modifies this
      ensures Valid() && pushed == old(pushed) && items.bytes == old(items.bytes)
      ensures ok <==> old(contents) != []
      ensures ok ==> item == old(contents)[0] && contents == old(contents)[1..] && popped == old(popped) + [item]
      ensures !ok ==> contents == old(contents) && popped == old(popped)
      // ... and this the take of one.
      ensures ok == (Waiting.Units(old(AsObject())) > 0) && AsObject() == Waiting.Take(old(AsObject()), Lists.None, 0)
    {
      if count == 0 {
        return false, [];
      }
      hide Holds, Offset, Following;
      item := LoadItem();
      DropHead(items.bytes, numItems, itemSize, head, contents);
      Retire(head, count, numItems);
      head := Following(head, numItems);
      count := count - 1;
      assert popped + contents == (popped + [item]) + contents[1..];
      contents, popped := contents[1..], popped + [item];
      return true, item;
    }
  }

  // mmosal_queue_create(): heap is the block malloc would give, or null.
  method Create(numItems: word, itemSize: word, heap: Memory?) returns (q: Queue?)
    requires heap != null ==> heap.Valid() && |heap.bytes| == Offset(numItems, itemSize)
    ensures q == null <==> STRUCT + numItems * itemSize > SIZE_MAX || heap == null
    ensures q != null ==> q.Valid() && q.contents == [] && q.numItems == numItems && q.itemSize == itemSize
  {
    CreateCheckIsExact(numItems, itemSize);
    if itemSize != 0 && numItems > (SIZE_MAX - STRUCT) / itemSize {
      return null;
    }
    if heap == null {
      return null;
    }
    q := new Queue(numItems, itemSize, heap);
  }

  // What the source computes with a remainder.
  lemma ModAt(head: nat, k: nat, n: nat)
    requires head < n && k <= n
    ensures (head + k) % n == At(head, k, n)
  {
    ModBelowTwice(head + k, n);
  }

  lemma ModBelowTwice(x: nat, n: nat)
    requires x < n + n
    ensures x % n == if x < n then x else x - n
  {
    var q := x / n;
    assert x == q * n + x % n;
    if q == 0 {
    } else if q >= 2 {
      MulMonotone(2, q, n);
    } else {
      assert q == 1;
    }
  }
}
