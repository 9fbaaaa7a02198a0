/** The array-backed FIFO behind every expiry queue. */
module CacheQueue {
  import opened Bytes
  import opened CacheSpec

  const QUEUE_SHRINK_CAP := 1024
  const BLANK := Item([], 0)

  lemma {:induction false} KeepCurrentAppend(data: map<Key, Entry>, q: seq<Item>, it: Item)
    ensures KeepCurrent(data, q + [it]) == KeepCurrent(data, q) + (if Current(data, it) then [it] else [])
  {
    if q == [] {
      assert q + [it] == [it];
      assert KeepCurrent(data, [it][1..]) == [];
    } else {
      KeepCurrentAppend(data, q[1..], it);
      assert (q + [it])[1..] == q[1..] + [it];
    }
  }

  lemma {:induction false} KeepCurrentNone(data: map<Key, Entry>, q: seq<Item>)
    requires q == []
    ensures KeepCurrent(data, q) == []
  {
  }

  /** `items[..head]` have been popped, `items[head..count]` are queued, and the slots past
      `count` hold no key. The ghost counters weigh the items its own compaction moves against
      the items popped. */
  class Queue {
    const ttl: int
    var items: array<Item>
    var count: nat
    var head: nat
    ghost var popped: nat
    ghost var moved: nat

    ghost predicate Valid()
      reads this, items
    {
      && head <= count <= items.Length
      && moved + head <= popped
      && (forall j :: count <= j < items.Length ==> items[j] == BLANK)
    }

    ghost function Contents(): seq<Item>
      reads this, items
      requires Valid()
    {
      items[head..count]
    }

    constructor (ttl: int)
      ensures Valid() && fresh(items) && Contents() == [] && this.ttl == ttl
    {
      this.ttl := ttl;
      items := new Item[0];
      count, head, popped, moved := 0, 0, 0, 0;
    }

    function Len(): (n: nat)
      reads this, items
      requires Valid()
      ensures n == |Contents()|
    {
      count - head
    }

    function Peek(): (it: Item)
      reads this, items
      requires Valid() && Contents() != []
      ensures it == Contents()[0]
    {
      items[head]
    }

    method Push(it: Item)
      requires Valid()
      modifies this, items
      ensures Valid() && (items == old(items) || fresh(items))
      ensures Contents() == old(Contents()) + [it]
      ensures popped == old(popped) && moved == old(moved)
    {
      if count == items.Length {
        Grow();
      }
      items[count] := it;
      count := count + 1;
    }

    /** Moves the items to an array with room for as many again. */
    method Grow()
      requires Valid() && count == items.Length
      modifies `items
      ensures Valid() && fresh(items) && count < items.Length && items[..count] == old(items[..count])
    {
      var grown := new Item[2 * count + 1](_ => BLANK);
      for j := 0 to count
        invariant unchanged(this) && unchanged(items)
        invariant forall k :: 0 <= k < j ==> grown[k] == items[k]
        invariant forall k :: j <= k < grown.Length ==> grown[k] == BLANK
      {
        grown[j] := items[j];
      }
      items := grown;
    }

    /** A pop hands out the items in FIFO order. Over the life of the queue the compaction it
        triggers moves no more items than have been popped. */
    method Pop() returns (it: Item)
      requires Valid() && Contents() != []
      modifies this, items
      ensures Valid() && (items == old(items) || fresh(items))
      ensures it == old(Contents())[0] && Contents() == old(Contents())[1..]
      ensures popped == old(popped) + 1 && moved <= popped
    {
      it := items[head];
      head := head + 1;
      popped := popped + 1;
      if 2 * head >= count {
        Compact();
      }
    }

    method ToSmaller()
      requires Valid()
      modifies this
      ensures Valid() && fresh(items) && head == 0
      ensures Contents() == old(Contents()) && popped == old(popped) && moved == old(moved)
    {
      var n := count - head;
      var small := new Item[2 * n](_ => BLANK);
      for j := 0 to n
        invariant unchanged(this) && unchanged(items)
        invariant forall k :: 0 <= k < j ==> small[k] == items[head + k]
        invariant forall k :: j <= k < small.Length ==> small[k] == BLANK
      {
        small[j] := items[head + j];
      }
      items, head, count := small, 0, n;
    }

    /** Copies the `n` queued items to the front of the array. */
    method Slide(n: nat)
      requires Valid() && n == count - head
      modifies items
      ensures items[..n] == old(items[head..count]) && items[count..] == old(items[count..])
    {
      ghost var was := items[..];
      for j := 0 to n
        invariant items[..j] == was[head..head + j]
        invariant items[head + j..] == was[head + j..]
      {
        assert items[head + j] == was[head + j];
        items[j] := items[head + j];
      }
    }

    method ToFront()
      requires Valid()
      modifies this, items
      ensures Valid() && items == old(items) && head == 0
      ensures Contents() == old(Contents()) && popped == old(popped) && moved == old(moved)
    {
      var n := count - head;
      Slide(n);
      ghost var front, back := items[..n], items[count..];
      Clear(n, count);
      assert items[..n] == front && items[count..] == back;
      head, count := 0, n;
    }

    /** Moves the queued items to the front, or to a smaller array when they fill under an
        eighth of it. */
    method Compact()
      requires Valid() && 2 * head >= count
      modifies this, items
      ensures Valid() && (items == old(items) || fresh(items))
      ensures Contents() == old(Contents()) && head == 0
      ensures popped == old(popped) && moved == old(moved) + |Contents()|
    {
      ghost var n := count - head;
      if items.Length > QUEUE_SHRINK_CAP && 8 * (count - head) < items.Length {
        ToSmaller();
      } else {
        ToFront();
      }
      moved := moved + n;
    }

    method Clear(from: nat, to: nat)
      requires from <= to <= items.Length
      modifies items
      ensures forall j :: from <= j < to ==> items[j] == BLANK
      ensures forall j :: 0 <= j < items.Length && !(from <= j < to) ==> items[j] == old(items[j])
    {
      for j := from to to
        invariant forall k :: from <= k < j ==> items[k] == BLANK
        invariant forall k :: 0 <= k < items.Length && !(from <= k < j) ==> items[k] == old(items[k])
      {
        items[j] := BLANK;
      }
    }

    /** Copies the current items, in order, to the front of the array. */
    method Filter(data: map<Key, Entry>) returns (kept: nat)
      requires Valid()
      modifies items
      ensures kept <= count && items[..kept] == KeepCurrent(data, old(Contents()))
      ensures items[count..] == old(items[count..])
    {
      hide KeepCurrent, Current;
      kept := 0;
      ghost var was := items[..];
      KeepCurrentNone(data, was[head..head]);
      for j := head to count
        invariant kept <= j - head
        invariant items[..kept] == KeepCurrent(data, was[head..j])
        invariant items[j..] == was[j..]
      {
        assert items[j] == was[j];
        KeepCurrentAppend(data, was[head..j], was[j]);
        assert was[head..j + 1] == was[head..j] + [was[j]];
        if Current(data, items[j]) {
          items[kept] := items[j];
          kept := kept + 1;
        }
      }
    }

    /** Filters the queue down to its current items in place. */
    method Keep(data: map<Key, Entry>) returns (kept: nat)
      requires Valid()
      modifies this, items
      ensures Valid() && items == old(items)
      ensures Contents() == KeepCurrent(data, old(Contents())) && kept == |Contents()|
      ensures popped == old(popped) && moved == old(moved)
    {
      hide KeepCurrent;
      kept := Filter(data);
      ghost var rest := items[..kept];
      assert forall k :: count <= k < items.Length ==> items[k] == items[count..][k - count];
      Clear(kept, count);
      head, count := 0, kept;
      assert Contents() == rest;
    }
  }
}
