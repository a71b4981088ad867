/** The socket queue (src/api/xternal/xqueue.c): items of a slot allocator, linked through the same
    `next` and `previous` fields the allocator uses while they are free. */
module Queues {
  import opened FreeLists

  datatype QueueStatus = Success | FreelistIsEmpty | QueueIsEmpty

  class Queue<T(0)> {
    const freelist: FreeList<T>
    const itemSize: nat
    var head: Ptr
    var tail: Ptr
    /** The queued items from `head` to `tail`: newest first. */
    ghost var order: seq<nat>

    /** The items in use are exactly the queued ones, linked both ways from head to tail. */
    ghost predicate Valid() reads this, freelist {
      && freelist.Valid()
      && freelist.InUse() == ElementsOf(order)
      && head == First(order) && tail == Last(order)
      && Linked(freelist.items, order)
    }

    /** What is queued, oldest first. */
    ghost function Contents(): seq<T> reads this, freelist requires Valid() {
      DataOf(freelist.items, order)
    }

    /** `xqueue_init` */
    constructor (defaultLength: nat, itemSize: nat)
      requires defaultLength > 0
      ensures Valid() && Contents() == [] && fresh(freelist) && this.itemSize == itemSize
    {
      freelist := new FreeList(defaultLength);
      this.itemSize := itemSize;
      head, tail := NULL, NULL;
      order := [];
    }

    /** `xqueue_enqueue_base`; the pool can always be extended, so the producer never waits. */
    method Enqueue(data: T, length: nat) returns (status: QueueStatus)
      requires Valid()
      modifies this, freelist
      ensures Valid()
      ensures if length > itemSize then status == FreelistIsEmpty && Contents() == old(Contents())
              else status == Success && Contents() == old(Contents()) + [data]
    {
      hide ChainsOk, Linked, FirstFree, AddrsFrom, DataOf;
      if length > itemSize {
        return FreelistIsEmpty;
      }
      ghost var i0, c := freelist.items, order;
      Members(i0, c);
      var item := freelist.Extract();
      freelist.Store(item, data);
      LinkHead(item);
      Queued(i0, freelist.items, c, item);
      status := Success;
    }

    /** The links the enqueue sets: the new item goes in front of the head. */
    method LinkHead(item: nat)
      requires freelist.Valid() && head == First(order) && tail == Last(order)
      requires freelist.InUse() == ElementsOf(order) + {item} && item !in ElementsOf(order)
      requires freelist.items[item].previous == NULL
      modifies this, freelist`items
      ensures freelist.Valid() && freelist.InUse() == old(freelist.InUse())
      ensures order == [item] + old(order) && head == item && tail == Last(order)
      ensures |freelist.items| == |old(freelist.items)|
      ensures freelist.items[item] == old(freelist.items[item]).(next := First(old(order)))
      ensures old(order) != [] ==> var h := old(order)[0];
        h < |freelist.items| && freelist.items[h] == old(freelist.items)[h].(previous := item)
      ensures forall b :: 0 <= b < |freelist.items| && b != item && b != First(old(order)) ==>
        freelist.items[b] == old(freelist.items)[b]
    {
      hide ChainsOk;
      if head == NULL {
        freelist.Relink(item, NULL, freelist.items[item].previous);
        head, tail := item, item;
      } else {
        freelist.Relink(item, head, freelist.items[item].previous);
        freelist.Relink(head, freelist.items[head].next, item);
        head := item;
      }
      order := [item] + order;
      assert order[|order| - 1] == if old(order) == [] then item else old(order)[|old(order)| - 1];
    }

    /** `xqueue_dequeue_base` once it no longer waits: the queue is not empty, or `blocking` is off. */
    method Dequeue(length: nat, prior: T) returns (status: QueueStatus, data: T)
      requires Valid()
      modifies this, freelist
      ensures Valid()
      ensures if old(Contents()) == [] then status == QueueIsEmpty && Contents() == [] && data == prior
              else if length > itemSize then status == FreelistIsEmpty && Contents() == old(Contents()) && data == prior
              else status == Success && data == old(Contents())[0] && Contents() == old(Contents())[1..]
    {
      hide ChainsOk, Linked, FirstFree, AddrsFrom, DataOf;
      ghost var i0, c := freelist.items, order;
      Members(i0, c);
      data := prior;
      if tail == NULL {
        return QueueIsEmpty, data;
      }
      if length > itemSize {
        return FreelistIsEmpty, data;
      }
      var item := tail;
      TailOf(i0, c);
      tail := freelist.items[item].previous;
      if tail != NULL {
        freelist.Relink(tail, NULL, freelist.items[tail].previous);
      } else {
        head := NULL;
      }
      freelist.Relink(item, NULL, NULL);
      data := freelist.items[item].data;
      order := c[..|c| - 1];
      freelist.Free(item);
      Unqueued(i0, freelist.items, c);
      status := Success;
    }

    /** `xqueue_get_length` */
    method GetLength() returns (length: nat)
      requires Valid()
      ensures length == |Contents()|
    {
      hide ChainsOk;
      length := 0;
      var item := head;
      while item != NULL
        invariant length <= |order| && item == if length < |order| then order[length] else NULL
        decreases |order| - length
      {
        assert freelist.items[order[length]].next == if length + 1 < |order| then order[length + 1] else NULL;
        length := length + 1;
        item := freelist.items[item].next;
      }
    }
  }

  /** The data of a chain, last item first. */
  ghost function DataOf<T>(items: seq<Item<T>>, c: seq<nat>): (r: seq<T>)
    requires Linked(items, c)
    ensures |r| == |c|
  {
    seq(|c|, i requires 0 <= i < |c| => items[c[|c| - 1 - i]].data)
  }

  lemma {:induction false} Members<T>(items: seq<Item<T>>, c: seq<nat>)
    requires Linked(items, c)
    ensures forall i :: 0 <= i < |c| ==> c[i] < |items| && c[i] in ElementsOf(c)
    ensures |DataOf(items, c)| == |c|
  {
  }

  /** Linking a new item in front of the head puts its data at the end of the queue. */
  lemma {:induction false} Queued<T>(i0: seq<Item<T>>, i1: seq<Item<T>>, c: seq<nat>, a: nat)
    requires Linked(i0, c) && a < |i1| && |i0| <= |i1|
    requires i1[a].next == First(c) && i1[a].previous == NULL
    requires c != [] ==> c[0] < |i0| && i1[c[0]] == i0[c[0]].(previous := a)
    requires forall b :: b in ElementsOf(c) && b != First(c) ==> b < |i0| && i1[b] == i0[b]
    ensures Linked(i1, [a] + c)
    ensures DataOf(i1, [a] + c) == DataOf(i0, c) + [i1[a].data]
    ensures ElementsOf([a] + c) == ElementsOf(c) + {a}
  {
    hide Linked, Relinked;
    forall i | 0 <= i < |c| ensures Relinked(i0, i1, c, a, i) && SameData(i0, i1, c, i) {
      StillLinked(i0, i1, c, a, i);
    }
    FrontLinked(i0, i1, c, a);
    FrontData(i0, i1, c, a);
  }

  ghost predicate SameData<T>(i0: seq<Item<T>>, i1: seq<Item<T>>, c: seq<nat>, i: nat)
    requires i < |c|
  {
    c[i] < |i0| && c[i] < |i1| && i1[c[i]].data == i0[c[i]].data
  }

  lemma {:induction false} StillLinked<T>(i0: seq<Item<T>>, i1: seq<Item<T>>, c: seq<nat>, a: nat, i: nat)
    requires Linked(i0, c) && i < |c| && |i0| <= |i1|
    requires c[0] < |i0| && i1[c[0]] == i0[c[0]].(previous := a)
    requires forall b :: b in ElementsOf(c) && b != First(c) ==> b < |i0| && i1[b] == i0[b]
    ensures Relinked(i0, i1, c, a, i) && SameData(i0, i1, c, i)
  {
    hide Linked;
    LinkedAt(i0, c, i);
    assert c[i] in ElementsOf(c);
    if i > 0 { LinkedDistinct(i0, c, 0, i); }
  }

  lemma {:induction false} FrontLinked<T>(i0: seq<Item<T>>, i1: seq<Item<T>>, c: seq<nat>, a: nat)
    requires Linked(i0, c) && a < |i1|
    requires i1[a].next == First(c) && i1[a].previous == NULL
    requires forall i :: 0 <= i < |c| ==> Relinked(i0, i1, c, a, i)
    ensures Linked(i1, [a] + c)
  {
    hide Linked, Relinked, NextIs;
    var d := [a] + c;
    forall i | 0 <= i < |d| ensures NextIs(i1, d, i) {
      if i == 0 {
        FrontNext(i1, c, a);
      } else {
        assert Relinked(i0, i1, c, a, i - 1);
        LaterNext(i0, i1, c, a, i - 1);
      }
    }
    LinkedFrom(i1, d);
  }

  /** The `i`th item of a chain keeps its link, and the new item `a` comes in front of the first. */
  ghost predicate Relinked<T>(i0: seq<Item<T>>, i1: seq<Item<T>>, c: seq<nat>, a: nat, i: nat)
    requires i < |c|
  {
    && c[i] < |i0| && c[i] < |i1|
    && i1[c[i]].next == i0[c[i]].next && i1[c[i]].previous == if i == 0 then a else c[i - 1]
  }

  /** The links of the `i`th item of the chain `d`. */
  ghost predicate NextIs<T>(items: seq<Item<T>>, d: seq<nat>, i: nat)
    requires i < |d|
  {
    && d[i] < |items|
    && items[d[i]].next == (if i + 1 < |d| then d[i + 1] else NULL)
    && items[d[i]].previous == if i > 0 then d[i - 1] else NULL
  }

  lemma {:induction false} FrontNext<T>(items: seq<Item<T>>, c: seq<nat>, a: nat)
    requires a < |items| && items[a].next == First(c) && items[a].previous == NULL
    ensures NextIs(items, [a] + c, 0)
  {
  }

  lemma {:induction false} LaterNext<T>(i0: seq<Item<T>>, i1: seq<Item<T>>, c: seq<nat>, a: nat, i: nat)
    requires Linked(i0, c) && i < |c| && Relinked(i0, i1, c, a, i)
    ensures NextIs(i1, [a] + c, i + 1)
  {
    hide Linked;
    LinkedAt(i0, c, i);
    var d := [a] + c;
    assert d[i + 1] == c[i] && d[i] == (if i == 0 then a else c[i - 1]) && (i + 1 < |c| ==> d[i + 2] == c[i + 1]);
  }

  /** What a chain says of its `i`th item, and back. */
  lemma {:induction false} LinkedAt<T>(items: seq<Item<T>>, c: seq<nat>, i: nat)
    requires Linked(items, c) && i < |c|
    ensures NextIs(items, c, i)
  {
  }

  lemma {:induction false} LinkedFrom<T>(items: seq<Item<T>>, d: seq<nat>)
    requires forall i :: 0 <= i < |d| ==> NextIs(items, d, i)
    ensures Linked(items, d)
  {
    forall i | 0 <= i < |d| ensures d[i] < |items| { assert NextIs(items, d, i); }
    forall i {:trigger items[d[i]]} | 0 <= i < |d|
      ensures items[d[i]].next == if i + 1 < |d| then d[i + 1] else NULL
      ensures items[d[i]].previous == if i > 0 then d[i - 1] else NULL
    {
      assert NextIs(items, d, i);
    }
  }

  lemma {:induction false} FrontData<T>(i0: seq<Item<T>>, i1: seq<Item<T>>, c: seq<nat>, a: nat)
    requires Linked(i0, c) && Linked(i1, [a] + c) && a < |i1|
    requires forall i :: 0 <= i < |c| ==> SameData(i0, i1, c, i)
    ensures DataOf(i1, [a] + c) == DataOf(i0, c) + [i1[a].data]
    ensures ElementsOf([a] + c) == ElementsOf(c) + {a}
  {
    hide Linked;
    var d := [a] + c;
    forall k | 0 <= k < |c| ensures DataOf(i1, d)[k] == DataOf(i0, c)[k] {
      assert d[|d| - 1 - k] == c[|c| - 1 - k] && SameData(i0, i1, c, |c| - 1 - k);
    }
  }

  lemma {:induction false} TailOf<T>(items: seq<Item<T>>, c: seq<nat>)
    requires Linked(items, c) && c != []
    ensures var n := |c| - 1;
      && c[n] < |items| && items[c[n]].previous == Last(c[..n])
      && (n > 0 ==> c[n - 1] != c[n] && c[n - 1] < |items| && c[n - 1] in ElementsOf(c))
      && c[n] in ElementsOf(c) && DataOf(items, c)[0] == items[c[n]].data
      && First(c[..n]) == (if n > 0 then First(c) else NULL)
  {
    var n := |c| - 1;
    assert items[c[n]].previous == if n > 0 then c[n - 1] else NULL;
    if n > 0 { LinkedDistinct(items, c, n - 1, n); }
  }

  /** Unlinking the tail and releasing it drops the oldest entry. */
  lemma {:induction false} Unqueued<T>(i0: seq<Item<T>>, i2: seq<Item<T>>, c: seq<nat>)
    requires Linked(i0, c) && c != [] && |i2| == |i0| && c[|c| - 1] < |i0|
    requires |c| > 1 ==> c[|c| - 2] < |i0| && i2[c[|c| - 2]] == i0[c[|c| - 2]].(next := NULL)
    requires forall b :: b in ElementsOf(c) && b != c[|c| - 1] && (|c| > 1 ==> b != c[|c| - 2]) ==> b < |i0| && i2[b] == i0[b]
    ensures var d := c[..|c| - 1];
      Linked(i2, d) && DataOf(i2, d) == DataOf(i0, c)[1..] && ElementsOf(d) == ElementsOf(c) - {c[|c| - 1]}
  {
    var n := |c| - 1;
    var d := c[..n];
    forall i | 0 <= i < |d|
      ensures d[i] < |i2| && d[i] != c[n] && i2[d[i]].data == i0[c[i]].data
      ensures i2[d[i]].next == if i + 1 < |d| then d[i + 1] else NULL
      ensures i2[d[i]].previous == if i > 0 then d[i - 1] else NULL
    {
      assert c[i] in ElementsOf(c);
      LinkedDistinct(i0, c, i, n);
      if i + 1 < n { LinkedDistinct(i0, c, i, n - 1); }
      assert i0[c[i]].next == if i + 1 < |c| then c[i + 1] else NULL;
    }
    BackData(i0, i2, c);
  }

  lemma {:induction false} BackData<T>(i0: seq<Item<T>>, i2: seq<Item<T>>, c: seq<nat>)
    requires c != [] && Linked(i0, c) && Linked(i2, c[..|c| - 1])
    requires forall i {:trigger c[i]} :: 0 <= i < |c| - 1 ==>
      c[i] < |i0| && c[i] < |i2| && c[i] != c[|c| - 1] && i2[c[i]].data == i0[c[i]].data
    ensures var d := c[..|c| - 1];
      DataOf(i2, d) == DataOf(i0, c)[1..] && ElementsOf(d) == ElementsOf(c) - {c[|c| - 1]}
  {
    hide Linked;
    var d := c[..|c| - 1];
    forall k | 0 <= k < |d| ensures DataOf(i2, d)[k] == DataOf(i0, c)[k + 1] {
      assert d[|d| - 1 - k] == c[|c| - 2 - k];
    }
    assert c == d + [c[|c| - 1]];
  }
}
