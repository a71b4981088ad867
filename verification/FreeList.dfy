/** The slot allocator (src/api/xternal/xfreelist.c).

    An item pointer is modelled by the address of its item: a natural number that indexes
    `items`, the memory of every item array the list owns, in allocation order.  `NULL` is -1.
    `subs` is the chain of sublists: `subs[k+1]` is what `next` of `subs[k]` points to, and
    `subs[k]` owns the `itemNb` addresses that start at its `base`.  */
module FreeLists {

  const NULL := -1

  type Ptr = int

  /** `xfreelist_item_t`; `owner` is the index of the sublist its `freelist` field points to. */
  datatype Item<T> = Item(free: bool, data: T, next: Ptr, previous: Ptr, owner: nat)

  /** The part of `xfreelist_t` that differs between the sublists of one chain. */
  datatype SubList = SubList(base: nat, head: Ptr, tail: Ptr)

  datatype ReleaseStatus = Released | AlreadyFree | NotFound

  // ---------- the chain invariant ----------

  ghost function First(c: seq<nat>): Ptr { if c == [] then NULL else c[0] }

  ghost function Last(c: seq<nat>): Ptr { if c == [] then NULL else c[|c| - 1] }

  /** Following `next` from the first element of `c` visits exactly `c` and ends in NULL, and
      every `previous` undoes the `next` before it. */
  ghost predicate Linked<T>(items: seq<Item<T>>, c: seq<nat>) {
    && (forall i :: 0 <= i < |c| ==> c[i] < |items|)
    && (forall i {:trigger items[c[i]]} :: 0 <= i < |c| ==> items[c[i]].next == if i + 1 < |c| then c[i + 1] else NULL)
    && (forall i {:trigger items[c[i]]} :: 0 <= i < |c| ==> items[c[i]].previous == if i > 0 then c[i - 1] else NULL)
  }

  /** Sublist `s` links exactly its own free items, in the order `c`. */
  ghost predicate SubOk<T>(items: seq<Item<T>>, n: nat, s: SubList, k: nat, c: seq<nat>) {
    && s.base + n <= |items|
    && s.head == First(c)
    && s.tail == Last(c)
    && Linked(items, c)
    && (forall a :: s.base <= a < s.base + n ==> items[a].owner == k && (items[a].free <==> a in c))
    && (forall a :: a in c ==> s.base <= a < s.base + n)
  }

  /** The sublists tile the item memory in blocks of `n`. */
  ghost predicate Tiled<T>(items: seq<Item<T>>, n: nat, subs: seq<SubList>) {
    && |subs| > 0 && subs[0].base == 0
    && (forall k {:trigger subs[k + 1]} :: 0 <= k < |subs| - 1 ==> subs[k + 1].base == subs[k].base + n)
    && subs[|subs| - 1].base + n == |items|
  }

  ghost predicate ChainsOk<T>(items: seq<Item<T>>, n: nat, subs: seq<SubList>, chains: seq<seq<nat>>) {
    && n > 0
    && Tiled(items, n, subs)
    && |chains| == |subs|
    && (forall k :: 0 <= k < |subs| ==> SubOk(items, n, subs[k], k, chains[k]))
  }

  /** The first sublist with a free item, or |chains| when there is none. */
  ghost function FirstFree(chains: seq<seq<nat>>): (k: nat)
    ensures k <= |chains|
    ensures forall j :: 0 <= j < k ==> chains[j] == []
    ensures k < |chains| ==> chains[k] != []
  {
    if chains == [] || chains[0] != [] then 0 else 1 + FirstFree(chains[1..])
  }

  ghost function AddrsFrom(a: nat, n: nat): (s: seq<nat>)
    ensures |s| == n
    ensures forall i :: 0 <= i < n ==> s[i] == a + i
    ensures forall x :: x in s <==> a <= x < a + n
  {
    if n == 0 then [] else AddrsFrom(a, n - 1) + [a + n - 1]
  }

  ghost function InUseOf<T>(items: seq<Item<T>>): set<nat> {
    set a: nat | a < |items| && !items[a].free
  }

  /** Item `p` is handed out: the head of the first sublist with a free item or, when there is none,
      the first item of a new sublist, which starts at address `len`. */
  ghost predicate Lent(n: nat, len: nat, c0: seq<seq<nat>>, c1: seq<seq<nat>>, p: nat)
    requires n > 0
  {
    var k := FirstFree(c0);
    if k < |c0| then p == c0[k][0] && c1 == c0[k := c0[k][1..]]
    else p == len && c1 == c0 + [AddrsFrom(len + 1, n - 1)]
  }

  /** What one extraction does.  Items in use are untouched. */
  ghost predicate Extracted<T>(n: nat, was: seq<Item<T>>, chainsWas: seq<seq<nat>>, items: seq<Item<T>>,
      chains: seq<seq<nat>>, p: nat)
    requires n > 0
  {
    && Lent(n, |was|, chainsWas, chains, p)
    && p !in InUseOf(was) && InUseOf(items) == InUseOf(was) + {p} && p < |items|
    && items[p].next == NULL && items[p].previous == NULL && items[p].owner == FirstFree(chainsWas)
    && (forall a :: a in InUseOf(was) ==> a < |was| && items[a] == was[a])
    && |items| == |was| + if FirstFree(chainsWas) < |chainsWas| then 0 else n
  }

  /** What one release does: the item becomes the head of the free chain of the sublist that owns it. */
  ghost predicate Returned<T>(was: seq<Item<T>>, chainsWas: seq<seq<nat>>, items: seq<Item<T>>, chains: seq<seq<nat>>,
      a: nat) {
    && |items| == |was| && a < |was|
    && InUseOf(items) == InUseOf(was) - {a}
    && items[a].data == was[a].data && items[a].owner == was[a].owner < |chainsWas|
    && chains == chainsWas[was[a].owner := [a] + chainsWas[was[a].owner]]
    && forall b :: b in InUseOf(items) ==> items[b] == was[b]
  }

  class FreeList<T(0)> {
    const itemNb: nat
    var items: seq<Item<T>>
    var subs: seq<SubList>
    ghost var chains: seq<seq<nat>>

    ghost predicate Valid() reads this { itemNb > 0 && ChainsOk(items, itemNb, subs, chains) }

    ghost function InUse(): set<nat> reads this { InUseOf(items) }

    /** `xfreelist_init`.  The contents of the heap area are whatever `malloc` returned. */
    constructor (defaultLength: nat)
      requires defaultLength > 0
      ensures Valid() && itemNb == defaultLength && |items| == defaultLength && |subs| == 1
      ensures InUse() == {}
      ensures chains == [AddrsFrom(0, defaultLength)]
    {
      itemNb := defaultLength;
      new;
      items := [];
      subs := [];
      chains := [];
      AppendSubList();
    }

    /** The initialisation loop of `xfreelist_init`, for the sublist that follows the last one. */
    method AppendSubList()
      requires itemNb > 0
      requires if subs == [] then items == [] && chains == [] else Valid()
      modifies this
      ensures Valid()
      ensures |items| == old(|items|) + itemNb && old(items) == items[..|old(items)|]
      ensures subs == old(subs) + [SubList(old(|items|), old(|items|), old(|items|) + itemNb - 1)]
      ensures chains == old(chains) + [AddrsFrom(old(|items|), itemNb)]
      ensures InUse() == old(InUse())
    {
      var base := |items|;
      InitItems(|subs|);
      subs := subs + [SubList(base, base, base + itemNb - 1)];
      chains := chains + [AddrsFrom(base, itemNb)];
      AppendedUse(old(items), items);
      Appended(old(items), items, itemNb, old(subs), subs, old(chains), chains);
    }

    /** The loop of `xfreelist_init` and the two boundary writes after it. */
    method InitItems(k: nat)
      requires itemNb > 0
      modifies this`items
      ensures |items| == |old(items)| + itemNb && items[..|old(items)|] == old(items)
      ensures forall a {:trigger items[a]} :: |old(items)| <= a < |items| ==>
        && items[a].free && items[a].owner == k
        && items[a].next == (if a + 1 < |items| then a + 1 else NULL)
        && items[a].previous == (if a > |old(items)| then a - 1 else NULL)
    {
      var base := |items|;
      var i := 0;
      while i < itemNb
        invariant 0 <= i <= itemNb
        invariant |items| == base + i && items[..base] == old(items)
        invariant forall a {:trigger items[a]} :: base <= a < base + i ==>
          items[a].free && items[a].owner == k && items[a].next == a + 1 && items[a].previous == a - 1
      {
        var garbage: T := *;
        items := items + [Item(true, garbage, base + i + 1, base + i - 1, k)];
        i := i + 1;
      }
      items := items[base := items[base].(previous := NULL)];
      items := items[base + itemNb - 1 := items[base + itemNb - 1].(next := NULL)];
    }

    /** `memcpy` or `memset` into `item->data`, by whoever holds the item. */
    method Store(a: nat, data: T)
      requires Valid() && a in InUse()
      modifies this`items
      ensures Valid() && InUse() == old(InUse())
      ensures items == old(items)[a := old(items)[a].(data := data)]
    {
      items := items[a := items[a].(data := data)];
      UseKept(old(items), items, itemNb, subs, chains, a);
    }

    /** Assignments to `item->next` and `item->previous` by whoever holds the item. */
    method Relink(a: nat, next: Ptr, previous: Ptr)
      requires Valid() && a in InUse()
      modifies this`items
      ensures Valid() && InUse() == old(InUse())
      ensures items == old(items)[a := old(items)[a].(next := next, previous := previous)]
    {
      items := items[a := items[a].(next := next, previous := previous)];
      UseKept(old(items), items, itemNb, subs, chains, a);
    }

    /** `xfreelist_extract_item` on the head of the chain. */
    method Extract() returns (p: nat)
      requires Valid()
      modifies this
      ensures Valid()
      ensures Extracted(itemNb, old(items), old(chains), items, chains, p)
    {
      p := ExtractFrom(0);
    }

    /** `xfreelist_extract_item(list, pitem)`, where `list` is sublist `k`. */
    method ExtractFrom(k: nat) returns (p: nat)
      requires Valid() && k < |subs|
      requires k <= FirstFree(chains)
      modifies this
      ensures Valid()
      ensures Extracted(itemNb, old(items), old(chains), items, chains, p)
      decreases FirstFree(chains) == |chains|, FirstFree(chains) - k
    {
      assert SubOk(items, itemNb, subs[k], k, chains[k]);
      if subs[k].head == NULL {
        if k + 1 == |subs| {
          Extend(k);
          FirstFreeAppend(old(chains), AddrsFrom(|old(items)|, itemNb));
          ghost var extended := items;
          p := ExtractFrom(k + 1);
          AfterExtension(itemNb, old(items), old(chains), extended, items, chains, p);
        } else {
          p := ExtractFrom(k + 1);
        }
      } else {
        p := TakeHead(k);
        assert FirstFree(old(chains)) == k;
      }
    }

    /** `xfreelist_extend(list)`, where `list` is sublist `k`. */
    method Extend(k: nat)
      requires Valid() && k < |subs|
      modifies this
      ensures Valid()
      ensures |items| == old(|items|) + itemNb && old(items) == items[..|old(items)|]
      ensures chains == old(chains) + [AddrsFrom(old(|items|), itemNb)]
      ensures |subs| == old(|subs|) + 1
      ensures InUse() == old(InUse())
      decreases |subs| - k
    {
      if k + 1 < |subs| {
        Extend(k + 1);
      } else {
        AppendSubList();
      }
    }

    /** The branch of `xfreelist_extract_item` that unlinks the head of sublist `k`. */
    method TakeHead(k: nat) returns (p: nat)
      requires Valid() && k < |subs| && chains[k] != []
      modifies this
      ensures Valid()
      ensures FirstFree(old(chains)) == k ==> Extracted(itemNb, old(items), old(chains), items, chains, p)
    {
      ghost var was, subsWas, c := items, subs, chains[k];
      HeadOf(items, itemNb, subs[k], k, c);
      var item := subs[k].head;
      subs := subs[k := subs[k].(head := items[item].next)];
      if subs[k].head != NULL {
        items := items[subs[k].head := items[subs[k].head].(previous := NULL)];
      } else {
        subs := subs[k := subs[k].(tail := NULL)];
      }
      items := items[item := items[item].(next := NULL, previous := NULL, free := false)];
      p := item;
      chains := chains[k := c[1..]];
      assert items == Unlinked(was, c);
      TookHead(was, items, itemNb, subsWas, subs, old(chains), chains, k);
      if FirstFree(old(chains)) == k {
        TookFirst(was, items, itemNb, subsWas[k], old(chains), chains, k);
      }
    }

    /** `xfreelist_release_item(list, item)`, where `list` is sublist `k`. */
    method Release(k: nat, a: nat) returns (status: ReleaseStatus)
      requires Valid() && k < |subs|
      modifies this
      ensures Valid() && |items| == |old(items)|
      ensures status == if a < old(subs)[k].base || a >= |old(items)| then NotFound
                        else if old(items)[a].free then AlreadyFree else Released
      ensures status != Released ==> items == old(items) && subs == old(subs) && chains == old(chains)
      ensures status == Released ==> Returned(old(items), old(chains), items, chains, a)
      decreases |subs| - k
    {
      assert SubOk(items, itemNb, subs[k], k, chains[k]);
      if k + 1 < |subs| { BlocksApart(items, itemNb, subs, k, |subs| - 1); }
      if subs[k].base <= a < subs[k].base + itemNb {
        if items[a].free {
          status := AlreadyFree;
        } else {
          PutHead(k, a);
          status := Released;
        }
      } else if k + 1 < |subs| {
        status := Release(k + 1, a);
      } else {
        status := NotFound;
      }
    }

    /** `xfreelist_release_item(&freelist, item)` for an item in use: it never fails. */
    method Free(a: nat)
      requires Valid() && a in InUse()
      modifies this
      ensures Valid() && Returned(old(items), old(chains), items, chains, a)
    {
      var status := Release(0, a);
    }

    /** `xfreelist_release_item(item->freelist, item)` for an item in use: it never fails either. */
    method FreeToOwner(a: nat)
      requires Valid() && a in InUse()
      modifies this
      ensures Valid() && Returned(old(items), old(chains), items, chains, a)
    {
      OwnerBlock(items, itemNb, subs, chains, a);
      var status := Release(items[a].owner, a);
    }

    /** The branch of `xfreelist_release_item` that pushes an item of sublist `k` back. */
    method PutHead(k: nat, a: nat)
      requires Valid() && k < |subs| && subs[k].base <= a < subs[k].base + itemNb
      requires a < |items| && !items[a].free
      modifies this
      ensures Valid() && Returned(old(items), old(chains), items, chains, a)
    {
      ghost var was, subsWas, c := items, subs, chains[k];
      HeadOf(items, itemNb, subs[k], k, c);
      items := items[a := items[a].(free := true, previous := NULL)];
      if subs[k].head == NULL {
        items := items[a := items[a].(next := NULL)];
        subs := subs[k := subs[k].(head := a, tail := a)];
      } else {
        var h := subs[k].head;
        items := items[a := items[a].(next := h)];
        items := items[h := items[h].(previous := a)];
        subs := subs[k := subs[k].(head := a)];
      }
      chains := chains[k := [a] + c];
      assert items == Pushed(was, c, a);
      PutBack(was, items, itemNb, subsWas, subs, old(chains), chains, k, a);
      PutBackItems(was, items, itemNb, subsWas[k], k, c, a);
    }
  }

  // ---------- proof steps ----------

  /** Sublists other than `k` do not notice a change to items of block `k`. */
  lemma {:induction false} OthersKept<T>(was: seq<Item<T>>, items: seq<Item<T>>, n: nat, s0: seq<SubList>,
      s1: seq<SubList>, c0: seq<seq<nat>>, c1: seq<seq<nat>>, k: nat)
    requires ChainsOk(was, n, s0, c0)
    requires |items| == |was| && |s1| == |s0| && |c1| == |c0| && k < |s0|
    requires s1[k].base == s0[k].base
    requires forall j :: 0 <= j < |s0| && j != k ==> s1[j] == s0[j] && c1[j] == c0[j]
    requires forall a :: 0 <= a < |was| && !(s0[k].base <= a < s0[k].base + n) ==> items[a] == was[a]
    ensures Tiled(items, n, s1)
    ensures forall j :: 0 <= j < |s1| && j != k ==> SubOk(items, n, s1[j], j, c1[j])
  {
    forall j | 0 <= j < |s1| && j != k ensures SubOk(items, n, s1[j], j, c1[j]) {
      if j < k { BlocksApart(was, n, s0, j, k); } else { BlocksApart(was, n, s0, k, j); }
      SubKept(was, items, n, s0[j], j, c0[j]);
    }
    assert forall j :: 0 <= j < |s0| ==> s1[j].base == s0[j].base;
  }

  lemma {:induction false} SubKept<T>(was: seq<Item<T>>, items: seq<Item<T>>, n: nat, s: SubList, k: nat, c: seq<nat>)
    requires SubOk(was, n, s, k, c) && |was| <= |items|
    requires forall a :: s.base <= a < s.base + n ==> items[a] == was[a]
    ensures SubOk(items, n, s, k, c)
  {
    forall i | 0 <= i < |c| ensures c[i] < |items| && items[c[i]] == was[c[i]] {
      assert c[i] in c;
    }
  }

  lemma {:induction false} BlocksApart<T>(items: seq<Item<T>>, n: nat, subs: seq<SubList>, j: nat, k: nat)
    requires Tiled(items, n, subs)
    requires j < k < |subs|
    ensures subs[j].base + n <= subs[k].base
    decreases k - j
  {
    assert subs[j + 1].base == subs[j].base + n;
    if j + 1 >= k {
    } else {
      BlocksApart(items, n, subs, j + 1, k);
    }
  }

  /** A linked chain does not repeat: walking both occurrences back would reach the head twice. */
  lemma {:induction false} LinkedDistinct<T>(items: seq<Item<T>>, c: seq<nat>, i: nat, j: nat)
    requires Linked(items, c) && i < j < |c|
    ensures c[i] != c[j]
  {
    assert items[c[j]].previous == c[j - 1];
    assert items[c[i]].previous == if i > 0 then c[i - 1] else NULL;
    if i == 0 {
    } else {
      LinkedDistinct(items, c, i - 1, j - 1);
    }
  }

  lemma {:induction false} HeadOf<T>(items: seq<Item<T>>, n: nat, s: SubList, k: nat, c: seq<nat>)
    requires SubOk(items, n, s, k, c)
    ensures s.head == First(c) && s.tail == Last(c)
    ensures c != [] ==> c[0] < |items| && items[c[0]].free && items[c[0]].owner == k && items[c[0]].next == First(c[1..])
    ensures |c| > 1 ==> c[1] < |items| && items[c[1]].free && c[0] != c[1]
    ensures c != [] ==> s.base <= c[0] < s.base + n
    ensures |c| > 1 ==> s.base <= c[1] < s.base + n
  {
    if c != [] { assert c[0] in c; }
    if |c| > 1 { assert c[1] in c; LinkedDistinct(items, c, 0, 1); }
  }

  /** The items after the head of `c` is unlinked and handed out. */
  ghost function Unlinked<T>(items: seq<Item<T>>, c: seq<nat>): (r: seq<Item<T>>)
    requires c != [] && c[0] < |items| && (|c| > 1 ==> c[1] < |items|)
  {
    var t := if |c| > 1 then items[c[1] := items[c[1]].(previous := NULL)] else items;
    t[c[0] := t[c[0]].(next := NULL, previous := NULL, free := false)]
  }

  lemma {:induction false} LinkedTail<T>(was: seq<Item<T>>, items: seq<Item<T>>, c: seq<nat>)
    requires Linked(was, c) && c != [] && items == Unlinked(was, c)
    ensures Linked(items, c[1..])
  {
    var d := c[1..];
    forall i | 0 <= i < |d|
      ensures d[i] < |items|
      ensures items[d[i]].next == if i + 1 < |d| then d[i + 1] else NULL
      ensures items[d[i]].previous == if i > 0 then d[i - 1] else NULL
    {
      LinkedDistinct(was, c, 0, i + 1);
      if i > 0 { LinkedDistinct(was, c, 1, i + 1); }
      assert was[c[i + 1]].next == if i + 2 < |c| then c[i + 2] else NULL;
    }
  }

  lemma {:induction false} TailMembers<T>(was: seq<Item<T>>, c: seq<nat>)
    requires Linked(was, c) && c != []
    ensures forall a :: a in c[1..] <==> a in c && a != c[0]
  {
    forall i | 0 < i < |c| ensures c[i] != c[0] { LinkedDistinct(was, c, 0, i); }
    assert c == [c[0]] + c[1..];
    assert forall i :: 0 <= i < |c[1..]| ==> c[1..][i] == c[i + 1];
  }

  lemma {:induction false} TailOk<T>(was: seq<Item<T>>, items: seq<Item<T>>, n: nat, s0: SubList, s1: SubList, k: nat,
      c: seq<nat>)
    requires SubOk(was, n, s0, k, c) && c != []
    requires c[0] < |was| && (|c| > 1 ==> c[1] < |was|) && items == Unlinked(was, c)
    requires s1 == s0.(head := First(c[1..]), tail := Last(c[1..]))
    ensures SubOk(items, n, s1, k, c[1..])
  {
    HeadOf(was, n, s0, k, c);
    LinkedTail(was, items, c);
    TailMembers(was, c);
  }

  lemma {:induction false} TookHead<T>(was: seq<Item<T>>, items: seq<Item<T>>, n: nat, s0: seq<SubList>,
      s1: seq<SubList>, c0: seq<seq<nat>>, c1: seq<seq<nat>>, k: nat)
    requires ChainsOk(was, n, s0, c0) && k < |s0| && c0[k] != []
    requires c0[k][0] < |was| && (|c0[k]| > 1 ==> c0[k][1] < |was|)
    requires items == Unlinked(was, c0[k]) && c1 == c0[k := c0[k][1..]]
    requires s1 == s0[k := s0[k].(head := First(c1[k]), tail := Last(c1[k]))]
    ensures ChainsOk(items, n, s1, c1)
  {
    var c := c0[k];
    HeadOf(was, n, s0[k], k, c);
    TailOk(was, items, n, s0[k], s1[k], k, c);
    OthersKept(was, items, n, s0, s1, c0, c1, k);
  }

  lemma {:induction false} TookFirst<T>(was: seq<Item<T>>, items: seq<Item<T>>, n: nat, s: SubList, c0: seq<seq<nat>>,
      c1: seq<seq<nat>>, k: nat)
    requires n > 0 && k < |c0| && c0[k] != [] && FirstFree(c0) == k
    requires SubOk(was, n, s, k, c0[k])
    requires c0[k][0] < |was| && (|c0[k]| > 1 ==> c0[k][1] < |was|)
    requires items == Unlinked(was, c0[k]) && c1 == c0[k := c0[k][1..]]
    ensures Extracted(n, was, c0, items, c1, c0[k][0])
  {
    HeadOf(was, n, s, k, c0[k]);
    InUseAfter(was, items, c0[k][0]);
  }

  /** The items after `a` is pushed on the chain `c`. */
  ghost function Pushed<T>(items: seq<Item<T>>, c: seq<nat>, a: nat): (r: seq<Item<T>>)
    requires a < |items| && (c != [] ==> c[0] < |items|)
  {
    var t := items[a := items[a].(free := true, previous := NULL, next := First(c))];
    if c != [] then t[c[0] := t[c[0]].(previous := a)] else t
  }

  lemma {:induction false} LinkedPush<T>(was: seq<Item<T>>, items: seq<Item<T>>, c: seq<nat>, a: nat)
    requires Linked(was, c) && a !in c && a < |was| && items == Pushed(was, c, a)
    ensures Linked(items, [a] + c)
  {
    var d := [a] + c;
    forall i | 1 <= i < |d|
      ensures d[i] < |items|
      ensures items[d[i]].next == if i + 1 < |d| then d[i + 1] else NULL
      ensures items[d[i]].previous == d[i - 1]
    {
      assert d[i] == c[i - 1] && d[i] in c;
      if i > 1 { LinkedDistinct(was, c, 0, i - 1); }
      assert was[c[i - 1]].next == if i < |c| then c[i] else NULL;
    }
  }

  lemma {:induction false} PushOk<T>(was: seq<Item<T>>, items: seq<Item<T>>, n: nat, s0: SubList, s1: SubList, k: nat,
      c: seq<nat>, a: nat)
    requires SubOk(was, n, s0, k, c)
    requires s0.base <= a < s0.base + n && !was[a].free && (c != [] ==> c[0] < |was|)
    requires items == Pushed(was, c, a)
    requires s1 == s0.(head := a, tail := if c == [] then a else s0.tail)
    ensures SubOk(items, n, s1, k, [a] + c) && was[a].owner == k
  {
    HeadOf(was, n, s0, k, c);
    assert a !in c;
    LinkedPush(was, items, c, a);
    assert forall b :: b in [a] + c <==> b == a || b in c;
  }

  lemma {:induction false} PutBack<T>(was: seq<Item<T>>, items: seq<Item<T>>, n: nat, s0: seq<SubList>,
      s1: seq<SubList>, c0: seq<seq<nat>>, c1: seq<seq<nat>>, k: nat, a: nat)
    requires ChainsOk(was, n, s0, c0) && k < |s0|
    requires s0[k].base <= a < s0[k].base + n && a < |was| && !was[a].free
    requires c0[k] != [] ==> c0[k][0] < |was|
    requires items == Pushed(was, c0[k], a) && c1 == c0[k := [a] + c0[k]]
    requires s1 == s0[k := s0[k].(head := a, tail := if c0[k] == [] then a else s0[k].tail)]
    ensures ChainsOk(items, n, s1, c1)
  {
    HeadOf(was, n, s0[k], k, c0[k]);
    PushOk(was, items, n, s0[k], s1[k], k, c0[k], a);
    OthersKept(was, items, n, s0, s1, c0, c1, k);
  }

  lemma {:induction false} PutBackItems<T>(was: seq<Item<T>>, items: seq<Item<T>>, n: nat, s: SubList, k: nat,
      c: seq<nat>, a: nat)
    requires SubOk(was, n, s, k, c)
    requires s.base <= a < s.base + n && !was[a].free && (c != [] ==> c[0] < |was|)
    requires items == Pushed(was, c, a)
    ensures was[a].owner == items[a].owner == k && items[a].data == was[a].data
    ensures InUseOf(items) == InUseOf(was) - {a}
    ensures forall b :: b in InUseOf(items) ==> items[b] == was[b]
  {
    HeadOf(was, n, s, k, c);
    InUseAfter(was, items, a);
  }

  lemma {:induction false} InUseAfter<T>(was: seq<Item<T>>, items: seq<Item<T>>, a: nat)
    requires |items| == |was| && a < |was|
    requires forall b :: 0 <= b < |was| && b != a ==> items[b].free == was[b].free
    ensures InUseOf(items) == if items[a].free then InUseOf(was) - {a} else InUseOf(was) + {a}
  {
  }

  /** A block of freshly initialised items is a well-formed further sublist. */
  lemma {:induction false} Appended<T>(was: seq<Item<T>>, items: seq<Item<T>>, n: nat, s0: seq<SubList>,
      s1: seq<SubList>, c0: seq<seq<nat>>, c1: seq<seq<nat>>)
    requires n > 0
    requires if s0 == [] then was == [] && c0 == [] else ChainsOk(was, n, s0, c0)
    requires |items| == |was| + n && items[..|was|] == was
    requires s1 == s0 + [SubList(|was|, |was|, |items| - 1)] && c1 == c0 + [AddrsFrom(|was|, n)]
    requires forall a {:trigger items[a]} :: |was| <= a < |items| ==>
      && items[a].free && items[a].owner == |s0|
      && items[a].next == (if a + 1 < |items| then a + 1 else NULL)
      && items[a].previous == (if a > |was| then a - 1 else NULL)
    ensures ChainsOk(items, n, s1, c1)
  {
    forall k | 0 <= k < |s0| ensures SubOk(items, n, s0[k], k, c0[k]) {
      OldBlockKept(was, items, n, s0, c0, k);
    }
    assert SubOk(items, n, s1[|s0|], |s0|, c1[|s0|]);
    assert Tiled(items, n, s1);
  }

  lemma {:induction false} OldBlockKept<T>(was: seq<Item<T>>, items: seq<Item<T>>, n: nat, s0: seq<SubList>,
      c0: seq<seq<nat>>, k: nat)
    requires ChainsOk(was, n, s0, c0) && k < |s0|
    requires |was| <= |items| && items[..|was|] == was
    ensures SubOk(items, n, s0[k], k, c0[k])
  {
    if k + 1 < |s0| { BlocksApart(was, n, s0, k, |s0| - 1); }
    assert forall a :: 0 <= a < |was| ==> items[a] == was[a];
    SubKept(was, items, n, s0[k], k, c0[k]);
  }

  lemma {:induction false} AppendedUse<T>(was: seq<Item<T>>, items: seq<Item<T>>)
    requires |was| <= |items| && items[..|was|] == was
    requires forall a {:trigger items[a]} :: |was| <= a < |items| ==> items[a].free
    ensures InUseOf(items) == InUseOf(was)
  {
    assert forall a :: 0 <= a < |was| ==> items[a] == was[a];
  }

  lemma {:induction false} AfterExtension<T>(n: nat, was: seq<Item<T>>, chainsWas: seq<seq<nat>>,
      extended: seq<Item<T>>, items: seq<Item<T>>, chains: seq<seq<nat>>, p: nat)
    requires n > 0
    requires FirstFree(chainsWas) == |chainsWas| && |extended| == |was| + n && extended[..|was|] == was
    requires InUseOf(extended) == InUseOf(was)
    requires Extracted(n, extended, chainsWas + [AddrsFrom(|was|, n)], items, chains, p)
    ensures Extracted(n, was, chainsWas, items, chains, p)
  {
    hide AddrsFrom;
    var c := AddrsFrom(|was|, n);
    FirstFreeAppend(chainsWas, c);
    hide FirstFree;
    SecondOnwards(chainsWas, |was|, n);
    forall a | a in InUseOf(was) ensures items[a] == was[a] {
      assert a in InUseOf(extended) && extended[a] == extended[..|was|][a];
    }
  }

  lemma {:induction false} SecondOnwards(chains: seq<seq<nat>>, a: nat, n: nat)
    requires n > 0
    ensures var c := AddrsFrom(a, n);
      && (chains + [c])[|chains|] == c
      && (chains + [c])[|chains| := c[1..]] == chains + [AddrsFrom(a + 1, n - 1)]
  {
    assert AddrsFrom(a, n)[1..] == AddrsFrom(a + 1, n - 1);
  }

  lemma {:induction false} FirstFreeAppend(chains: seq<seq<nat>>, c: seq<nat>)
    requires FirstFree(chains) == |chains| && c != []
    ensures FirstFree(chains + [c]) == |chains|
  {
    assert forall j :: 0 <= j < |chains| ==> (chains + [c])[j] == chains[j];
    assert (chains + [c])[|chains|] == c;
  }

  /** The owner of an item in use may write its data and its links: the free chains do not notice. */
  lemma {:induction false} UseKept<T>(was: seq<Item<T>>, items: seq<Item<T>>, n: nat, subs: seq<SubList>,
      chains: seq<seq<nat>>, a: nat)
    requires ChainsOk(was, n, subs, chains)
    requires a < |was| && !was[a].free && |items| == |was| && !items[a].free && items[a].owner == was[a].owner
    requires forall b :: 0 <= b < |was| && b != a ==> items[b] == was[b]
    ensures ChainsOk(items, n, subs, chains)
    ensures InUseOf(items) == InUseOf(was)
  {
    forall k | 0 <= k < |subs| ensures SubOk(items, n, subs[k], k, chains[k]) {
      SubUseKept(was, items, n, subs[k], k, chains[k], a);
    }
    InUseAfter(was, items, a);
  }

  lemma {:induction false} SubUseKept<T>(was: seq<Item<T>>, items: seq<Item<T>>, n: nat, s: SubList, k: nat,
      c: seq<nat>, a: nat)
    requires SubOk(was, n, s, k, c)
    requires a < |was| && !was[a].free && |items| == |was| && !items[a].free && items[a].owner == was[a].owner
    requires forall b :: 0 <= b < |was| && b != a ==> items[b] == was[b]
    ensures SubOk(items, n, s, k, c)
  {
    forall i | 0 <= i < |c| ensures c[i] < |items| && items[c[i]] == was[c[i]] {
      assert c[i] in c;
    }
  }

  /** `item->freelist` is the sublist whose block the item lies in. */
  lemma {:induction false} OwnerBlock<T>(items: seq<Item<T>>, n: nat, subs: seq<SubList>, chains: seq<seq<nat>>, a: nat)
    requires ChainsOk(items, n, subs, chains) && a < |items|
    ensures items[a].owner < |subs| && subs[items[a].owner].base <= a < subs[items[a].owner].base + n
  {
    BlockFrom(items, n, subs, chains, a, 0);
  }

  lemma {:induction false} BlockFrom<T>(items: seq<Item<T>>, n: nat, subs: seq<SubList>, chains: seq<seq<nat>>,
      a: nat, k: nat)
    requires ChainsOk(items, n, subs, chains) && k < |subs| && subs[k].base <= a < |items|
    ensures items[a].owner < |subs| && subs[items[a].owner].base <= a < subs[items[a].owner].base + n
    decreases |subs| - k
  {
    assert SubOk(items, n, subs[k], k, chains[k]);
    if a < subs[k].base + n {
    } else {
      assert k + 1 < |subs| ==> subs[k + 1].base == subs[k].base + n;
      BlockFrom(items, n, subs, chains, a, k + 1);
    }
  }

  /** Borrowing an item and giving it back puts every free chain back as it was; when the list had to
      be extended for it, the new sublist stays behind, entirely free. */
  lemma {:induction false} BorrowReturn(n: nat, len: nat, c0: seq<seq<nat>>, c1: seq<seq<nat>>, p: nat)
    requires n > 0 && Lent(n, len, c0, c1, p)
    ensures var k := FirstFree(c0);
      k < |c1| && c1[k := [p] + c1[k]] == if k < |c0| then c0 else c0 + [AddrsFrom(len, n)]
  {
    hide AddrsFrom;
    var k := FirstFree(c0);
    if k < |c0| {
      assert [p] + c0[k][1..] == c0[k];
    } else {
      AddrsCons(p, n);
    }
  }

  lemma {:induction false} AddrsCons(a: nat, n: nat)
    requires n > 0
    ensures [a] + AddrsFrom(a + 1, n - 1) == AddrsFrom(a, n)
  {
  }

  // ---------- conservation ----------

  ghost function Total(chains: seq<seq<nat>>): nat {
    if chains == [] then 0 else Total(chains[..|chains| - 1]) + |chains[|chains| - 1]|
  }

  ghost function ElementsOf(c: seq<nat>): set<nat> { set a | a in c }

  ghost function Block(base: nat, n: nat): set<nat> { ElementsOf(AddrsFrom(base, n)) }

  lemma {:induction false} LinkedCount<T>(items: seq<Item<T>>, c: seq<nat>, m: nat)
    requires Linked(items, c) && m <= |c|
    ensures |ElementsOf(c[..m])| == m
  {
    if m == 0 {
    } else {
      LinkedCount(items, c, m - 1);
      forall i | 0 <= i < m - 1 ensures c[i] != c[m - 1] { LinkedDistinct(items, c, i, m - 1); }
      assert ElementsOf(c[..m]) == ElementsOf(c[..m - 1]) + {c[m - 1]};
    }
  }

  lemma {:induction false} BlockCount(base: nat, n: nat)
    ensures |Block(base, n)| == n
  {
    if n == 0 {
    } else {
      BlockCount(base, n - 1);
      assert Block(base, n) == Block(base, n - 1) + {base + n - 1};
    }
  }

  /** Every item is either linked in a free chain or in use: nothing leaks, nothing is counted twice. */
  lemma {:induction false} Conservation<T>(items: seq<Item<T>>, n: nat, subs: seq<SubList>, chains: seq<seq<nat>>)
    requires ChainsOk(items, n, subs, chains)
    ensures Total(chains) + |InUseOf(items)| == |subs| * n == |items|
  {
    CountUpTo(items, n, subs, chains, |subs|);
    BaseAt(items, n, subs, |subs| - 1);
    assert chains[..|subs|] == chains;
    assert InUseOf(items) == InUseBelow(items, |items|);
    assert (|subs| - 1 + 1) * n == |subs| * n;
  }

  lemma {:induction false} BaseAt<T>(items: seq<Item<T>>, n: nat, subs: seq<SubList>, k: nat)
    requires Tiled(items, n, subs) && k < |subs|
    ensures subs[k].base + n == (k + 1) * n
  {
    if k == 0 {
    } else {
      BaseAt(items, n, subs, k - 1);
      assert subs[k - 1 + 1].base == subs[k - 1].base + n;
    }
  }

  ghost function InUseBelow<T>(items: seq<Item<T>>, m: nat): set<nat> { set a | a in InUseOf(items) && a < m }

  lemma {:induction false} CountUpTo<T>(items: seq<Item<T>>, n: nat, subs: seq<SubList>, chains: seq<seq<nat>>, j: nat)
    requires ChainsOk(items, n, subs, chains) && 0 < j <= |subs|
    ensures Total(chains[..j]) + |InUseBelow(items, subs[j - 1].base + n)| == subs[j - 1].base + n
  {
    hide SubOk, InUseOf;
    var s := subs[j - 1];
    assert chains[..j][..j - 1] == chains[..j - 1];
    if j == 1 {
      assert InUseBelow(items, s.base) == {} && chains[..0] == [];
    } else {
      CountUpTo(items, n, subs, chains, j - 1);
      var i := j - 2;
      assert subs[i + 1].base == subs[i].base + n;
    }
    BlockInUse(items, n, s, j - 1, chains[j - 1]);
    InUseSplit(items, s.base, n);
  }

  lemma {:induction false} InUseSplit<T>(items: seq<Item<T>>, base: nat, n: nat)
    ensures |InUseBelow(items, base + n)| == |InUseBelow(items, base)| + |InUseIn(items, base, n)|
  {
    assert InUseBelow(items, base + n) == InUseBelow(items, base) + InUseIn(items, base, n);
  }

  ghost function InUseIn<T>(items: seq<Item<T>>, base: nat, n: nat): set<nat> {
    set a | a in InUseOf(items) && base <= a < base + n
  }

  lemma {:induction false} BlockInUse<T>(items: seq<Item<T>>, n: nat, s: SubList, k: nat, c: seq<nat>)
    requires SubOk(items, n, s, k, c)
    ensures |InUseIn(items, s.base, n)| == n - |c|
  {
    LinkedCount(items, c, |c|);
    assert c[..|c|] == c;
    BlockCount(s.base, n);
    assert ElementsOf(c) <= Block(s.base, n);
    assert InUseIn(items, s.base, n) == Block(s.base, n) - ElementsOf(c);
  }
}
