/** The keyed store (src/api/xternal/xlibrary.c): a search tree of reference slots over two slot
    allocators, one for the references and one for the objects they name. */
module Libraries {
  import opened Text
  import opened FreeLists

  /** XLIBRARY_REFERENCE_MAXLENGTH */
  const REFERENCE_MAX := 128

  /** `xlibrary_item_t`; `obj` is the address of an item of the object allocator and `owned`
      says whether the `library` field is set. */
  datatype Entry = Entry(reference: string, obj: Ptr, owned: bool, timestamp: int, flag: int)

  /** The contents of an entry after `memset(…, '\0', …)`. */
  const ZERO_ENTRY := Entry("", NULL, false, 0, 0)

  datatype LibraryStatus = Success | ItemNotFound | ObjectNotFound

  type Slots = seq<Item<Entry>>

  // ---------- the search tree, as its nodes in order ----------

  /** `_cmp_item_by_reference` */
  function CompareItems(refs: Slots, a: nat, b: nat): int
    requires a < |refs| && b < |refs|
  {
    CmpN(refs[a].data.reference, refs[b].data.reference, REFERENCE_MAX)
  }

  ghost predicate InOrder(refs: Slots, root: seq<nat>) {
    && (forall i :: 0 <= i < |root| ==> root[i] < |refs|)
    && (forall i, j :: 0 <= i < j < |root| ==> CompareItems(refs, root[i], root[j]) < 0)
  }

  /** `tfind` */
  function TFind(refs: Slots, root: seq<nat>, w: nat): (r: Ptr)
    requires InOrder(refs, root) && w < |refs|
    ensures r != NULL ==> 0 <= r && r in root && CompareItems(refs, w, r) == 0
    ensures r == NULL ==> forall a :: a in root ==> a < |refs| && CompareItems(refs, w, a) != 0
  {
    if root == [] then NULL
    else if CompareItems(refs, w, root[0]) == 0 then root[0]
    else
      assert root == [root[0]] + root[1..];
      TFind(refs, root[1..], w)
  }

  /** `tsearch`: inserts `w` unless an equal node is there. */
  function TSearch(refs: Slots, root: seq<nat>, w: nat): seq<nat>
    requires InOrder(refs, root) && w < |refs|
  {
    if root == [] then [w]
    else if CompareItems(refs, w, root[0]) < 0 then [w] + root
    else if CompareItems(refs, w, root[0]) == 0 then root
    else [root[0]] + TSearch(refs, root[1..], w)
  }

  /** `tdelete` */
  function TDelete(refs: Slots, root: seq<nat>, w: nat): seq<nat>
    requires InOrder(refs, root) && w < |refs|
  {
    if root == [] then []
    else if CompareItems(refs, w, root[0]) == 0 then root[1..]
    else [root[0]] + TDelete(refs, root[1..], w)
  }

  lemma {:induction false} CompareZero(refs: Slots, a: nat, b: nat)
    requires a < |refs| && b < |refs|
    ensures CompareItems(refs, a, b) == 0 <==>
      Cut(refs[a].data.reference, REFERENCE_MAX) == Cut(refs[b].data.reference, REFERENCE_MAX)
  {
    CmpEqual(Cut(refs[a].data.reference, REFERENCE_MAX), Cut(refs[b].data.reference, REFERENCE_MAX));
  }

  lemma {:induction false} HeadBelow(refs: Slots, root: seq<nat>)
    requires InOrder(refs, root) && root != []
    ensures InOrder(refs, root[1..])
    ensures forall a :: a in root <==> a == root[0] || a in root[1..]
    ensures forall a :: a in root[1..] ==> a < |refs| && CompareItems(refs, root[0], a) < 0
  {
    assert root == [root[0]] + root[1..];
    forall a | a in root[1..] ensures a < |refs| && CompareItems(refs, root[0], a) < 0 {
      var i :| 0 <= i < |root[1..]| && root[1..][i] == a;
      assert root[i + 1] == a;
    }
  }

  lemma {:induction false} ConsInOrder(refs: Slots, h: nat, rest: seq<nat>)
    requires InOrder(refs, rest) && h < |refs|
    requires forall a :: a in rest ==> a < |refs| && CompareItems(refs, h, a) < 0
    ensures InOrder(refs, [h] + rest)
  {
    forall i | 0 <= i < |rest| ensures rest[i] in rest {}
  }

  lemma {:induction false} CompareChain(refs: Slots, a: nat, b: nat, c: nat)
    requires a < |refs| && b < |refs| && c < |refs|
    ensures CompareItems(refs, a, b) == -CompareItems(refs, b, a)
    ensures CompareItems(refs, a, b) < 0 && CompareItems(refs, b, c) < 0 ==> CompareItems(refs, a, c) < 0
  {
    var n := REFERENCE_MAX;
    var s, t, u := Cut(refs[a].data.reference, n), Cut(refs[b].data.reference, n), Cut(refs[c].data.reference, n);
    CmpFlip(t, s);
    if Cmp(s, t) < 0 && Cmp(t, u) < 0 { CmpTransitive(s, t, u); }
  }

  lemma {:induction false} TSearchInserts(refs: Slots, root: seq<nat>, w: nat)
    requires InOrder(refs, root) && w < |refs|
    requires forall a :: a in root ==> a < |refs| && CompareItems(refs, w, a) != 0
    ensures InOrder(refs, TSearch(refs, root, w))
    ensures forall a :: a in TSearch(refs, root, w) <==> a == w || a in root
  {
    if root == [] {
    } else {
      HeadBelow(refs, root);
      if CompareItems(refs, w, root[0]) < 0 {
        forall a | a in root[1..] ensures CompareItems(refs, w, a) < 0 { CompareChain(refs, w, root[0], a); }
        ConsInOrder(refs, w, root);
      } else {
        TSearchInserts(refs, root[1..], w);
        CompareChain(refs, root[0], w, w);
        ConsInOrder(refs, root[0], TSearch(refs, root[1..], w));
      }
    }
  }

  lemma {:induction false} TDeleteRemoves(refs: Slots, root: seq<nat>, w: nat)
    requires InOrder(refs, root) && w in root && w < |refs|
    ensures InOrder(refs, TDelete(refs, root, w))
    ensures forall a :: a in TDelete(refs, root, w) <==> a != w && a in root
  {
    HeadBelow(refs, root);
    CompareZero(refs, w, w);
    if root[0] != w {
      CompareChain(refs, w, root[0], w);
      TDeleteRemoves(refs, root[1..], w);
      ConsInOrder(refs, root[0], TDelete(refs, root[1..], w));
    } else if w in root[1..] {
      assert false;
    }
  }

  lemma {:induction false} InOrderKept(was: Slots, refs: Slots, root: seq<nat>)
    requires InOrder(was, root)
    requires forall a :: a in root ==> a < |was| && a < |refs| && refs[a].data == was[a].data
    ensures InOrder(refs, root)
  {
    forall i | 0 <= i < |root| ensures root[i] in root {}
  }

  // ---------- the store behind the tree ----------

  ghost function NodesOf(root: seq<nat>): set<nat> { set a | a in root }

  /** Node `a` is a live entry that the two inverse maps lead back to. */
  ghost predicate NodeOk<V>(refs: Slots, objs: seq<Item<V>>, slotOf: map<string, nat>, ownerOf: map<nat, nat>, a: nat) {
    && a < |refs| && !refs[a].free
    && var e := refs[a].data;
    && e.owned && |e.reference| <= REFERENCE_MAX
    && e.reference in slotOf && slotOf[e.reference] == a
    && 0 <= e.obj < |objs| && !objs[e.obj].free
    && e.obj in ownerOf && ownerOf[e.obj] == a
  }

  /** The nodes of the tree are live entries, `slotOf` finds the node of each reference and
      `ownerOf` the node of each object: references, nodes and objects correspond one to one. */
  ghost predicate Catalog<V>(refs: Slots, objs: seq<Item<V>>, root: seq<nat>, slotOf: map<string, nat>,
      ownerOf: map<nat, nat>) {
    && (forall a :: a in root ==> NodeOk(refs, objs, slotOf, ownerOf, a))
    && (forall k :: k in slotOf ==> slotOf[k] in root && refs[slotOf[k]].data.reference == k)
    && (forall o :: o in ownerOf ==> ownerOf[o] in root && refs[ownerOf[o]].data.obj == o)
  }

  /** The map from references to objects that a catalogue represents. */
  ghost function MapOf<V>(refs: Slots, objs: seq<Item<V>>, root: seq<nat>, slotOf: map<string, nat>,
      ownerOf: map<nat, nat>): map<string, V>
    requires Catalog(refs, objs, root, slotOf, ownerOf)
  {
    map k | k in slotOf :: objs[refs[slotOf[k]].data.obj].data
  }

  /** Searching the tree for a key finds the node the map has under it. */
  lemma {:induction false} CatalogFind<V>(refs: Slots, objs: seq<Item<V>>, root: seq<nat>, slotOf: map<string, nat>,
      ownerOf: map<nat, nat>, w: nat)
    requires Catalog(refs, objs, root, slotOf, ownerOf) && InOrder(refs, root) && w < |refs|
    ensures var k, r := Cut(refs[w].data.reference, REFERENCE_MAX), TFind(refs, root, w);
      var m := MapOf(refs, objs, root, slotOf, ownerOf);
      if k in m then
        && r != NULL && r == slotOf[k] && r in root && 0 <= r < |refs| && refs[r].data.reference == k
        && NodeOk(refs, objs, slotOf, ownerOf, r) && m[k] == objs[refs[r].data.obj].data
      else r == NULL
  {
    var k, r := Cut(refs[w].data.reference, REFERENCE_MAX), TFind(refs, root, w);
    if r != NULL {
      CompareZero(refs, w, r);
    } else if k in slotOf {
      CompareZero(refs, w, slotOf[k]);
      assert false;
    }
  }

  /** A catalogue does not depend on anything but its own nodes and objects. */
  lemma {:induction false} CatalogKept<V>(r0: Slots, r1: Slots, o0: seq<Item<V>>, o1: seq<Item<V>>, root: seq<nat>,
      slotOf: map<string, nat>, ownerOf: map<nat, nat>)
    requires Catalog(r0, o0, root, slotOf, ownerOf)
    requires forall a :: a in root ==> a < |r1| && r1[a] == r0[a]
    requires forall o :: o in ownerOf ==> o < |o1| && o1[o] == o0[o]
    ensures Catalog(r1, o1, root, slotOf, ownerOf)
    ensures MapOf(r1, o1, root, slotOf, ownerOf) == MapOf(r0, o0, root, slotOf, ownerOf)
  {
  }

  lemma {:induction false} CatalogDelete<V>(refs: Slots, objs: seq<Item<V>>, r0: seq<nat>, r1: seq<nat>,
      s0: map<string, nat>, s1: map<string, nat>, o0: map<nat, nat>, o1: map<nat, nat>, a: nat)
    requires Catalog(refs, objs, r0, s0, o0) && a in r0 && a < |refs|
    requires forall b :: b in r1 <==> b != a && b in r0
    requires s1 == s0 - {refs[a].data.reference} && o1 == o0 - {refs[a].data.obj}
    ensures Catalog(refs, objs, r1, s1, o1)
    ensures NodesOf(r1) == NodesOf(r0) - {a}
    ensures MapOf(refs, objs, r1, s1, o1) == MapOf(refs, objs, r0, s0, o0) - {refs[a].data.reference}
  {
    assert NodeOk(refs, objs, s0, o0, a);
    forall b | b in r1 ensures NodeOk(refs, objs, s1, o1, b) {
      assert NodeOk(refs, objs, s0, o0, b);
    }
  }

  lemma {:induction false} CatalogInsert<V>(refs: Slots, objs: seq<Item<V>>, r0: seq<nat>, r1: seq<nat>,
      s0: map<string, nat>, s1: map<string, nat>, o0: map<nat, nat>, o1: map<nat, nat>, a: nat, o: nat)
    requires Catalog(refs, objs, r0, s0, o0)
    requires a < |refs| && o < |objs| && a !in r0 && o !in o0
    requires refs[a].data.reference !in s0
    requires forall b :: b in r1 <==> b == a || b in r0
    requires s1 == s0[refs[a].data.reference := a] && o1 == o0[o := a]
    requires refs[a].data.obj == o && NodeOk(refs, objs, s1, o1, a)
    ensures Catalog(refs, objs, r1, s1, o1)
    ensures NodesOf(r1) == NodesOf(r0) + {a}
    ensures MapOf(refs, objs, r1, s1, o1) == MapOf(refs, objs, r0, s0, o0)[refs[a].data.reference := objs[o].data]
  {
    hide NodeOk, Catalog, MapOf;
    CatalogGrows(refs, objs, r0, r1, s0, s1, o0, o1, a, o);
    MapGrows(refs, objs, r0, r1, s0, s1, o0, o1, a);
  }

  lemma {:induction false} MapGrows<V>(refs: Slots, objs: seq<Item<V>>, r0: seq<nat>, r1: seq<nat>,
      s0: map<string, nat>, s1: map<string, nat>, o0: map<nat, nat>, o1: map<nat, nat>, a: nat)
    requires Catalog(refs, objs, r0, s0, o0) && Catalog(refs, objs, r1, s1, o1) && a < |refs|
    requires refs[a].data.reference !in s0 && s1 == s0[refs[a].data.reference := a]
    requires 0 <= refs[a].data.obj < |objs|
    ensures MapOf(refs, objs, r1, s1, o1) ==
      MapOf(refs, objs, r0, s0, o0)[refs[a].data.reference := objs[refs[a].data.obj].data]
  {
    hide NodeOk, Catalog, MapOf;
    var k, v := refs[a].data.reference, objs[refs[a].data.obj].data;
    var m0, m1 := MapOf(refs, objs, r0, s0, o0), MapOf(refs, objs, r1, s1, o1);
    forall j: string {:trigger j in m1} | true
      ensures j in m1 <==> j in m0[k := v]
      ensures j in m1 ==> m1[j] == m0[k := v][j]
    {
      MapAt(refs, objs, r0, s0, o0, j);
      MapAt(refs, objs, r1, s1, o1, j);
    }
    assert m1.Keys == m0[k := v].Keys;
  }

  lemma {:induction false} MapAt<V>(refs: Slots, objs: seq<Item<V>>, root: seq<nat>, slotOf: map<string, nat>,
      ownerOf: map<nat, nat>, k: string)
    requires Catalog(refs, objs, root, slotOf, ownerOf)
    ensures var m := MapOf(refs, objs, root, slotOf, ownerOf);
      && (k in m <==> k in slotOf)
      && (k in m ==> slotOf[k] < |refs| && 0 <= refs[slotOf[k]].data.obj < |objs|
                     && m[k] == objs[refs[slotOf[k]].data.obj].data)
  {
    hide NodeOk;
    if k in slotOf {
      assert NodeOk(refs, objs, slotOf, ownerOf, slotOf[k]);
      NodeObject(refs, objs, slotOf, ownerOf, slotOf[k]);
    }
  }

  lemma {:induction false} NodeObject<V>(refs: Slots, objs: seq<Item<V>>, s: map<string, nat>, o: map<nat, nat>, a: nat)
    requires NodeOk(refs, objs, s, o, a)
    ensures a < |refs| && refs[a].data.reference in s && s[refs[a].data.reference] == a && 0 <= refs[a].data.obj < |objs|
  {
  }

  lemma {:induction false} CatalogGrows<V>(refs: Slots, objs: seq<Item<V>>, r0: seq<nat>, r1: seq<nat>,
      s0: map<string, nat>, s1: map<string, nat>, o0: map<nat, nat>, o1: map<nat, nat>, a: nat, o: nat)
    requires Catalog(refs, objs, r0, s0, o0)
    requires a < |refs| && o < |objs| && a !in r0 && o !in o0
    requires refs[a].data.reference !in s0
    requires forall b :: b in r1 <==> b == a || b in r0
    requires s1 == s0[refs[a].data.reference := a] && o1 == o0[o := a]
    requires refs[a].data.obj == o && NodeOk(refs, objs, s1, o1, a)
    ensures Catalog(refs, objs, r1, s1, o1)
  {
    forall b | b in r0 ensures NodeOk(refs, objs, s1, o1, b) {
      assert NodeOk(refs, objs, s0, o0, b);
    }
    hide NodeOk;
    forall k | k in s1 ensures s1[k] in r1 && refs[s1[k]].data.reference == k {}
    forall p | p in o1 ensures o1[p] in r1 && refs[o1[p]].data.obj == p {}
  }

  /** `xlibrary_t`.  `zero` is what zeroed object memory reads as. */
  class Library<V(0)> {
    const refs: FreeList<Entry>
    const objs: FreeList<V>
    const zero: V
    const freeItem: V -> V
    var root: seq<nat>
    var itemNb: nat
    var index: array<nat>
    ghost var slotOf: map<string, nat>
    ghost var ownerOf: map<nat, nat>

    /** Everything is in place; `rh` are the reference slots in use that are no node of the tree and
        `oh` the object slots in use that no entry owns. */
    ghost predicate Holding(rh: set<nat>, oh: set<nat>) reads this, refs, objs {
      && refs as object != objs
      && refs.Valid() && objs.Valid()
      && InOrder(refs.items, root)
      && Catalog(refs.items, objs.items, root, slotOf, ownerOf)
      && refs.InUse() == NodesOf(root) + rh && NodesOf(root) !! rh
      && objs.InUse() == ownerOf.Keys + oh && ownerOf.Keys !! oh
    }

    /** Between calls exactly one reference slot and one object slot is in use per entry. */
    ghost predicate Valid() reads this, refs, objs { Holding({}, {}) }

    ghost function Map(): map<string, V> reads this, refs, objs
      requires Catalog(refs.items, objs.items, root, slotOf, ownerOf)
    {
      MapOf(refs.items, objs.items, root, slotOf, ownerOf)
    }

    lemma {:induction false} HasCatalog()
      requires Valid()
      ensures Catalog(refs.items, objs.items, root, slotOf, ownerOf)
    {
      hide Catalog;
    }

    /** `xlibrary_init` */
    constructor (defaultLength: nat, zero: V, freeItem: V -> V)
      requires defaultLength > 0
      ensures Valid() && Map() == map[] && fresh(refs) && fresh(objs)
      ensures itemNb == 0 && index.Length == 0
    {
      hide ChainsOk, FirstFree, AddrsFrom;
      refs := new FreeList(defaultLength);
      objs := new FreeList(defaultLength);
      this.zero, this.freeItem := zero, freeItem;
      root := [];
      itemNb := 0;
      index := new nat[0];
      slotOf, ownerOf := map[], map[];
    }

    /** Extracts a reference slot and writes an entry to it. */
    method NewRef(entry: Entry, ghost oh: set<nat>) returns (w: nat)
      requires Holding({}, oh)
      modifies refs
      ensures Holding({w}, oh) && Map() == old(Map())
      ensures w < |refs.items| && refs.items[w].data == entry && !refs.items[w].free
      ensures SameNodes(old(refs.items), refs.items, root)
      ensures w !in root && refs.items[w].owner == FirstFree(old(refs.chains))
      ensures Lent(refs.itemNb, |old(refs.items)|, old(refs.chains), refs.chains, w)
    {
      hide ChainsOk, Catalog, InOrder, MapOf, FirstFree, AddrsFrom;
      assert forall a :: a in root ==> a in refs.InUse();
      w := refs.Extract();
      refs.Store(w, entry);
      NodesKept(old(refs.items), refs.items, root, objs.items, slotOf, ownerOf);
    }

    /** Builds the working slot of a search: every field but the reference is stack garbage. */
    method Borrow(reference: string, ghost oh: set<nat>) returns (w: nat)
      requires Holding({}, oh)
      modifies refs
      ensures Holding({w}, oh) && Map() == old(Map())
      ensures w < |refs.items| && refs.items[w].data.reference == Cut(reference, REFERENCE_MAX)
      ensures SameNodes(old(refs.items), refs.items, root)
      ensures w !in root && refs.items[w].owner == FirstFree(old(refs.chains))
      ensures Lent(refs.itemNb, |old(refs.items)|, old(refs.chains), refs.chains, w)
    {
      hide ChainsOk, Catalog, InOrder, MapOf, FirstFree, AddrsFrom;
      var garbage: Entry := *;
      w := NewRef(garbage.(reference := Cut(reference, REFERENCE_MAX)), oh);
    }

    /** Releases the working reference slot. */
    method GiveBack(w: nat, ghost oh: set<nat>)
      requires Holding({w}, oh)
      modifies refs
      ensures Holding({}, oh) && Map() == old(Map())
      ensures SameNodes(old(refs.items), refs.items, root)
      ensures var k := old(refs.items)[w].owner;
        k < |old(refs.chains)| && refs.chains == old(refs.chains)[k := [w] + old(refs.chains)[k]]
    {
      hide ChainsOk, Catalog, InOrder, MapOf;
      assert forall a :: a in root ==> a in refs.InUse() && a in NodesOf(root) && a != w;
      refs.Free(w);
      NodesKept(old(refs.items), refs.items, root, objs.items, slotOf, ownerOf);
    }

    /** `xlibrary_get_item_nolock`; `prior` is what the caller's buffer held before. */
    method Get(reference: string, prior: V) returns (status: LibraryStatus, item: V)
      requires Valid()
      modifies refs
      ensures Valid() && Map() == old(Map())
      ensures SameNodes(old(refs.items), refs.items, root)
      ensures refs.chains == if FirstFree(old(refs.chains)) < |old(refs.chains)| then old(refs.chains)
                             else old(refs.chains) + [AddrsFrom(|old(refs.items)|, refs.itemNb)]
      ensures var k := Cut(reference, REFERENCE_MAX);
        if k in Map() then status == Success && item == Map()[k] else status == ItemNotFound && item == prior
    {
      hide ChainsOk, Catalog, InOrder, MapOf, FirstFree, AddrsFrom, CompareItems, TFind, CmpN, Cmp;
      item := prior;
      var w := Borrow(reference, {});
      CatalogFind(refs.items, objs.items, root, slotOf, ownerOf, w);
      var result := TFind(refs.items, root, w);
      if result == NULL {
        status := ItemNotFound;
      } else {
        var litem := refs.items[result].data;
        if litem.obj == NULL {
          status := ObjectNotFound;
        } else {
          item := objs.items[litem.obj].data;
          status := Success;
        }
      }
      BorrowReturn(refs.itemNb, |old(refs.items)|, old(refs.chains), refs.chains, w);
      GiveBack(w, {});
    }

    /** `_release_item`: frees what the object points to, zeroes both slots and releases them, the
        object first, each to the sublist that owns it. */
    method ReleaseEntry(p: nat)
      requires refs as object != objs && refs.Valid() && objs.Valid()
      requires p in refs.InUse() && 0 <= refs.items[p].data.obj && refs.items[p].data.obj in objs.InUse()
      modifies refs, objs
      ensures refs.Valid() && objs.Valid()
      ensures refs.InUse() == old(refs.InUse()) - {p}
      ensures objs.InUse() == old(objs.InUse()) - {old(refs.items)[p].data.obj}
      ensures forall a :: a in refs.InUse() ==> a < |refs.items| && a < |old(refs.items)| && refs.items[a] == old(refs.items)[a]
      ensures forall o :: o in objs.InUse() ==> o < |objs.items| && o < |old(objs.items)| && objs.items[o] == old(objs.items)[o]
    {
      hide ChainsOk;
      var litem := refs.items[p].data;
      var o := litem.obj;
      if litem.owned {
        objs.Store(o, freeItem(objs.items[o].data));
      }
      objs.Store(o, zero);
      objs.FreeToOwner(o);
      refs.Store(p, ZERO_ENTRY);
      refs.FreeToOwner(p);
    }

    /** Unlinks the node that compares equal to the working slot `w`, if there is one, and releases it. */
    method Drop(w: nat, ghost oh: set<nat>) returns (status: LibraryStatus)
      requires Holding({w}, oh) && w < |refs.items|
      modifies this, refs, objs
      ensures Holding({w}, oh) && itemNb == old(itemNb) && index == old(index)
      ensures forall a :: a in root ==> a in old(root)
      ensures SameNodes(old(refs.items), refs.items, root)
      ensures forall o :: o in oh ==> o < |objs.items| && o < |old(objs.items)| && objs.items[o] == old(objs.items)[o]
      ensures var k := Cut(old(refs.items)[w].data.reference, REFERENCE_MAX);
        && status == (if k in old(Map()) then Success else ItemNotFound)
        && Map() == old(Map()) - {k} && slotOf == old(slotOf) - {k}
    {
      hide ChainsOk, Catalog, InOrder, MapOf, CompareItems, TFind, TDelete, CmpN, Cmp;
      ghost var k := Cut(refs.items[w].data.reference, REFERENCE_MAX);
      ghost var r0, o0, rootWas, mapWas := refs.items, objs.items, root, Map();
      CatalogFind(r0, o0, root, slotOf, ownerOf, w);
      var result := TFind(refs.items, root, w);
      if result == NULL {
        status := ItemNotFound;
        SlotKeys(r0, o0, root, slotOf, ownerOf);
        assert slotOf - {k} == slotOf && mapWas - {k} == mapWas;
      } else {
        DropNode(result, {w}, oh);
        status := Success;
      }
    }

    /** The node is unlinked first and its slots are zeroed and released after that. */
    method DropNode(result: nat, ghost rh: set<nat>, ghost oh: set<nat>)
      requires Holding(rh, oh) && result in root && result < |refs.items|
      modifies this, refs, objs
      ensures Holding(rh, oh) && itemNb == old(itemNb) && index == old(index)
      ensures forall a :: a in root ==> a in old(root)
      ensures SameNodes(old(refs.items), refs.items, root)
      ensures forall o :: o in oh ==> o < |objs.items| && o < |old(objs.items)| && objs.items[o] == old(objs.items)[o]
      ensures var k := old(refs.items)[result].data.reference;
        Map() == old(Map()) - {k} && slotOf == old(slotOf) - {k}
    {
      hide ChainsOk, InOrder, MapOf, Catalog, NodeOk, CompareItems, TDelete;
      ghost var r0, o0, rootWas, slotsWas, ownersWas, e :=
        refs.items, objs.items, root, slotOf, ownerOf, refs.items[result].data;
      NodeAt(r0, o0, root, slotOf, ownerOf, result);
      root := TDelete(refs.items, root, result);
      slotOf, ownerOf := slotOf - {e.reference}, ownerOf - {e.obj};
      ReleaseEntry(result);
      Dropped(r0, o0, rootWas, slotsWas, ownersWas, result, refs.items, objs.items, root, slotOf, ownerOf);
    }

    /** `xlibrary_remove_item_nolock` */
    method Remove(reference: string, ghost oh: set<nat>) returns (status: LibraryStatus)
      requires Holding({}, oh)
      modifies this, refs, objs
      ensures Holding({}, oh) && itemNb == old(itemNb) && index == old(index)
      ensures forall a :: a in root ==> a in old(root)
      ensures SameNodes(old(refs.items), refs.items, root)
      ensures forall o :: o in oh ==> o < |objs.items| && o < |old(objs.items)| && objs.items[o] == old(objs.items)[o]
      ensures var k := Cut(reference, 128);
        && status == (if k in old(Map()) then Success else ItemNotFound)
        && Map() == old(Map()) - {k} && slotOf == old(slotOf) - {k}
    {
      hide ChainsOk, Catalog, InOrder, MapOf;
      var w := Borrow(reference, oh);
      status := Drop(w, oh);
      GiveBack(w, oh);
    }

    /** `xlibrary_add_item_nolock`: an entry under the same reference is removed first. */
    method Add(reference: string, item: V, now: int)
      requires Valid()
      modifies this, refs, objs
      ensures Valid() && itemNb == old(itemNb) && index == old(index)
      ensures Map() == old(Map())[Cut(reference, REFERENCE_MAX) := item]
    {
      hide ChainsOk, Catalog, InOrder, MapOf, FirstFree, AddrsFrom, Lent, Cut, SameNodes, NodesOf;
      var o := objs.Extract();
      ObjectsKept(refs.items, root, old(objs.items), objs.items, slotOf, ownerOf);
      var removed := Remove(reference, {o});
      ghost var mapWas, objsWas := Map(), objs.items;
      objs.Store(o, item);
      ObjectsKept(refs.items, root, objsWas, objs.items, slotOf, ownerOf);
      Insert(reference, o, now);
    }

    /** The second half of `xlibrary_add_item_nolock`: a reference slot for the object `o`. */
    method Insert(reference: string, o: nat, now: int)
      requires Holding({}, {o}) && Cut(reference, REFERENCE_MAX) !in Map() && o < |objs.items|
      modifies this, refs
      ensures Valid() && itemNb == old(itemNb) && index == old(index)
      ensures Map() == old(Map())[Cut(reference, REFERENCE_MAX) := objs.items[o].data]
    {
      hide ChainsOk, Catalog, InOrder, MapOf, NodeOk, Lent, TSearch, CompareItems;
      var p := NewRef(Entry(Cut(reference, REFERENCE_MAX), o, true, now, 0), {o});
      ghost var rootWas, slotsWas, ownersWas := root, slotOf, ownerOf;
      root := TSearch(refs.items, root, p);
      slotOf, ownerOf := slotOf[Cut(reference, REFERENCE_MAX) := p], ownerOf[o := p];
      Inserted(refs.items, objs.items, rootWas, slotsWas, ownersWas, p, root, slotOf, ownerOf);
    }

    /** `xlibrary_update_index`: `twalk` with `_count_item`, then `twalk` with `_update_index` into an
        array of exactly the counted size.  `ks` are the references the index leads to: all keys of the
        map, once each, in ascending order. */
    method UpdateIndex() returns (ghost ks: seq<string>)
      requires Valid()
      modifies this`itemNb, this`index
      ensures Valid() && Map() == old(Map())
      ensures itemNb == |Map()| == |ks| && fresh(index)
      ensures Map().Keys == set k | k in ks
      ensures forall i, j :: 0 <= i < j < |ks| ==> CmpN(ks[i], ks[j], 128) < 0 && ks[i] != ks[j]
      ensures PointsAt(index[..], ks, slotOf)
    {
      hide ChainsOk, Catalog, InOrder, MapOf, NodesOf, CmpN, InUseOf, PointsAt;
      itemNb := 0;
      index := new nat[0];
      WalkCount();
      ks := WalkKeys(refs.items, objs.items, root, slotOf, ownerOf);
      if itemNb > 0 {
        index := new nat[itemNb];
        WalkFill();
      }
      assert index[..] == root;
    }

    /** `twalk(root, _count_item)` */
    method WalkCount()
      requires Catalog(refs.items, objs.items, root, slotOf, ownerOf) && itemNb == 0
      modifies this`itemNb
      ensures itemNb == |root|
    {
      hide Catalog;
      for k := 0 to |root|
        invariant itemNb == k
      {
        Count(root[k]);
      }
    }

    /** `twalk(root, _update_index)`: the walk never passes the end of the counted array. */
    method WalkFill()
      requires Catalog(refs.items, objs.items, root, slotOf, ownerOf) && index.Length == |root|
      modifies index
      ensures index[..] == root
    {
      hide Catalog;
      var current := 0;
      for k := 0 to |root|
        invariant current == k && index[..k] == root[..k]
      {
        current := Fill(root[k], current);
      }
    }

    /** `_count_item`, which finds the library to update through the entry. */
    method Count(node: nat)
      requires Catalog(refs.items, objs.items, root, slotOf, ownerOf) && node in root
      modifies this`itemNb
      ensures itemNb == old(itemNb) + 1
    {
      assert NodeOk(refs.items, objs.items, slotOf, ownerOf, node);
      if refs.items[node].data.owned {
        itemNb := itemNb + 1;
      }
    }

    /** `_update_index`; `current` is the position of the next cell to fill, which is inside the array. */
    method Fill(node: nat, current: nat) returns (next: nat)
      requires Catalog(refs.items, objs.items, root, slotOf, ownerOf) && node in root
      requires current < index.Length
      modifies index
      ensures next == current + 1 && index[..] == old(index[..])[current := node]
    {
      assert NodeOk(refs.items, objs.items, slotOf, ownerOf, node);
      next := current;
      if refs.items[node].data.owned {
        index[next] := node;
        next := next + 1;
      }
    }
  }

  /** Read through a walk of the tree, the references ascend strictly and are the keys of the map. */
  lemma {:induction false} WalkKeys<V>(refs: Slots, objs: seq<Item<V>>, root: seq<nat>, slotOf: map<string, nat>,
      ownerOf: map<nat, nat>)
    returns (ks: seq<string>)
    requires Catalog(refs, objs, root, slotOf, ownerOf) && InOrder(refs, root)
    ensures forall i, j :: 0 <= i < j < |ks| ==> CmpN(ks[i], ks[j], REFERENCE_MAX) < 0 && ks[i] != ks[j]
    ensures PointsAt(root, ks, slotOf)
    ensures MapOf(refs, objs, root, slotOf, ownerOf).Keys == set k | k in ks
    ensures |MapOf(refs, objs, root, slotOf, ownerOf)| == |root| == |ks|
  {
    hide CmpN, CompareItems;
    ks := KeysOf(refs, root);
    KeysAscend(refs, root);
    hide InOrder;
    KeysPoint(refs, objs, root, slotOf, ownerOf);
    KeysAreSlots(refs, root, slotOf);
    DistinctKeys(ks);
    var m := MapOf(refs, objs, root, slotOf, ownerOf);
    assert m.Keys == slotOf.Keys && |m.Keys| == |m|;
  }

  lemma {:induction false} KeysAscend(refs: Slots, root: seq<nat>)
    requires InOrder(refs, root)
    ensures var ks := KeysOf(refs, root);
      forall i, j :: 0 <= i < j < |ks| ==> CmpN(ks[i], ks[j], REFERENCE_MAX) < 0 && ks[i] != ks[j]
  {
    hide CmpN;
    var ks := KeysOf(refs, root);
    forall i, j | 0 <= i < j < |ks| ensures CmpN(ks[i], ks[j], REFERENCE_MAX) < 0 && ks[i] != ks[j] {
      assert CompareItems(refs, root[i], root[j]) < 0;
      CompareZero(refs, root[i], root[j]);
    }
  }

  lemma {:induction false} KeysPoint<V>(refs: Slots, objs: seq<Item<V>>, root: seq<nat>, slotOf: map<string, nat>,
      ownerOf: map<nat, nat>)
    requires Catalog(refs, objs, root, slotOf, ownerOf)
    ensures forall i :: 0 <= i < |root| ==> root[i] < |refs| && refs[root[i]].data.reference in slotOf
    ensures PointsAt(root, KeysOf(refs, root), slotOf)
  {
    forall i | 0 <= i < |root|
      ensures root[i] < |refs| && refs[root[i]].data.reference in slotOf && slotOf[refs[root[i]].data.reference] == root[i]
    {
      assert NodeOk(refs, objs, slotOf, ownerOf, root[i]);
    }
  }

  lemma {:induction false} KeysAreSlots(refs: Slots, root: seq<nat>, slotOf: map<string, nat>)
    requires forall i :: 0 <= i < |root| ==> root[i] < |refs| && refs[root[i]].data.reference in slotOf
    requires forall k :: k in slotOf ==> slotOf[k] in root && refs[slotOf[k]].data.reference == k
    ensures slotOf.Keys == set k | k in KeysOf(refs, root)
  {
    var ks := KeysOf(refs, root);
    forall k | k in slotOf ensures k in ks {
      var i :| 0 <= i < |root| && root[i] == slotOf[k];
      assert ks[i] == k;
    }
  }

  /** Index entry `i` points at the live node of reference `ks[i]`. */
  ghost predicate PointsAt(index: seq<nat>, ks: seq<string>, slotOf: map<string, nat>) {
    |index| == |ks| && forall i :: 0 <= i < |ks| ==> ks[i] in slotOf && slotOf[ks[i]] == index[i]
  }

  /** The references in tree order. */
  ghost function KeysOf(refs: Slots, root: seq<nat>): (ks: seq<string>)
    requires forall i :: 0 <= i < |root| ==> root[i] < |refs|
    ensures |ks| == |root| && forall i :: 0 <= i < |root| ==> ks[i] == refs[root[i]].data.reference
  {
    seq(|root|, i requires 0 <= i < |root| => refs[root[i]].data.reference)
  }

  lemma {:induction false} DistinctKeys(ks: seq<string>)
    requires forall i, j :: 0 <= i < j < |ks| ==> ks[i] != ks[j]
    ensures |set k | k in ks| == |ks|
  {
    if ks == [] {
    } else {
      var rest := ks[..|ks| - 1];
      DistinctKeys(rest);
      assert (set k | k in ks) == (set k | k in rest) + {ks[|ks| - 1]};
    }
  }

  ghost predicate SameNodes(r0: Slots, r1: Slots, root: seq<nat>) {
    forall a :: a in root ==> a < |r0| && a < |r1| && r1[a] == r0[a]
  }

  lemma {:induction false} SlotKeys<V>(refs: Slots, objs: seq<Item<V>>, root: seq<nat>, slotOf: map<string, nat>,
      ownerOf: map<nat, nat>)
    requires Catalog(refs, objs, root, slotOf, ownerOf)
    ensures MapOf(refs, objs, root, slotOf, ownerOf).Keys == slotOf.Keys
  {
  }

  lemma {:induction false} SlotAt<V>(refs: Slots, objs: seq<Item<V>>, root: seq<nat>, slotOf: map<string, nat>,
      ownerOf: map<nat, nat>, k: string)
    requires Catalog(refs, objs, root, slotOf, ownerOf) && k in slotOf
    ensures slotOf[k] < |refs| && refs[slotOf[k]].data.reference == k
    ensures k in MapOf(refs, objs, root, slotOf, ownerOf)
  {
    assert NodeOk(refs, objs, slotOf, ownerOf, slotOf[k]);
  }

  lemma {:induction false} NodeAt<V>(refs: Slots, objs: seq<Item<V>>, root: seq<nat>, slotOf: map<string, nat>,
      ownerOf: map<nat, nat>, a: nat)
    requires Catalog(refs, objs, root, slotOf, ownerOf) && InOrder(refs, root) && a in root
    ensures a in NodesOf(root) && a < |refs| && 0 <= refs[a].data.obj && refs[a].data.obj in ownerOf
  {
    assert NodeOk(refs, objs, slotOf, ownerOf, a);
  }

  /** Taking node `a` out of the tree and letting go of its two slots removes exactly its key. */
  lemma {:induction false} Dropped<V>(r0: Slots, o0: seq<Item<V>>, rootWas: seq<nat>, slotsWas: map<string, nat>,
      ownersWas: map<nat, nat>, a: nat, r1: Slots, o1: seq<Item<V>>, root: seq<nat>, slotOf: map<string, nat>,
      ownerOf: map<nat, nat>)
    requires InOrder(r0, rootWas) && Catalog(r0, o0, rootWas, slotsWas, ownersWas) && a in rootWas && a < |r0|
    requires root == TDelete(r0, rootWas, a)
    requires slotOf == slotsWas - {r0[a].data.reference} && ownerOf == ownersWas - {r0[a].data.obj}
    requires forall b :: b in NodesOf(rootWas) && b != a ==> b < |r1| && r1[b] == r0[b]
    requires forall o :: o in ownersWas && o != r0[a].data.obj ==> o < |o1| && o1[o] == o0[o]
    ensures InOrder(r1, root) && Catalog(r1, o1, root, slotOf, ownerOf)
    ensures NodesOf(root) == NodesOf(rootWas) - {a} && (forall b :: b in root ==> b in rootWas)
    ensures SameNodes(r0, r1, root)
    ensures MapOf(r1, o1, root, slotOf, ownerOf) == MapOf(r0, o0, rootWas, slotsWas, ownersWas) - {r0[a].data.reference}
  {
    hide CompareItems, InOrder, Catalog, MapOf, TDelete;
    TDeleteRemoves(r0, rootWas, a);
    CatalogDelete(r0, o0, rootWas, root, slotsWas, slotOf, ownersWas, ownerOf, a);
    NodesInRange(r0, rootWas);
    assert forall b :: b in root ==> b in NodesOf(rootWas);
    InOrderKept(r0, r1, root);
    CatalogKept(r0, r1, o0, o1, root, slotOf, ownerOf);
  }

  lemma {:induction false} Inserted<V>(refs: Slots, objs: seq<Item<V>>, rootWas: seq<nat>, slotsWas: map<string, nat>,
      ownersWas: map<nat, nat>, p: nat, root: seq<nat>, slotOf: map<string, nat>, ownerOf: map<nat, nat>)
    requires InOrder(refs, rootWas) && Catalog(refs, objs, rootWas, slotsWas, ownersWas) && p !in NodesOf(rootWas)
    requires p < |refs| && !refs[p].free && refs[p].data.owned && |refs[p].data.reference| <= REFERENCE_MAX
    requires refs[p].data.reference !in MapOf(refs, objs, rootWas, slotsWas, ownersWas)
    requires 0 <= refs[p].data.obj < |objs| && !objs[refs[p].data.obj].free && refs[p].data.obj !in ownersWas
    requires root == TSearch(refs, rootWas, p)
    requires slotOf == slotsWas[refs[p].data.reference := p] && ownerOf == ownersWas[refs[p].data.obj := p]
    ensures InOrder(refs, root) && Catalog(refs, objs, root, slotOf, ownerOf)
    ensures NodesOf(root) == NodesOf(rootWas) + {p}
    ensures MapOf(refs, objs, root, slotOf, ownerOf)
         == MapOf(refs, objs, rootWas, slotsWas, ownersWas)[refs[p].data.reference := objs[refs[p].data.obj].data]
  {
    hide CompareItems, InOrder, TSearch;
    forall b | b in rootWas ensures b < |refs| && CompareItems(refs, p, b) != 0 {
      assert NodeOk(refs, objs, slotsWas, ownersWas, b);
      CompareZero(refs, p, b);
    }
    TSearchInserts(refs, rootWas, p);
    CatalogInsert(refs, objs, rootWas, root, slotsWas, slotOf, ownersWas, ownerOf, p, refs[p].data.obj);
  }

  lemma {:induction false} ObjectsKept<V>(refs: Slots, root: seq<nat>, o0: seq<Item<V>>, o1: seq<Item<V>>,
      slotOf: map<string, nat>, ownerOf: map<nat, nat>)
    requires InOrder(refs, root) && Catalog(refs, o0, root, slotOf, ownerOf)
    requires forall o :: o in ownerOf ==> o < |o1| && o1[o] == o0[o]
    ensures Catalog(refs, o1, root, slotOf, ownerOf)
    ensures MapOf(refs, o1, root, slotOf, ownerOf) == MapOf(refs, o0, root, slotOf, ownerOf)
  {
    NodesInRange(refs, root);
    CatalogKept(refs, refs, o0, o1, root, slotOf, ownerOf);
  }

  lemma {:induction false} NodesInRange(refs: Slots, root: seq<nat>)
    requires InOrder(refs, root)
    ensures forall a :: a in root ==> a < |refs|
  {
  }

  lemma {:induction false} NodesKept<V>(r0: Slots, r1: Slots, root: seq<nat>, objs: seq<Item<V>>,
      slotOf: map<string, nat>, ownerOf: map<nat, nat>)
    requires InOrder(r0, root) && Catalog(r0, objs, root, slotOf, ownerOf)
    requires forall a :: a in root ==> a < |r1| && r1[a] == r0[a]
    ensures InOrder(r1, root) && Catalog(r1, objs, root, slotOf, ownerOf)
    ensures MapOf(r1, objs, root, slotOf, ownerOf) == MapOf(r0, objs, root, slotOf, ownerOf)
  {
    InOrderKept(r0, r1, root);
    CatalogKept(r0, r1, objs, objs, root, slotOf, ownerOf);
  }
}
