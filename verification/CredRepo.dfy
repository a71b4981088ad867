/** The credential repository (src/api/auks/auks_cred_repo.c) over the keyed store. */
module CredRepos {
  import opened Options
  import opened Text
  import opened Creds
  import opened RepoSpec
  import opened FreeLists
  import L = Libraries
  import RR = RepoRuns

  const UID_STR_LENGTH := 32

  /** Every credential is stored under the decimal form of its own uid. */
  ghost predicate Keyed(m: map<string, Cred>) {
    forall k :: k in m ==> k == Decimal(m[k].uid)
  }

  ghost function UidsOf(m: map<string, Cred>): set<Uid> { set k | k in m :: m[k].uid }

  /** The same map with the uids themselves for keys. */
  ghost function ByUid(m: map<string, Cred>): map<Uid, Cred>
    requires Keyed(m)
  {
    map u | u in UidsOf(m) :: m[Decimal(u)]
  }

  lemma {:induction false} UidKey(u: Uid)
    ensures |Decimal(u)| < UID_STR_LENGTH && Cut(Decimal(u), L.REFERENCE_MAX) == Decimal(u)
  {
    assert Power10(10) == 10_000_000_000;
    DecimalLength(u, 10, 10_000_000_000);
  }

  lemma {:induction false} ByUidAt(m: map<string, Cred>, u: Uid)
    requires Keyed(m)
    ensures u in ByUid(m) <==> Decimal(u) in m
    ensures u in ByUid(m) ==> ByUid(m)[u] == m[Decimal(u)] && m[Decimal(u)].uid == u
  {
    hide Decimal;
    if Decimal(u) in m { DecimalInjective(u, m[Decimal(u)].uid); }
  }

  lemma {:induction false} KeyedUpdate(m: map<string, Cred>, c: Cred, u: Uid)
    requires Keyed(m)
    ensures Keyed(m[Decimal(c.uid) := c]) && Keyed(m - {Decimal(u)})
  {
    hide Decimal;
  }

  lemma {:induction false} ByUidUpdate(m: map<string, Cred>, c: Cred)
    requires Keyed(m)
    ensures Keyed(m[Decimal(c.uid) := c]) && ByUid(m[Decimal(c.uid) := c]) == ByUid(m)[c.uid := c]
  {
    hide Decimal, Keyed, ByUid;
    KeyedUpdate(m, c, 0);
    var m', a := m[Decimal(c.uid) := c], ByUid(m)[c.uid := c];
    forall u: Uid {:trigger u in a} | true
      ensures u in ByUid(m') <==> u in a
      ensures u in a ==> ByUid(m')[u] == a[u]
    {
      ByUidAt(m, u);
      ByUidAt(m', u);
      if Decimal(u) == Decimal(c.uid) { DecimalInjective(u, c.uid); }
    }
  }

  lemma {:induction false} ByUidRemove(m: map<string, Cred>, u: Uid)
    requires Keyed(m)
    ensures Keyed(m - {Decimal(u)}) && ByUid(m - {Decimal(u)}) == ByUid(m) - {u}
  {
    hide Decimal, Keyed, ByUid;
    KeyedUpdate(m, ZERO_CRED, u);
    var m', a := m - {Decimal(u)}, ByUid(m) - {u};
    forall v: Uid {:trigger v in a} | true
      ensures v in ByUid(m') <==> v in a
      ensures v in a ==> ByUid(m')[v] == a[v]
    {
      ByUidAt(m, v);
      ByUidAt(m', v);
      if Decimal(u) == Decimal(v) { DecimalInjective(u, v); }
    }
    assert ByUid(m').Keys == a.Keys;
  }

  lemma {:induction false} SnapshotUids(m: map<string, Cred>, ks: seq<string>) returns (us: seq<Uid>)
    requires Keyed(m) && m.Keys == set k | k in ks
    requires forall i, j :: 0 <= i < j < |ks| ==> ks[i] != ks[j]
    ensures |us| == |ks| && (forall i :: 0 <= i < |ks| ==> ks[i] == Decimal(us[i]))
    ensures Lists(us, ByUid(m))
  {
    hide Decimal;
    us := seq(|ks|, i requires 0 <= i < |ks| => assert ks[i] in m.Keys; m[ks[i]].uid);
    forall i | 0 <= i < |ks| ensures ks[i] == Decimal(us[i]) { assert ks[i] in m; }
    forall u: Uid {:trigger u in us} | true ensures u in us <==> u in ByUid(m) {
      ByUidAt(m, u);
      if Decimal(u) in m {
        var i :| 0 <= i < |ks| && ks[i] == Decimal(u);
        DecimalInjective(u, us[i]);
      }
      if u in us {
        var i :| 0 <= i < |us| && us[i] == u;
        assert ks[i] in m;
      }
    }
  }

  class CredRepo {
    const library: L.Library<Cred>
    const cachedir: string
    var readOnly: bool
    var disk: map<string, CacheFile>

    ghost predicate Valid() reads this, library, library.refs, library.objs {
      library.Valid() && Keyed(library.Map())
    }

    ghost function View(): Repo reads this, library, library.refs, library.objs requires Valid() {
      Repo(ByUid(library.Map()), disk, readOnly, cachedir)
    }

    /** `auks_cred_repo_init` over a cache directory `disk` that readdir lists as `names`. */
    constructor (cachedir: string, disk: map<string, CacheFile>, names: seq<string>, defaultLength: nat, now: int)
      requires defaultLength > 0
      ensures Valid() && fresh(library) && fresh(library.refs) && fresh(library.objs)
      ensures View() == LoadSpec(Repo(map[], disk, true, cachedir), names).(readOnly := false)
    {
      hide FreeLists.ChainsOk, L.Catalog, L.InOrder, L.MapOf, LoadSpec;
      this.cachedir, this.disk, readOnly := cachedir, disk, true;
      library := new L.Library(defaultLength, ZERO_CRED, Freed);
      new;
      assert ByUid(library.Map()) == map[];
      LoadCache(names, now);
      readOnly := false;
    }

    /** `auks_cred_repo_get_nolock` */
    method Get(uid: Uid, prior: Cred) returns (status: Status, cred: Cred)
      requires Valid()
      modifies library.refs
      ensures Valid() && View() == old(View())
      ensures if uid in View().creds then status == Success && cred == View().creds[uid]
              else status == UidNotFound && cred == prior
    {
      hide FreeLists.ChainsOk, L.Catalog, L.InOrder, L.MapOf, Keyed, ByUid;
      UidKey(uid);
      ByUidAt(library.Map(), uid);
      var uidStr := Decimal(uid);
      if |uidStr| >= UID_STR_LENGTH {
        return UidToStr, prior;
      }
      var found;
      found, cred := library.Get(uidStr, prior);
      status := if found == L.Success then Success else UidNotFound;
    }

    /** `auks_cred_repo_remove_nolock` */
    method Remove(uid: Uid) returns (status: Status)
      requires Valid()
      modifies this, library, library.refs, library.objs
      ensures Valid()
      ensures (View(), status) == RemoveSpec(old(View()), uid)
      ensures library.itemNb == old(library.itemNb) && library.index == old(library.index)
      ensures forall k :: k in old(library.slotOf) && k != Decimal(uid) ==>
        k in library.slotOf && library.slotOf[k] == old(library.slotOf)[k]
    {
      hide FreeLists.ChainsOk, L.Catalog, L.InOrder, L.MapOf, Keyed, ByUid;
      UidKey(uid);
      ByUidAt(library.Map(), uid);
      ByUidRemove(library.Map(), uid);
      if readOnly {
        return ReadOnly;
      }
      var uidStr := Decimal(uid);
      if |uidStr| >= UID_STR_LENGTH {
        return UidToStr;
      }
      var removed := library.Remove(uidStr, {});
      if removed != L.Success {
        assert old(library.Map()) - {uidStr} == old(library.Map());
        return UidNotFound;
      }
      if !Fits(cachedir, FileName(uid)) {
        return CcacheBuild;
      }
      if FileName(uid) in disk {
        disk := disk - {FileName(uid)};
        status := Success;
      } else {
        status := UnlinkFailed;
      }
    }

    /** `auks_cred_repo_add_nolock` */
    method Add(cred: Cred, now: int) returns (status: Status)
      requires Valid()
      modifies this, library, library.refs, library.objs
      ensures Valid()
      ensures (View(), status) == AddSpec(old(View()), cred)
    {
      hide FreeLists.ChainsOk, L.Catalog, L.InOrder, L.MapOf, Keyed, ByUid;
      UidKey(cred.uid);
      var uid := cred.uid;
      var got, credential := Get(cred.uid, ZERO_CRED);
      if got == Success {
        if cred.renewTill > credential.renewTill ||
          (cred.endtime >= credential.endtime && cred.renewTill == credential.renewTill) {
          var removed := Remove(cred.uid);
        } else {
          return Success;
        }
      }
      ghost var r := View();
      ByUidUpdate(library.Map(), cred);
      var uidStr := Decimal(uid);
      if |uidStr| >= UID_STR_LENGTH {
        return UidToStr;
      }
      library.Add(uidStr, cred, now);
      if readOnly {
        return Success;
      }
      if !Fits(cachedir, FileName(cred.uid)) {
        return CcacheBuild;
      }
      disk := disk[FileName(cred.uid) := Stored(cred)];
      status := Success;
    }

    /** `auks_cred_repo_clean_nolock`.  `us` are the uids in the order of the index snapshot; `pnb` is
        `None` when the caller's counter is left alone. */
    method Clean(now: int) returns (status: Status, pnb: Option<nat>, ghost us: seq<Uid>)
      requires Valid()
      modifies this, library, library.refs, library.objs
      ensures Valid()
      ensures Lists(us, old(View()).creds)
      ensures var k := CleanSpec(old(View()), us, now);
        View() == k.repo && status == k.status && pnb == if k.status == Success then Some(k.removed) else None
      ensures !old(readOnly) ==> forall u :: u in View().creds <==>
        && u in old(View()).creds && old(View()).creds[u].endtime >= now
        && (old(View()).creds[u].renewTill <= 0 || old(View()).creds[u].renewTill >= now)
      ensures !old(readOnly) ==> forall u :: u in View().creds ==> View().creds[u] == old(View()).creds[u]
    {
      hide FreeLists.ChainsOk, L.Catalog, L.InOrder, L.MapOf, L.Library.Holding, Keyed, ByUid, RemoveSpec, CleanSpec, Lists;
      ghost var r := View();
      ghost var k;
      status, pnb, us, k := CleanEntries(now);
      if !r.readOnly { RR.CleanMeaning(r, us, now); }
    }

    /** The index and the loop over it. */
    method CleanEntries(now: int) returns (status: Status, pnb: Option<nat>, ghost us: seq<Uid>, ghost k: RepoSpec.Cleaning)
      requires Valid()
      modifies this, library, library.refs, library.objs
      ensures Valid()
      ensures Lists(us, old(View()).creds)
      ensures k == CleanSpec(old(View()), us, now)
      ensures View() == k.repo && status == k.status && pnb == if k.status == Success then Some(k.removed) else None
    {
      hide FreeLists.ChainsOk, L.Catalog, L.InOrder, L.MapOf, Keyed, ByUid, RemoveSpec, CleanSpec, Lists, Decimal;
      ghost var ks;
      ks, us := TakeSnapshot();
      CleanNothing(View(), us, now);
      var nbc := 0;
      status := Success;
      for i := 0 to library.itemNb
        invariant Valid() && library.itemNb == |ks| == |us| && Unvisited(ks, i)
        invariant Cleaning(View(), status, nbc) == CleanSpec(old(View()), us[..i], now)
      {
        CleanStep(old(View()), us, i, now);
        status, nbc := CleanOne(i, ks, us[i], now, nbc);
      }
      assert us[..|us|] == us;
      k := CleanSpec(old(View()), us, now);
      pnb := if status == Success then Some(nbc) else None;
    }

    /** `auks_cred_repo_update_index_nolock`; `ks` are the references the index entries point at. */
    method TakeSnapshot() returns (ghost ks: seq<string>, ghost us: seq<Uid>)
      requires Valid()
      modifies library`itemNb, library`index
      ensures Valid() && View() == old(View()) && fresh(library.index)
      ensures library.itemNb == |ks| == |us| == |library.Map()| && Lists(us, View().creds)
      ensures forall i :: 0 <= i < |ks| ==> ks[i] == Decimal(us[i])
      ensures forall i, j :: 0 <= i < j < |ks| ==> ks[i] != ks[j] && CmpN(ks[i], ks[j], L.REFERENCE_MAX) < 0
      ensures Unvisited(ks, 0)
    {
      hide FreeLists.ChainsOk, L.Catalog, L.InOrder, L.MapOf, L.Library.Holding, Keyed, ByUid, Lists, Decimal, CmpN;
      ks := library.UpdateIndex();
      library.HasCatalog();
      us := SnapshotUids(library.Map(), ks);
    }

    /** Every index entry from `i` on still points at the live entry it pointed at when the index was built. */
    ghost predicate Unvisited(ks: seq<string>, i: nat) reads library, library.index {
      && library.index.Length == |ks|
      && forall j :: i <= j < |ks| ==> ks[j] in library.slotOf && library.slotOf[ks[j]] == library.index[j]
    }

    /** The body of the loop of `auks_cred_repo_clean_nolock` for `i`. */
    method CleanOne(i: nat, ghost ks: seq<string>, ghost u: Uid, now: int, nb: nat) returns (status: Status, nbc: nat)
      requires Valid() && i < |ks| && Unvisited(ks, i) && ks[i] == Decimal(u)
      requires forall j :: i < j < |ks| ==> ks[j] != ks[i]
      modifies this, library, library.refs, library.objs
      ensures Valid() && library.itemNb == old(library.itemNb) && library.index == old(library.index)
      ensures Unvisited(ks, i + 1)
      ensures u in old(View()).creds
      ensures var c := old(View()).creds[u];
        var over := c.endtime < now || (0 < c.renewTill && c.renewTill < now);
        && (View(), status) == (if over then RemoveSpec(old(View()), u) else (old(View()), Success))
        && nbc == nb + if over && status == Success then 1 else 0
    {
      hide FreeLists.ChainsOk, L.Catalog, L.InOrder, L.MapOf, Keyed, ByUid, RemoveSpec, Decimal;
      nbc := nb;
      var pitem := library.index[i];
      L.SlotAt(library.refs.items, library.objs.items, library.root, library.slotOf, library.ownerOf, ks[i]);
      UidKey(u);
      ByUidAt(library.Map(), u);
      var found, cred := library.Get(library.refs.items[pitem].data.reference, ZERO_CRED);
      if found != L.Success {
        status := GetFailed;
        assert false;
      } else {
        status := Success;
      }
      if cred.endtime < now || (cred.renewTill > 0 && cred.renewTill < now) {
        status := Remove(cred.uid);
        if status == Success {
          nbc := nbc + 1;
        }
      }
    }

    /** `auks_cred_repo_load_cache`, which init runs in read-only mode; readdir yields `names`. */
    method LoadCache(names: seq<string>, now: int)
      requires Valid() && readOnly
      modifies this, library, library.refs, library.objs
      ensures Valid() && readOnly
      ensures View() == LoadSpec(old(View()), names)
    {
      hide FreeLists.ChainsOk, L.Catalog, L.InOrder, L.MapOf, Keyed, ByUid;
      for i := 0 to |names|
        invariant Valid() && readOnly
        invariant View() == LoadSpec(old(View()), names[..i])
      {
        assert names[..i + 1][..i] == names[..i];
        LoadKeepsDisk(old(View()), names[..i]);
        var name := names[i];
        if IsCacheName(name) && Fits(cachedir, name) && name in disk {
          match disk[name]
          case Stored(cred) =>
            var status := Add(cred, now);
          case Unreadable =>
        }
      }
      assert names[..|names|] == names;
    }
  }

  lemma {:induction false} CleanNothing(r: Repo, us: seq<Uid>, now: int)
    ensures CleanSpec(r, us[..0], now) == Cleaning(r, Success, 0)
  {
  }

  lemma {:induction false} CleanStep(r: Repo, us: seq<Uid>, i: nat, now: int)
    requires i < |us|
    ensures var k := CleanSpec(r, us[..i], now);
      us[i] in k.repo.creds ==>
        CleanSpec(r, us[..i + 1], now) ==
          if Expired(k.repo.creds[us[i]], now) then
            var (r', status) := RemoveSpec(k.repo, us[i]);
            Cleaning(r', status, k.removed + if status == Success then 1 else 0)
          else Cleaning(k.repo, Success, k.removed)
  {
    assert us[..i + 1][..i] == us[..i];
  }

  lemma {:induction false} LoadKeepsDisk(r: Repo, names: seq<string>)
    requires r.readOnly
    ensures LoadSpec(r, names).disk == r.disk && LoadSpec(r, names).readOnly && LoadSpec(r, names).cachedir == r.cachedir
  {
    if names == [] {
    } else {
      LoadKeepsDisk(r, names[..|names| - 1]);
    }
  }
}
