/** What the operations of the repository guarantee, one by one and over whole runs. */
module RepoRuns {
  import opened Text
  import opened Creds
  import opened RepoSpec

  // ---------- cache file names ----------

  lemma {:induction false} FileNameInjective(u: Uid, v: Uid)
    requires FileName(u) == FileName(v)
    ensures u == v
  {
    var s, t := SignedDecimal(ToInt32(u)), SignedDecimal(ToInt32(v));
    assert FileName(u)[7..] == s && FileName(v)[7..] == t;
    SignedDecimalInjective(ToInt32(u), ToInt32(v));
  }

  /** The name of a cache file: the prefix and the uid as a signed 32-bit number in decimal. */
  lemma {:induction false} FileNameMeans(u: Uid)
    ensures var s := FileName(u);
      && |s| > 7 && s[..7] == "aukscc_"
      && if u < 2147483648 then Value(s[7..]) == u && (u > 0 ==> s[7] != '0')
         else |s| > 8 && s[7] == '-' && Value(s[8..]) == 4294967296 - u && s[8] != '0'
  {
    hide Decimal, Value;
    var i := ToInt32(u);
    var s := FileName(u);
    assert s[7..] == SignedDecimal(i);
    if i < 0 {
      DecimalValue(-i);
      assert s[8..] == Decimal(-i);
    } else {
      DecimalValue(i);
    }
  }

  lemma {:induction false} CachePrefix(name: string)
    ensures IsCacheName(name) <==> "aukscc_" <= name
  {
    assert |name| >= 7 ==> name == name[..7] + name[7..];
  }

  lemma {:induction false} CacheNames(u: Uid)
    ensures IsCacheName(FileName(u))
  {
    assert FileName(u)[..7] == "aukscc_";
  }

  // ---------- cleaning ----------

  ghost predicate CanUnlink(r: Repo, u: Uid) {
    Fits(r.cachedir, FileName(u)) && FileName(u) in r.disk
  }

  ghost function Survivors(creds: map<Uid, Cred>, now: int): map<Uid, Cred> {
    map u | u in creds && !Expired(creds[u], now) :: creds[u]
  }

  /** The expired uids whose cache file could be unlinked. */
  ghost function Dropped(r: Repo, now: int): set<Uid> {
    set u | u in r.creds && Expired(r.creds[u], now) && CanUnlink(r, u)
  }

  ghost predicate DistinctUids(us: seq<Uid>) { forall i, j :: 0 <= i < j < |us| ==> us[i] != us[j] }

  ghost function CleanedBy(creds: map<Uid, Cred>, us: seq<Uid>, now: int): map<Uid, Cred> {
    map u | u in creds && !(u in us && Expired(creds[u], now)) :: creds[u]
  }

  ghost function DroppedBy(r: Repo, us: seq<Uid>, now: int): set<Uid> { set u | u in us && u in Dropped(r, now) }

  ghost function NamesOf(us: set<Uid>): set<string> { set u | u in us :: FileName(u) }

  /** Cleaning a prefix of the listing treats exactly the uids of that prefix. */
  lemma {:induction false} CleanPrefix(r: Repo, us: seq<Uid>, now: int)
    requires !r.readOnly && DistinctUids(us) && forall u :: u in us ==> u in r.creds
    ensures var k := CleanSpec(r, us, now);
      && k.repo == Repo(CleanedBy(r.creds, us, now), r.disk - NamesOf(DroppedBy(r, us, now)), false, r.cachedir)
      && k.removed == |DroppedBy(r, us, now)|
    ensures var k := CleanSpec(r, us, now);
      k.status == Success <==> (us == [] || !Expired(r.creds[us[|us| - 1]], now) || CanUnlink(r, us[|us| - 1]))
  {
    hide FileName, Fits, Expired, CanUnlink;
    if us != [] {
      var rest, u := us[..|us| - 1], us[|us| - 1];
      CleanPrefix(r, rest, now);
      assert us == rest + [u];
      assert u !in rest && forall v :: v in us <==> v in rest || v == u;
      CleanLast(r, CleanSpec(r, rest, now).repo, rest, us, u, now);
    } else {
      assert CleanedBy(r.creds, us, now) == r.creds;
    }
  }

  lemma {:induction false} CleanLast(r: Repo, k: Repo, rest: seq<Uid>, us: seq<Uid>, u: Uid, now: int)
    requires !r.readOnly && u in r.creds && u !in rest && forall v :: v in us <==> v in rest || v == u
    requires k == Repo(CleanedBy(r.creds, rest, now), r.disk - NamesOf(DroppedBy(r, rest, now)), false, r.cachedir)
    ensures u in k.creds && k.creds[u] == r.creds[u]
    ensures !Expired(r.creds[u], now) ==>
      CleanedBy(r.creds, us, now) == k.creds && DroppedBy(r, us, now) == DroppedBy(r, rest, now)
    ensures Expired(r.creds[u], now) ==> var (k', status) := RemoveSpec(k, u);
      && k' == Repo(CleanedBy(r.creds, us, now), r.disk - NamesOf(DroppedBy(r, us, now)), false, r.cachedir)
      && (status == Success <==> CanUnlink(r, u))
      && |DroppedBy(r, us, now)| == |DroppedBy(r, rest, now)| + if status == Success then 1 else 0
  {
    hide FileName, Fits, Expired;
    assert FileName(u) !in NamesOf(DroppedBy(r, rest, now)) by {
      forall v | v in rest && FileName(v) == FileName(u) ensures false { FileNameInjective(v, u); }
    }
    assert DroppedBy(r, us, now) == if u in Dropped(r, now) then DroppedBy(r, rest, now) + {u} else DroppedBy(r, rest, now);
    if Expired(r.creds[u], now) {
      assert CleanedBy(r.creds, us, now) == k.creds - {u};
    } else {
      assert CleanedBy(r.creds, us, now) == k.creds;
    }
  }

  /** A whole cleaning, in any order. */
  lemma {:induction false} CleanAll(r: Repo, us: seq<Uid>, now: int)
    requires !r.readOnly && Lists(us, r.creds)
    ensures var k := CleanSpec(r, us, now);
      && k.repo == Repo(Survivors(r.creds, now), r.disk - NamesOf(Dropped(r, now)), false, r.cachedir)
      && k.removed == |Dropped(r, now)|
    ensures var k := CleanSpec(r, us, now);
      (forall u :: u in r.creds && Expired(r.creds[u], now) ==> CanUnlink(r, u)) ==>
        k.status == Success && k.removed == |r.creds| - |k.repo.creds|
  {
    hide FileName, Fits, Expired, CanUnlink;
    CleanPrefix(r, us, now);
    hide CleanSpec, NamesOf;
    ListedAll(r, us, now);
    if forall u :: u in r.creds && Expired(r.creds[u], now) ==> CanUnlink(r, u) {
      AllDropped(r, now);
      assert us != [] ==> us[|us| - 1] in us;
    }
  }

  /** The main result about cleaning: whatever the order of the index, a credential is left, unchanged, if and only
      if its end time is not before `now` and neither is its renewal limit, where it has one; a cache file goes if
      and only if it is that of a credential that goes and its path is short enough; and the counter is the number of
      those, so it is the number of credentials dropped whenever all unlinks succeed. */
  lemma {:induction false} CleanMeaning(r: Repo, us: seq<Uid>, now: int)
    requires !r.readOnly && Lists(us, r.creds)
    ensures var k := CleanSpec(r, us, now);
      && (forall u :: u in k.repo.creds <==>
            u in r.creds && r.creds[u].endtime >= now && (r.creds[u].renewTill <= 0 || r.creds[u].renewTill >= now))
      && (forall u :: u in k.repo.creds ==> k.repo.creds[u] == r.creds[u])
      && k.repo.readOnly == r.readOnly && k.repo.cachedir == r.cachedir
    ensures var k := CleanSpec(r, us, now);
      && (forall f :: f in k.repo.disk <==>
            && f in r.disk
            && forall u :: u in r.creds && u !in k.repo.creds && |r.cachedir| + 1 + |f| < 128 ==> f != FileName(u))
      && (forall f :: f in k.repo.disk ==> k.repo.disk[f] == r.disk[f])
    ensures var k := CleanSpec(r, us, now);
      k.removed == |set u | u in r.creds && u !in k.repo.creds && |r.cachedir| + 1 + |FileName(u)| < 128 && FileName(u) in r.disk|
    ensures var k := CleanSpec(r, us, now);
      (forall u :: u in r.creds && u !in k.repo.creds ==> |r.cachedir| + 1 + |FileName(u)| < 128 && FileName(u) in r.disk) ==>
        k.status == Success && k.removed == |r.creds| - |k.repo.creds|
  {
    hide FileName, CleanSpec;
    CleanAll(r, us, now);
    var k := CleanSpec(r, us, now);
    assert Dropped(r, now) ==
      set u | u in r.creds && u !in k.repo.creds && |r.cachedir| + 1 + |FileName(u)| < 128 && FileName(u) in r.disk;
    forall f | f in r.disk
      ensures f in NamesOf(Dropped(r, now)) <==>
        exists u :: u in r.creds && u !in k.repo.creds && |r.cachedir| + 1 + |f| < 128 && f == FileName(u)
    {
      if u :| u in r.creds && u !in k.repo.creds && |r.cachedir| + 1 + |f| < 128 && f == FileName(u) {
        assert u in Dropped(r, now);
      }
    }
  }

  lemma {:induction false} ListedAll(r: Repo, us: seq<Uid>, now: int)
    requires Lists(us, r.creds)
    ensures DroppedBy(r, us, now) == Dropped(r, now) && CleanedBy(r.creds, us, now) == Survivors(r.creds, now)
  {
    hide CanUnlink, Expired;
  }

  lemma {:induction false} AllDropped(r: Repo, now: int)
    requires forall u :: u in r.creds && Expired(r.creds[u], now) ==> CanUnlink(r, u)
    ensures |Dropped(r, now)| == |r.creds| - |Survivors(r.creds, now)|
  {
    hide CanUnlink, Expired;
    KeysSplit(r.creds, Survivors(r.creds, now), Dropped(r, now));
  }

  lemma {:induction false} KeysSplit(m: map<Uid, Cred>, kept: map<Uid, Cred>, dropped: set<Uid>)
    requires m.Keys == kept.Keys + dropped && kept.Keys !! dropped
    ensures |m| == |kept| + |dropped|
  {
    assert |m.Keys| == |m| && |kept.Keys| == |kept|;
  }

  // ---------- single additions and removals ----------

  /** A removal: what goes from the map and the directory, and the status. */
  lemma {:induction false} RemoveMeaning(r: Repo, u: Uid)
    ensures var (r', status) := RemoveSpec(r, u);
      && (status == ReadOnly <==> r.readOnly) && (status == UidNotFound <==> !r.readOnly && u !in r.creds)
      && (r.readOnly || u !in r.creds ==> r' == r)
      && r'.readOnly == r.readOnly && r'.cachedir == r.cachedir
    ensures var (r', status) := RemoveSpec(r, u);
      !r.readOnly && u in r.creds ==>
        && (forall v :: v in r'.creds <==> v in r.creds && v != u)
        && (forall v :: v in r'.creds ==> r'.creds[v] == r.creds[v])
        && (forall f :: f in r'.disk <==> f in r.disk && !(f == FileName(u) && |r.cachedir| + 1 + |f| < 128))
        && (forall f :: f in r'.disk ==> r'.disk[f] == r.disk[f])
        && (status == CcacheBuild <==> |r.cachedir| + 1 + |FileName(u)| >= 128)
        && (status == Success <==> FileName(u) in r.disk && |r.cachedir| + 1 + |FileName(u)| < 128)
  {
    hide FileName;
  }

  /** An addition: it is stored if there is nothing under its uid, or something with an earlier renewal limit, or
      with the same one and no later end; then it is also written to its file, read-only mode and long paths aside. */
  lemma {:induction false} AddMeaning(r: Repo, c: Cred)
    ensures var (r', status) := AddSpec(r, c);
      var stored := c.uid !in r.creds || r.creds[c.uid].renewTill < c.renewTill
                    || (r.creds[c.uid].renewTill == c.renewTill && r.creds[c.uid].endtime <= c.endtime);
      var short := |r.cachedir| + 1 + |FileName(c.uid)| < 128;
      && r'.readOnly == r.readOnly && r'.cachedir == r.cachedir
      && (forall v :: v in r'.creds <==> v in r.creds || v == c.uid)
      && (forall v :: v in r'.creds ==> r'.creds[v] == if v == c.uid && stored then c else r.creds[v])
      && (forall f :: f in r'.disk <==> f in r.disk || (f == FileName(c.uid) && stored && !r.readOnly && short))
      && (forall f :: f in r'.disk ==>
            r'.disk[f] == if f == FileName(c.uid) && stored && !r.readOnly && short then Stored(c) else r.disk[f])
      && status == if stored && !r.readOnly && !short then CcacheBuild else Success
  {
    hide FileName;
  }

  /** Reading one more directory entry: only a file whose name begins with the prefix and whose path is short enough
      is read, and what it holds is added. */
  lemma {:induction false} LoadMeaning(r: Repo, names: seq<string>, name: string)
    ensures var s := LoadSpec(r, names);
      LoadSpec(r, []) == r &&
      LoadSpec(r, names + [name]) ==
        if "aukscc_" <= name && |s.cachedir| + 1 + |name| < 128 && name in s.disk && s.disk[name].Stored?
        then AddSpec(s, s.disk[name].cred).0 else s
  {
    hide AddSpec;
    assert (names + [name])[..|names|] == names;
    CachePrefix(name);
  }

  // ---------- the replacement policy ----------

  ghost predicate Weaker(a: Cred, b: Cred) {
    a.renewTill < b.renewTill || (a.renewTill == b.renewTill && a.endtime < b.endtime)
  }

  ghost function AddAll(r: Repo, cs: seq<Cred>): Repo {
    if cs == [] then r else AddSpec(AddAll(r, cs[..|cs| - 1]), cs[|cs| - 1]).0
  }

  /** `cs[i]` is the latest of the credentials offered for its uid that no other one beats. */
  ghost predicate LatestBest(cs: seq<Cred>, i: nat)
    requires i < |cs|
  {
    forall j :: 0 <= j < |cs| && cs[j].uid == cs[i].uid ==>
      !Weaker(cs[i], cs[j]) && (j > i ==> Weaker(cs[j], cs[i]))
  }

  lemma {:induction false} AddCreds(r: Repo, c: Cred)
    ensures AddSpec(r, c).0.creds ==
      if c.uid in r.creds && !Replaces(c, r.creds[c.uid]) then r.creds else r.creds[c.uid := c]
  {
  }

  /** The main result about additions: after any sequence of them, in read-only mode or not, the
      credential stored for a uid is the latest one offered among those with the greatest
      (renew_till, endtime), and there is none when none was offered. */
  lemma {:induction false} ReplacementPolicy(r: Repo, cs: seq<Cred>, u: Uid)
    requires u !in r.creds
    ensures var m := AddAll(r, cs).creds;
      if exists i :: 0 <= i < |cs| && cs[i].uid == u then
        u in m && exists i :: 0 <= i < |cs| && cs[i].uid == u && LatestBest(cs, i) && m[u] == cs[i]
      else u !in m
  {
    hide AddSpec;
    if cs == [] {
    } else {
      var n := |cs| - 1;
      var rest, c := cs[..n], cs[n];
      ReplacementPolicy(r, rest, u);
      var m := AddAll(r, rest).creds;
      AddCreds(AddAll(r, rest), c);
      if c.uid != u {
        assert forall i :: 0 <= i < n && cs[i].uid == u ==> rest[i].uid == u;
        if u in m {
          var i :| 0 <= i < |rest| && rest[i].uid == u && LatestBest(rest, i) && m[u] == rest[i];
          LatestBestGrows(rest, cs, i);
        }
      } else if u in m {
        var i :| 0 <= i < |rest| && rest[i].uid == u && LatestBest(rest, i) && m[u] == rest[i];
        LatestBestGrows(rest, cs, i);
      } else {
        assert forall i :: 0 <= i < n ==> rest[i].uid != u;
        assert LatestBest(cs, n);
      }
    }
  }

  lemma {:induction false} LatestBestGrows(rest: seq<Cred>, cs: seq<Cred>, i: nat)
    requires cs != [] && rest == cs[..|cs| - 1] && i < |rest| && LatestBest(rest, i)
    ensures LatestBest(cs, if cs[|cs| - 1].uid == cs[i].uid && Replaces(cs[|cs| - 1], cs[i]) then |cs| - 1 else i)
  {
    assert forall j :: 0 <= j < |rest| ==> rest[j] == cs[j];
  }

  // ---------- restarting from the cache directory ----------

  datatype Op = AddOp(cred: Cred) | RemoveOp(uid: Uid) | CleanOp(now: int) | RestartOp(names: seq<string>)

  /** One operation of a server that is past its initialisation; by `CleanIsApply` the effect of a
      cleaning does not depend on the order of its index.  A restart forgets the map and initialises the
      store again over the directory, which readdir lists as `names`. */
  ghost function Apply(r: Repo, op: Op): Repo {
    match op
    case AddOp(c) => AddSpec(r, c).0
    case RemoveOp(u) => RemoveSpec(r, u).0
    case CleanOp(now) => Repo(Survivors(r.creds, now), r.disk - NamesOf(Dropped(r, now)), r.readOnly, r.cachedir)
    case RestartOp(names) => LoadSpec(Repo(map[], r.disk, true, r.cachedir), names).(readOnly := false)
  }

  ghost function Run(r: Repo, ops: seq<Op>): Repo {
    if ops == [] then r else Apply(Run(r, ops[..|ops| - 1]), ops[|ops| - 1])
  }

  ghost predicate ListsDisk(names: seq<string>, r: Repo) { forall name :: name in names <==> name in r.disk }

  /** Every restart of the run reads the directory it finds. */
  ghost predicate RestartsRead(r: Repo, ops: seq<Op>) {
    ops != [] ==>
      var rest, op := ops[..|ops| - 1], ops[|ops| - 1];
      RestartsRead(r, rest) && (op.RestartOp? ==> ListsDisk(op.names, Run(r, rest)))
  }

  lemma {:induction false} CleanIsApply(r: Repo, us: seq<Uid>, now: int)
    requires !r.readOnly && Lists(us, r.creds)
    ensures CleanSpec(r, us, now).repo == Apply(r, CleanOp(now))
  {
    CleanAll(r, us, now);
  }

  /** A run does, one after the other, what the store does: the steps are those that `CredRepo` refines. */
  lemma {:induction false} RunSteps(r: Repo, ops: seq<Op>, op: Op, us: seq<Uid>)
    requires op.CleanOp? ==> !Run(r, ops).readOnly && Lists(us, Run(r, ops).creds)
    ensures var s := Run(r, ops);
      Run(r, []) == r && Run(r, ops + [op]) == match op
        case AddOp(c) => AddSpec(s, c).0
        case RemoveOp(u) => RemoveSpec(s, u).0
        case CleanOp(now) => CleanSpec(s, us, now).repo
        case RestartOp(names) => LoadSpec(Repo(map[], s.disk, true, s.cachedir), names).(readOnly := false)
  {
    hide AddSpec, RemoveSpec, CleanSpec, LoadSpec;
    assert (ops + [op])[..|ops|] == ops;
    if op.CleanOp? { CleanIsApply(Run(r, ops), us, op.now); }
  }

  ghost predicate FileOf(r: Repo, name: string, u: Uid) {
    u in r.creds && FileName(u) == name && Fits(r.cachedir, name)
  }

  /** The cache files are the stored credentials whose file name fits, each under the name of its uid. */
  ghost predicate Mirrors(r: Repo) {
    && (forall u :: u in r.creds ==> r.creds[u].uid == u)
    && (forall u :: u in r.creds && Fits(r.cachedir, FileName(u)) ==>
          FileName(u) in r.disk && r.disk[FileName(u)] == Stored(r.creds[u]))
    && (forall name :: name in r.disk && IsCacheName(name) ==> exists u :: FileOf(r, name, u))
  }

  lemma {:induction false} RemoveMirrors(r: Repo, u: Uid)
    requires Mirrors(r) && !r.readOnly
    ensures var r' := RemoveSpec(r, u).0;
      Mirrors(r') && !r'.readOnly && r'.cachedir == r.cachedir && r'.creds == r.creds - {u}
  {
    hide FileName, Fits;
    var r' := RemoveSpec(r, u).0;
    assert u !in r.creds ==> r.creds - {u} == r.creds;
    forall v | v in r'.creds && FileName(v) == FileName(u) ensures false { FileNameInjective(v, u); }
    forall name | name in r'.disk && IsCacheName(name) ensures exists v :: FileOf(r', name, v) {
      var v :| FileOf(r, name, v);
      assert FileOf(r', name, v);
    }
  }

  lemma {:induction false} AddMirrors(r: Repo, c: Cred)
    requires Mirrors(r) && !r.readOnly
    ensures var r' := AddSpec(r, c).0; Mirrors(r') && !r'.readOnly && r'.cachedir == r.cachedir
  {
    hide FileName, Fits;
    var u, r' := c.uid, AddSpec(r, c).0;
    if u !in r.creds || Replaces(c, r.creds[u]) {
      RemoveMirrors(r, u);
      hide Mirrors;
      var s := if u in r.creds then RemoveSpec(r, u).0 else r;
      assert Mirrors(s) && u !in s.creds;
      InsertMirrors(s, c);
    }
  }

  /** A credential and its file are stored together. */
  lemma {:induction false} InsertMirrors(s: Repo, c: Cred)
    requires Mirrors(s) && c.uid !in s.creds
    ensures var t := s.(creds := s.creds[c.uid := c]);
      Mirrors(if Fits(t.cachedir, FileName(c.uid)) then t.(disk := t.disk[FileName(c.uid) := Stored(c)]) else t)
  {
    hide FileName, Fits;
    var u, t := c.uid, s.(creds := s.creds[c.uid := c]);
    var r' := if Fits(t.cachedir, FileName(u)) then t.(disk := t.disk[FileName(u) := Stored(c)]) else t;
    forall v | v in s.creds && FileName(v) == FileName(u) ensures false { FileNameInjective(v, u); }
    forall name | name in r'.disk && IsCacheName(name) ensures exists v :: FileOf(r', name, v) {
      if name in s.disk {
        var v :| FileOf(s, name, v);
        assert FileOf(r', name, v);
      } else {
        assert FileOf(r', name, u);
      }
    }
  }

  lemma {:induction false} CleanMirrors(r: Repo, now: int)
    requires Mirrors(r) && !r.readOnly
    ensures Mirrors(Apply(r, CleanOp(now)))
  {
    hide FileName, Fits, Expired;
    var r' := Apply(r, CleanOp(now));
    forall u | u in r'.creds ensures FileName(u) !in NamesOf(Dropped(r, now)) {
      forall v | v in Dropped(r, now) && FileName(v) == FileName(u) ensures false { FileNameInjective(v, u); }
    }
    forall name | name in r'.disk && IsCacheName(name) ensures exists v :: FileOf(r', name, v) {
      var v :| FileOf(r, name, v);
      assert v in Dropped(r, now) ==> FileName(v) in NamesOf(Dropped(r, now));
      assert FileOf(r', name, v);
    }
  }

  /** A store that starts over a directory without cache files mirrors it. */
  lemma {:induction false} FreshMirrors(r: Repo)
    requires r.creds == map[] && forall name :: name in r.disk ==> !("aukscc_" <= name)
    ensures Mirrors(r)
  {
    forall name | name in r.disk ensures !IsCacheName(name) { CachePrefix(name); }
  }

  /** So does one that is restarted, over the same directory. */
  lemma {:induction false} RestartMirrors(r: Repo, names: seq<string>)
    requires Mirrors(r) && ListsDisk(names, r)
    ensures var r' := Apply(r, RestartOp(names)); r' == Repo(Fitting(r), r.disk, false, r.cachedir) && Mirrors(r')
  {
    hide FileName, Fits, LoadSpec;
    LoadPrefix(r, names);
    assert FittingIn(r, names) == Fitting(r);
    var r' := Repo(Fitting(r), r.disk, false, r.cachedir);
    forall name | name in r'.disk && IsCacheName(name) ensures exists u :: FileOf(r', name, u) {
      var u :| FileOf(r, name, u);
      assert FileOf(r', name, u);
    }
  }

  /** Over every run of additions, removals, cleanings and restarts the directory mirrors the map. */
  lemma {:induction false} RunMirrors(r: Repo, ops: seq<Op>)
    requires Mirrors(r) && !r.readOnly && RestartsRead(r, ops)
    ensures Mirrors(Run(r, ops)) && !Run(r, ops).readOnly && Run(r, ops).cachedir == r.cachedir
  {
    hide Mirrors, AddSpec, RemoveSpec, LoadSpec, ListsDisk;
    if ops == [] {
    } else {
      RunMirrors(r, ops[..|ops| - 1]);
      var s := Run(r, ops[..|ops| - 1]);
      match ops[|ops| - 1] {
        case AddOp(c) => AddMirrors(s, c);
        case RemoveOp(u) => RemoveMirrors(s, u);
        case CleanOp(now) => CleanMirrors(s, now);
        case RestartOp(names) => RestartMirrors(s, names);
      }
    }
  }

  ghost function Fitting(r: Repo): map<Uid, Cred> {
    map u | u in r.creds && Fits(r.cachedir, FileName(u)) :: r.creds[u]
  }

  /** The stored credentials whose files are among `names`. */
  ghost function FittingIn(r: Repo, names: seq<string>): map<Uid, Cred> {
    map u | u in r.creds && Fits(r.cachedir, FileName(u)) && FileName(u) in names :: r.creds[u]
  }

  lemma {:induction false} LoadPrefix(r: Repo, names: seq<string>)
    requires Mirrors(r) && forall name :: name in names ==> name in r.disk
    ensures LoadSpec(Repo(map[], r.disk, true, r.cachedir), names)
         == Repo(FittingIn(r, names), r.disk, true, r.cachedir)
  {
    hide FileName, Fits, Decimal;
    if names == [] {
      assert FittingIn(r, names) == map[];
    } else {
      var rest, name := names[..|names| - 1], names[|names| - 1];
      assert names == rest + [name];
      LoadPrefix(r, rest);
      LoadOne(r, rest, names, name);
    }
  }

  lemma {:induction false} LoadOne(r: Repo, rest: seq<string>, names: seq<string>, name: string)
    requires Mirrors(r) && names == rest + [name] && name in r.disk
    ensures var s := Repo(FittingIn(r, rest), r.disk, true, r.cachedir);
      FittingIn(r, names) ==
        if IsCacheName(name) && Fits(s.cachedir, name) && s.disk[name].Stored? then AddSpec(s, s.disk[name].cred).0.creds
        else s.creds
    ensures var s := Repo(FittingIn(r, rest), r.disk, true, r.cachedir);
      IsCacheName(name) && Fits(s.cachedir, name) && s.disk[name].Stored? ==>
        var s' := AddSpec(s, s.disk[name].cred).0; s'.disk == s.disk && s'.readOnly && s'.cachedir == s.cachedir
  {
    hide FileName, Fits;
    if IsCacheName(name) {
      var u :| FileOf(r, name, u);
      forall v | v in r.creds && FileName(v) == name ensures v == u { FileNameInjective(u, v); }
      assert FittingIn(r, names) == FittingIn(r, rest)[u := r.creds[u]];
    } else {
      forall v | v in r.creds && FileName(v) == name ensures false { CacheNames(v); }
      assert FittingIn(r, names) == FittingIn(r, rest);
    }
  }

  /** The main result about restarts.  From any store that its directory mirrors, run any operations, earlier
      restarts included, and load the directory that is left in any order of its entries: what comes back is
      the stored map without the credentials whose file name would have been truncated, so it is the stored
      map if and only if every name fits. */
  lemma {:induction false} RestartRecovers(start: Repo, ops: seq<Op>, names: seq<string>)
    requires Mirrors(start) && !start.readOnly && RestartsRead(start, ops)
    requires ListsDisk(names, Run(start, ops))
    ensures var r := Run(start, ops);
      var loaded := LoadSpec(Repo(map[], r.disk, true, r.cachedir), names).creds;
      && (forall u :: u in loaded <==> u in r.creds && |r.cachedir| + 1 + |FileName(u)| < 128)
      && (forall u :: u in loaded ==> loaded[u] == r.creds[u])
      && (loaded == r.creds <==> forall u :: u in r.creds ==> |r.cachedir| + 1 + |FileName(u)| < 128)
  {
    hide FileName, LoadSpec;
    var r := Run(start, ops);
    RunMirrors(start, ops);
    LoadPrefix(r, names);
    assert FittingIn(r, names) == Fitting(r);
    assert Fitting(r) == r.creds ==> forall u :: u in r.creds ==> u in Fitting(r);
  }

  /** An input for which a restart loses credentials: with a directory path of 119 characters or more no
      file name fits, so an added credential is stored, reported as an error and never written. */
  lemma {:induction false} LongDirectoryLosesAll(start: Repo, c: Cred)
    requires start == Repo(map[], map[], false, start.cachedir) && |start.cachedir| >= 119
    ensures AddSpec(start, c) == (start.(creds := map[c.uid := c]), CcacheBuild)
    ensures var r := Run(start, [AddOp(c)]);
      LoadSpec(Repo(map[], r.disk, true, r.cachedir), []).creds == map[] != r.creds
  {
    assert |SignedDecimal(ToInt32(c.uid))| >= 1;
    var ops := [AddOp(c)];
    assert ops[..|ops| - 1] == [] && c.uid in Run(start, ops).creds;
  }
}
