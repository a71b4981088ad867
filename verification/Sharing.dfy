/** The repository under the requests of several clients and the cleaner (src/auksd/auksd_req.c,
    src/auksd/auksd.c): the processors and the cleaner take turns, one request or one cleaning each. */
module Sharing {
  import opened Creds
  import opened Options
  import opened RepoSpec
  import opened SessionSpec
  import C = CBuffers
  import RR = RepoRuns
  import S = Sessions

  /** A message of a client that a processor handles, with the credentials in the order of the index for a dump
      request; or a round of the cleaner. */
  datatype Turn = Request(who: Client, data: seq<byte>, dump: seq<Cred>) | Cleanup(now: int)

  /** A message can be a request: it could be loaded, and does not close its session. */
  predicate Handled(data: seq<byte>) { |data| < 0x8000_0000 && !IsClose(C.Loaded(data)) }

  ghost function Take(r: Repo, t: Turn): Repo {
    match t
    case Request(who, data, dump) => if Handled(data) then Handle(r, who, C.Loaded(data), dump).0 else r
    case Cleanup(now) => RR.Apply(r, RR.CleanOp(now))
  }

  /** The repository after some turns, in whatever way those of several clients are interleaved. */
  ghost function After(r: Repo, ts: seq<Turn>): Repo {
    if ts == [] then r else Take(After(r, ts[..|ts| - 1]), ts[|ts| - 1])
  }

  /** A turn may have changed the entry of `u`. */
  ghost predicate Accounts(t: Turn, r: Repo, r': Repo, u: Uid) {
    match t
    case Request(who, _, _) => MayChange(who, r, r', u)
    case Cleanup(now) =>
      && u in r.creds && u !in r'.creds
      && (r.creds[u].endtime < now || (0 < r.creds[u].renewTill && r.creds[u].renewTill < now))
  }

  ghost predicate AccountsForFile(t: Turn, r: Repo, r': Repo, f: string) {
    exists u :: f == FileName(u) && Accounts(t, r, r', u)
  }

  lemma {:induction false} TurnChanges(r: Repo, t: Turn)
    ensures var r' := Take(r, t);
      && (forall u :: SameEntry(r, r', u) || Accounts(t, r, r', u))
      && (forall f :: SameFile(r, r', f) || AccountsForFile(t, r, r', f))
  {
    hide C.Loaded, Handle, IsClose, MayChange, FileName;
    var r' := Take(r, t);
    match t
    case Request(who, data, dump) =>
      if Handled(data) {
        var u := StepTouches(r, who, C.Loaded(data), dump);
        forall f | !SameFile(r, r', f) ensures AccountsForFile(t, r, r', f) {
          assert f == FileName(u) && Accounts(t, r, r', u);
        }
      }
    case Cleanup(now) => CleaningChanges(r, now);
  }

  lemma {:induction false} CleaningChanges(r: Repo, now: int)
    ensures var t, r' := Cleanup(now), Take(r, Cleanup(now));
      && (forall u :: SameEntry(r, r', u) || Accounts(t, r, r', u))
      && (forall f :: SameFile(r, r', f) || AccountsForFile(t, r, r', f))
  {
    hide FileName;
    var t, r' := Cleanup(now), Take(r, Cleanup(now));
    forall f | !SameFile(r, r', f) ensures AccountsForFile(t, r, r', f) {
      var u :| u in RR.Dropped(r, now) && FileName(u) == f;
      assert Accounts(t, r, r', u);
    }
  }

  /** The turn `i` is the one that left the entry of `u` as it is in the end. */
  ghost predicate LeftEntry(r: Repo, ts: seq<Turn>, i: nat, u: Uid) {
    i < |ts| && Accounts(ts[i], After(r, ts[..i]), After(r, ts[..i + 1]), u) && SameEntry(After(r, ts[..i + 1]), After(r, ts), u)
  }

  ghost predicate LeftFile(r: Repo, ts: seq<Turn>, i: nat, f: string) {
    && i < |ts| && AccountsForFile(ts[i], After(r, ts[..i]), After(r, ts[..i + 1]), f)
    && SameFile(After(r, ts[..i + 1]), After(r, ts), f)
  }

  /** Over any interleaving, an entry is as it was in the beginning or as some turn left it that may have changed it
      then. */
  lemma {:induction false} SharedEntries(r: Repo, ts: seq<Turn>, u: Uid)
    ensures SameEntry(r, After(r, ts), u) || exists i: nat :: LeftEntry(r, ts, i, u)
  {
    hide Take, Accounts, AccountsForFile;
    if ts == [] {
    } else {
      var n := |ts| - 1;
      var rest := ts[..n];
      assert ts[..n + 1] == ts;
      SharedEntries(r, rest, u);
      TurnChanges(After(r, rest), ts[n]);
      if !SameEntry(After(r, rest), After(r, ts), u) {
        assert LeftEntry(r, ts, n, u);
      } else if i: nat :| LeftEntry(r, rest, i, u) {
        assert rest[..i] == ts[..i] && rest[..i + 1] == ts[..i + 1];
        assert LeftEntry(r, ts, i, u);
      }
    }
  }

  /** And so is every cache file, with the uid it is named after. */
  lemma {:induction false} SharedFiles(r: Repo, ts: seq<Turn>, f: string)
    ensures SameFile(r, After(r, ts), f) || exists i: nat :: LeftFile(r, ts, i, f)
  {
    hide Take, Accounts, AccountsForFile;
    if ts == [] {
    } else {
      var n := |ts| - 1;
      var rest := ts[..n];
      assert ts[..n + 1] == ts;
      SharedFiles(r, rest, f);
      TurnChanges(After(r, rest), ts[n]);
      if !SameFile(After(r, rest), After(r, ts), f) {
        assert LeftFile(r, ts, n, f);
      } else if i: nat :| LeftFile(r, rest, i, f) {
        assert rest[..i] == ts[..i] && rest[..i + 1] == ts[..i + 1];
        assert LeftFile(r, ts, i, f);
      }
    }
  }

  /** One of the clients that took a turn can have brought in the credential `c`. */
  ghost predicate Brought(ts: seq<Turn>, c: Cred) {
    exists i :: 0 <= i < |ts| && ts[i].Request? && (ts[i].who.role == Admin || SamePrincipal(c.principal, ts[i].who.principal))
  }

  /** An entry can have been removed: the cleaner, a user or an administrator took a turn. */
  ghost predicate Removable(ts: seq<Turn>) {
    exists i :: 0 <= i < |ts| && (ts[i].Cleanup? || ts[i].who.role == Admin || ts[i].who.role == User)
  }

  /** The main result about shared repositories: whatever the clients do and in whatever order their requests are
      handled, an entry that is new or has changed holds the principal of one of them, unless one is an
      administrator; and entries disappear only through the cleaner, users and administrators. */
  lemma {:induction false} SharedIsOwn(r: Repo, ts: seq<Turn>, u: Uid)
    ensures var e := After(r, ts);
      && (u in e.creds ==> (u in r.creds && r.creds[u] == e.creds[u]) || Brought(ts, e.creds[u]))
      && (u in r.creds && u !in e.creds ==> Removable(ts))
  {
    hide SamePrincipal, After;
    var e := After(r, ts);
    SharedEntries(r, ts, u);
    if !SameEntry(r, e, u) {
      var i: nat :| LeftEntry(r, ts, i, u);
      assert u in e.creds && ts[i].Request? ==> ts[i].who.role == Admin || SamePrincipal(e.creds[u].principal, ts[i].who.principal);
    }
  }

  /** A reply discloses only credentials that are in the repository when the request is handled, whoever has changed
      it since the session began, and that are the client's to have. */
  lemma {:induction false} SharedDisclosesOwn(r: Repo, ts: seq<Turn>, i: nat)
    requires i < |ts| && ts[i].Request? && Handled(ts[i].data)
    requires IsDump(ts[i].who, C.Loaded(ts[i].data)) ==> ListsCreds(ts[i].dump, After(r, ts[..i]))
    ensures var t, b := ts[i], After(r, ts[..i]); Discloses(t.who, b, Handle(b, t.who, C.Loaded(t.data), t.dump).1)
  {
    hide C.Loaded, Handle, SamePrincipal, ListsCreds, IsDump, After;
    DisclosesOwn(After(r, ts[..i]), ts[i].who, C.Loaded(ts[i].data), ts[i].dump);
  }

  /** Whatever the clients do, the directory goes on mirroring the map, so that a restart recovers it. */
  lemma {:induction false} SharedMirrors(r: Repo, ts: seq<Turn>)
    requires RR.Mirrors(r) && !r.readOnly
    ensures RR.Mirrors(After(r, ts)) && !After(r, ts).readOnly && After(r, ts).cachedir == r.cachedir
  {
    hide RR.Mirrors, Take;
    if ts == [] {
    } else {
      SharedMirrors(r, ts[..|ts| - 1]);
      TurnMirrors(After(r, ts[..|ts| - 1]), ts[|ts| - 1]);
    }
  }

  lemma {:induction false} TurnMirrors(r: Repo, t: Turn)
    requires RR.Mirrors(r) && !r.readOnly
    ensures var r' := Take(r, t); RR.Mirrors(r') && !r'.readOnly && r'.cachedir == r.cachedir
  {
    hide RR.Mirrors, C.Loaded, IsClose, AddSpec, RemoveSpec, MayUse, Owns, BlobIn, TypeIn, UidIn;
    match t
    case Request(who, data, dump) =>
      if Handled(data) {
        var m := C.Loaded(data);
        RR.RemoveMirrors(r, UidIn(m));
        var blob := BlobIn(m);
        if blob.Some? && who.parse(blob.value).Some? { RR.AddMirrors(r, who.parse(blob.value).value); }
      }
    case Cleanup(now) => RR.CleanMirrors(r, now);
  }

  // ---------- sessions take turns ----------

  /** The turns a session takes: those of its messages up to the close or the reply that cannot be sent. */
  function TurnsOf(who: Client, ins: seq<Incoming>, dumps: seq<seq<Cred>>): seq<Turn>
    requires Receivable(ins) && |dumps| == |ins|
    decreases |ins|
  {
    if ins == [] || IsClose(C.Loaded(ins[0].data)) then []
    else [Request(who, ins[0].data, dumps[0])] + if ins[0].sends then TurnsOf(who, ins[1..], dumps[1..]) else []
  }

  /** A session that has the repository to itself is the run of its turns. */
  lemma {:induction false} SessionIsTurns(r: Repo, who: Client, ins: seq<Incoming>, dumps: seq<seq<Cred>>)
    requires Receivable(ins) && |dumps| == |ins|
    ensures Session(r, who, ins, dumps).repo == After(r, TurnsOf(who, ins, dumps))
    decreases |ins|
  {
    hide C.Loaded, Handle, IsClose;
    if ins == [] || IsClose(C.Loaded(ins[0].data)) {
    } else {
      var t := Request(who, ins[0].data, dumps[0]);
      var rest := if ins[0].sends then TurnsOf(who, ins[1..], dumps[1..]) else [];
      AfterFirst(r, t, rest);
      if ins[0].sends { SessionIsTurns(Take(r, t), who, ins[1..], dumps[1..]); }
    }
  }

  lemma {:induction false} AfterFirst(r: Repo, t: Turn, ts: seq<Turn>)
    ensures After(r, [t] + ts) == After(Take(r, t), ts)
  {
    hide Take;
    if ts == [] {
      assert [t] + ts == [t] && [t][..0] == [];
      assert After(r, [t]) == Take(After(r, []), t);
    } else {
      var n := |ts| - 1;
      AfterFirst(r, t, ts[..n]);
      assert ([t] + ts)[..n + 1] == [t] + ts[..n];
    }
  }

  /** Each message a processor handles is a turn, whatever state the others have left the repository in. */
  lemma {:induction false} MessageIsTurn(r: Repo, who: Client, data: seq<byte>, dump: seq<Cred>, sends: bool, r': Repo,
      status: S.MsgStatus, reply: Option<seq<byte>>)
    requires |data| < 0x8000_0000 && S.Told(r, who, C.Loaded(data), dump, sends, r', status, reply)
    ensures r' == Take(r, Request(who, data, dump))
  {
    hide C.Loaded, Handle, IsClose;
  }

  /** And a round of the cleaner is one, whatever the order of its index. */
  lemma {:induction false} CleaningIsTurn(r: Repo, us: seq<Uid>, now: int)
    requires !r.readOnly && Lists(us, r.creds)
    ensures CleanSpec(r, us, now).repo == Take(r, Cleanup(now))
  {
    RR.CleanIsApply(r, us, now);
  }

  /** What a client who is no administrator makes disappear over a session is, at that moment, of its own principal,
      and the client is a user. */
  lemma {:induction false} SessionRemovesOwn(r: Repo, who: Client, ins: seq<Incoming>, dumps: seq<seq<Cred>>, u: Uid)
    returns (i: nat)
    requires Receivable(ins) && |dumps| == |ins| && who.role != Admin
    requires u in r.creds && u !in Session(r, who, ins, dumps).repo.creds
    ensures var ts := TurnsOf(who, ins, dumps);
      && i < |ts| && who.role == User
      && u in After(r, ts[..i]).creds && u !in After(r, ts[..i + 1]).creds
      && SamePrincipal(After(r, ts[..i]).creds[u].principal, who.principal)
  {
    hide SamePrincipal, After, Session;
    var ts := TurnsOf(who, ins, dumps);
    SessionIsTurns(r, who, ins, dumps);
    SharedEntries(r, ts, u);
    i :| LeftEntry(r, ts, i, u);
    TurnsAreWhos(who, ins, dumps, i);
  }

  lemma {:induction false} TurnsAreWhos(who: Client, ins: seq<Incoming>, dumps: seq<seq<Cred>>, i: nat)
    requires Receivable(ins) && |dumps| == |ins| && i < |TurnsOf(who, ins, dumps)|
    ensures TurnsOf(who, ins, dumps)[i].Request? && TurnsOf(who, ins, dumps)[i].who == who
    decreases i
  {
    hide C.Loaded, IsClose;
    if i == 0 {
    } else {
      TurnsAreWhos(who, ins[1..], dumps[1..], i - 1);
    }
  }
}
