/** What a request session does to the repository and what it answers (src/auksd/auksd_req.c), as functions
    on values, and what that allows a client to do. */
module SessionSpec {
  import opened Options
  import opened Creds
  import opened Wire
  import opened CredWire
  import opened RepoSpec
  import C = CBuffers
  import D = Dumps
  import RC = RustCreds

  datatype Role = Unknown | Guest | User | Admin

  /** An authenticated client.  `parse` is the part of `auks_cred_init` that reads the Kerberos blob. */
  datatype Client = Client(principal: seq<byte>, role: Role, parse: seq<byte> -> Option<Cred>)

  /** `strncmp` over AUKS_PRINCIPAL_MAX_LENGTH characters finds no difference. */
  predicate SamePrincipal(a: seq<byte>, b: seq<byte>) { Name(a) == Name(b) }

  function Name(s: seq<byte>): seq<byte> {
    var t := RC.UntilNul(s);
    if |t| <= PRINCIPAL_MAX then t else t[..PRINCIPAL_MAX]
  }

  /** When two principals are the same: let `a` and `b` be what comes before the first NUL of each, or its first
      128 bytes if that is more. */
  lemma {:induction false} SamePrincipalMeans(s: seq<byte>, a: seq<byte>, t: seq<byte>, b: seq<byte>)
    requires a <= s && 0 !in a && |a| <= 128 && (|a| == 128 || |a| == |s| || s[|a|] == 0)
    requires b <= t && 0 !in b && |b| <= 128 && (|b| == 128 || |b| == |t| || t[|b|] == 0)
    ensures SamePrincipal(s, t) <==> a == b
  {
    NameIs(s, a);
    NameIs(t, b);
  }

  lemma {:induction false} NameIs(s: seq<byte>, a: seq<byte>)
    requires a <= s && 0 !in a && |a| <= 128 && (|a| == 128 || |a| == |s| || s[|a|] == 0)
    ensures Name(s) == a
  {
    RC.UntilNulMeans(s);
    var u := RC.UntilNul(s);
    hide RC.UntilNul;
    assert forall i :: 0 <= i < |a| ==> s[i] == a[i];
  }

  predicate Owns(who: Client, c: Cred) { SamePrincipal(c.principal, who.principal) }

  /** `_auksd_check_rw_right` */
  predicate MayUse(who: Client, c: Cred) { who.role == Admin || (who.role == User && Owns(who, c)) }

  datatype Reply = Plain(ty: MessageType) | TheCred(cred: Cred) | TheDump(creds: seq<Cred>)

  predicate ReplyOk(p: Reply) {
    match p case Plain(_) => true case TheCred(c) => InStruct(c) case TheDump(cs) => D.Packable(cs)
  }

  function ReplyType(p: Reply): MessageType {
    match p case Plain(ty) => ty case TheCred(_) => GetReply case TheDump(_) => DumpReply
  }

  function ReplyBody(p: Reply): seq<byte>
    requires ReplyOk(p)
  {
    match p case Plain(_) => [] case TheCred(c) => CredBytes(c) case TheDump(cs) => D.DumpBytes(cs)
  }

  function ReplyBytes(p: Reply): seq<byte>
    requires ReplyOk(p)
  {
    IntBytes(Code(ReplyType(p))) + ReplyBody(p)
  }

  const FAILED := Plain(ErrorReply)

  // ---------- requests ----------

  /** The type number of a request and the uid it names, zeros included where it is too short. */
  function TypeIn(m: seq<byte>): Int32 requires |m| >= 8 { Int(m, 0) }

  function UidIn(m: seq<byte>): Uid requires |m| >= 8 { ToUint32(Int(m, 4)) }

  /** The credential blob of an add request; `None` when the request is corrupted or the blob too large. */
  function BlobIn(m: seq<byte>): Option<seq<byte>>
    requires |m| >= 8
  {
    var length := Int(m, 4);
    if length > CastInt(|m| - 8) || ToUint32(length) > DATA_MAX then None
    else Some(m[8..8 + length])
  }

  function Add(r: Repo, who: Client, m: seq<byte>): (Repo, Reply)
    requires |m| >= 8
  {
    var blob := BlobIn(m);
    var cred := if blob.None? then None else who.parse(blob.value);
    if cred.None? then (r, FAILED)
    else if cred.value.addressless == 0 then (r, FAILED)
    else if who.role != Admin && !Owns(who, cred.value) then (r, FAILED)
    else
      var (r', status) := AddSpec(r, cred.value);
      (r', if status == Success then Plain(AddReply) else FAILED)
  }

  function Get(r: Repo, who: Client, u: Uid): Reply {
    if u in r.creds && MayUse(who, r.creds[u]) then TheCred(r.creds[u]) else FAILED
  }

  function Remove(r: Repo, who: Client, u: Uid): (Repo, Reply) {
    if u !in r.creds || !MayUse(who, r.creds[u]) then (r, FAILED)
    else
      var (r', status) := RemoveSpec(r, u);
      (r', if status == Success then Plain(RemoveReply) else FAILED)
  }

  /** One request other than close; `dump` are the credentials in the order of the index. */
  function Handle(r: Repo, who: Client, m: seq<byte>, dump: seq<Cred>): (Repo, Reply)
    requires |m| >= 8
  {
    match TypeOf(TypeIn(m))
    case Some(PingRequest) => (r, Plain(PingReply))
    case Some(ListRequest) => (r, Plain(PingReply))
    case Some(AddRequest) => Add(r, who, m)
    case Some(GetRequest) => (r, Get(r, who, UidIn(m)))
    case Some(RemoveRequest) => Remove(r, who, UidIn(m))
    case Some(DumpRequest) => (r, if who.role == Admin then TheDump(dump) else FAILED)
    case _ => (r, FAILED)
  }

  predicate IsClose(m: seq<byte>) requires |m| >= 8 { TypeIn(m) == Code(CloseRequest) }

  // ---------- one step ----------

  /** The type a request is answered with when it succeeds: a list request gets a ping reply. */
  function AnswerType(ty: MessageType): MessageType {
    match ty
    case PingRequest => PingReply
    case ListRequest => PingReply
    case AddRequest => AddReply
    case GetRequest => GetReply
    case RemoveRequest => RemoveReply
    case DumpRequest => DumpReply
    case _ => ErrorReply
  }

  /** Every request is answered by its own reply or by an error; requests of no known type, the credential
      dump request and replies sent as requests only by an error. */
  lemma {:induction false} AnswerIsReplyOrError(r: Repo, who: Client, m: seq<byte>, dump: seq<Cred>)
    requires |m| >= 8
    ensures var p := Handle(r, who, m, dump).1;
      ReplyType(p) == ErrorReply || (TypeOf(TypeIn(m)).Some? && ReplyType(p) == AnswerType(TypeOf(TypeIn(m)).value))
  {
    hide TypeOf, AddSpec, RemoveSpec, BlobIn, Int;
  }

  /** Everything a step of a client may change. */
  ghost predicate OwnStep(who: Client, r: Repo, r': Repo) {
    r'.creds == r.creds || (exists c :: Installs(who, r, r', c)) || (exists u :: Removes(who, r, r', u))
  }

  ghost predicate Installs(who: Client, r: Repo, r': Repo, c: Cred) {
    (who.role == Admin || SamePrincipal(c.principal, who.principal)) && r'.creds == r.creds[c.uid := c]
  }

  ghost predicate Removes(who: Client, r: Repo, r': Repo, u: Uid) {
    && u in r.creds && r'.creds == r.creds - {u}
    && (who.role == Admin || (who.role == User && SamePrincipal(r.creds[u].principal, who.principal)))
  }

  predicate SameEntry(r: Repo, r': Repo, u: Uid) {
    (u in r.creds <==> u in r'.creds) && (u in r.creds ==> r'.creds[u] == r.creds[u])
  }

  predicate SameFile(r: Repo, r': Repo, f: string) {
    (f in r.disk <==> f in r'.disk) && (f in r.disk ==> r'.disk[f] == r.disk[f])
  }

  lemma {:induction false} AddChanges(r: Repo, c: Cred)
    ensures var r' := AddSpec(r, c).0;
      && (r'.creds == r.creds || r'.creds == r.creds[c.uid := c])
      && (r' == r || (c.uid in r'.creds && r'.creds[c.uid] == c))
      && forall f :: f != FileName(c.uid) ==> SameFile(r, r', f)
  {
    hide FileName, Fits;
    var r' := AddSpec(r, c).0;
    assert (r.creds - {c.uid})[c.uid := c] == r.creds[c.uid := c];
  }

  /** A step of a client who is no administrator changes at most one entry: it installs a credential of the
      client's own principal, or (users only) removes an entry that holds one. */
  lemma {:induction false} StepIsOwn(r: Repo, who: Client, m: seq<byte>, dump: seq<Cred>)
    requires |m| >= 8
    ensures OwnStep(who, r, Handle(r, who, m, dump).0)
  {
    hide TypeOf, BlobIn, Int, SamePrincipal, FileName, Fits, AddSpec;
    match TypeOf(TypeIn(m))
    case Some(AddRequest) =>
      var blob := BlobIn(m);
      if blob.Some? && who.parse(blob.value).Some? {
        var c := who.parse(blob.value).value;
        AddChanges(r, c);
        if who.role == Admin || Owns(who, c) {
          var r' := AddSpec(r, c).0;
          assert r'.creds == r.creds || Installs(who, r, r', c);
        }
      }
    case Some(RemoveRequest) =>
      var u := UidIn(m);
      if u in r.creds && MayUse(who, r.creds[u]) {
        assert RemoveSpec(r, u).0.creds == r.creds || Removes(who, r, RemoveSpec(r, u).0, u);
      }
    case _ =>
  }

  /** A request of `who` may have changed the entry of `u`: what is there now is of its own principal, or what was
      there was its to remove. */
  predicate MayChange(who: Client, r: Repo, r': Repo, u: Uid) {
    || who.role == Admin
    || (u in r'.creds && SamePrincipal(r'.creds[u].principal, who.principal))
    || (u in r.creds && u !in r'.creds && who.role == User && SamePrincipal(r.creds[u].principal, who.principal))
  }

  /** A step concerns one uid: every other entry and every cache file but that of the uid stay as they are, and
      unless nothing at all changes the client may change the entry. */
  lemma {:induction false} StepTouches(r: Repo, who: Client, m: seq<byte>, dump: seq<Cred>) returns (u: Uid)
    requires |m| >= 8
    ensures var r' := Handle(r, who, m, dump).0;
      && (r' == r || MayChange(who, r, r', u))
      && (forall v :: v != u ==> SameEntry(r, r', v)) && (forall f :: f != FileName(u) ==> SameFile(r, r', f))
  {
    hide TypeOf, BlobIn, Int, SamePrincipal, FileName, Fits, AddSpec;
    u := UidIn(m);
    match TypeOf(TypeIn(m))
    case Some(AddRequest) =>
      var blob := BlobIn(m);
      if blob.Some? && who.parse(blob.value).Some? {
        var c := who.parse(blob.value).value;
        u := c.uid;
        AddChanges(r, c);
      }
    case Some(RemoveRequest) => RemoveTouches(r, who, u);
    case _ =>
  }

  lemma {:induction false} RemoveTouches(r: Repo, who: Client, u: Uid)
    ensures var r' := Remove(r, who, u).0;
      && (r' == r || MayChange(who, r, r', u))
      && (forall v :: v != u ==> SameEntry(r, r', v)) && (forall f :: f != FileName(u) ==> SameFile(r, r', f))
  {
    hide FileName, Fits, SamePrincipal;
  }

  /** A credential leaves the daemon only for an administrator or for a user whose principal it is of; guests
      get none, and only administrators get dumps. */
  lemma {:induction false} DisclosesOwn(r: Repo, who: Client, m: seq<byte>, dump: seq<Cred>)
    requires |m| >= 8
    ensures var p := Handle(r, who, m, dump).1;
      && (p.TheCred? ==> p.cred in r.creds.Values)
      && (p.TheCred? ==> who.role == Admin || (who.role == User && SamePrincipal(p.cred.principal, who.principal)))
      && (p.TheDump? ==> who.role == Admin && p.creds == dump && IsDump(who, m))
  {
    hide BlobIn, Int, SamePrincipal, AddSpec, RemoveSpec;
    match TypeOf(TypeIn(m))
    case Some(ty) => TypeCodes(TypeIn(m), ty);
    case None =>
  }

  // ---------- a whole session ----------

  /** A message that arrives, and whether its reply can be sent. */
  datatype Incoming = Incoming(data: seq<byte>, sends: bool)

  /** The repository at the end, the replies sent, and whether the session ended well. */
  datatype Run = Run(repo: Repo, replies: seq<Reply>, done: bool)

  predicate Receivable(ins: seq<Incoming>) { forall i :: 0 <= i < |ins| ==> |ins[i].data| < 0x8000_0000 }

  /** Loading a message works, or fails because of its size; for any other size the copy would leave the buffer. */
  predicate LoadDefined(data: seq<byte>) {
    |data| < 0x8000_0000 || (|data| < C.SIZE_LIMIT && C.InitFails(|data|))
  }

  /** The messages before the first one that is too large to be loaded. */
  function Loadable(ins: seq<Incoming>): (r: seq<Incoming>)
    ensures Receivable(r) && r <= ins && (|r| < |ins| ==> |ins[|r|].data| >= 0x8000_0000)
  {
    if ins == [] || |ins[0].data| >= 0x8000_0000 then [] else [ins[0]] + Loadable(ins[1..])
  }

  /** The do/while loop of `auksd_process_req` on the messages `ins`, after which nothing can be received. */
  function Session(r: Repo, who: Client, ins: seq<Incoming>, dumps: seq<seq<Cred>>): Run
    requires Receivable(ins) && |dumps| == |ins|
    decreases |ins|
  {
    if ins == [] then Run(r, [], false)
    else
      var m := C.Loaded(ins[0].data);
      if IsClose(m) then Run(r, [], true)
      else
        var (r', p) := Handle(r, who, m, dumps[0]);
        if !ins[0].sends then Run(r', [], false)
        else
          var run := Session(r', who, ins[1..], dumps[1..]);
          run.(replies := [p] + run.replies)
  }

  /** `dump` are the credentials of the repository, each once, in the order of the index. */
  ghost predicate ListsCreds(dump: seq<Cred>, r: Repo) {
    exists us :: Lists(us, r.creds) && D.IndexOrder(us) && dump == D.CredsAt(r.creds, us)
  }

  predicate IsDump(who: Client, m: seq<byte>) requires |m| >= 8 { who.role == Admin && TypeIn(m) == Code(DumpRequest) }

  /** What is dumped at each dump request of a session is the repository at that moment. */
  ghost predicate DumpsOk(r: Repo, who: Client, ins: seq<Incoming>, dumps: seq<seq<Cred>>)
    requires Receivable(ins) && |dumps| == |ins|
    decreases |ins|
  {
    if ins == [] || IsClose(C.Loaded(ins[0].data)) then true
    else
      var m := C.Loaded(ins[0].data);
      && (IsDump(who, m) ==> ListsCreds(dumps[0], r))
      && (ins[0].sends ==> DumpsOk(Handle(r, who, m, dumps[0]).0, who, ins[1..], dumps[1..]))
  }

  /** The requests before position `k` are answered, and the one at `k` closes the session. */
  predicate ClosesAt(ins: seq<Incoming>, k: nat)
    requires Receivable(ins)
  {
    k < |ins| && IsClose(C.Loaded(ins[k].data)) && forall j :: 0 <= j < k ==> !IsClose(C.Loaded(ins[j].data)) && ins[j].sends
  }

  /** Only a close request ends a session well, and then every request before it has had one reply. */
  lemma {:induction false} EndsWellByCloseOnly(r: Repo, who: Client, ins: seq<Incoming>, dumps: seq<seq<Cred>>)
    returns (k: nat)
    requires Receivable(ins) && |dumps| == |ins| && Session(r, who, ins, dumps).done
    ensures ClosesAt(ins, k) && |Session(r, who, ins, dumps).replies| == k
    decreases |ins|
  {
    hide C.Loaded, Handle, IsClose;
    k := 0;
    if IsClose(C.Loaded(ins[0].data)) {
    } else {
      var j := EndsWellByCloseOnly(Handle(r, who, C.Loaded(ins[0].data), dumps[0]).0, who, ins[1..], dumps[1..]);
      k := j + 1;
      assert forall i :: 0 < i <= k ==> ins[i] == ins[1..][i - 1];
    }
  }

  lemma {:induction false} CloseEndsWell(r: Repo, who: Client, ins: seq<Incoming>, dumps: seq<seq<Cred>>, k: nat)
    requires Receivable(ins) && |dumps| == |ins| && ClosesAt(ins, k)
    ensures Session(r, who, ins, dumps).done && |Session(r, who, ins, dumps).replies| == k
    decreases k
  {
    hide C.Loaded, Handle, IsClose;
    if k == 0 {
    } else {
      assert forall i :: 0 <= i < k ==> ins[1..][i] == ins[i + 1];
      CloseEndsWell(Handle(r, who, C.Loaded(ins[0].data), dumps[0]).0, who, ins[1..], dumps[1..], k - 1);
    }
  }

  /** What a client may bring about: new contents are of its own principal, and guests make nothing disappear. */
  ghost predicate OwnChanges(who: Client, r0: Repo, r1: Repo) {
    && (forall u :: u in r1.creds ==>
          (u in r0.creds && r1.creds[u] == r0.creds[u]) || SamePrincipal(r1.creds[u].principal, who.principal))
    && (forall u :: u in r0.creds && u !in r1.creds ==> who.role == User)
  }

  /** Over a whole session, a client who is no administrator leaves every entry as it was, or with a credential
      of its own principal, or, as a user, removed. */
  lemma {:induction false} SessionIsOwn(r: Repo, who: Client, ins: seq<Incoming>, dumps: seq<seq<Cred>>)
    requires Receivable(ins) && |dumps| == |ins| && who.role != Admin
    ensures OwnChanges(who, r, Session(r, who, ins, dumps).repo)
    decreases |ins|
  {
    hide C.Loaded, Handle, IsClose, SamePrincipal, OwnStep;
    if ins == [] || IsClose(C.Loaded(ins[0].data)) {
    } else {
      var m := C.Loaded(ins[0].data);
      var r' := Handle(r, who, m, dumps[0]).0;
      StepIsOwn(r, who, m, dumps[0]);
      StepChanges(who, r, r');
      SessionIsOwn(r', who, ins[1..], dumps[1..]);
      ChangesAdd(who, r, r', Session(r', who, ins[1..], dumps[1..]).repo);
    }
  }

  lemma {:induction false} StepChanges(who: Client, r: Repo, r': Repo)
    requires who.role != Admin && OwnStep(who, r, r')
    ensures OwnChanges(who, r, r')
  {
    hide SamePrincipal;
  }

  lemma {:induction false} ChangesAdd(who: Client, r0: Repo, r1: Repo, r2: Repo)
    requires OwnChanges(who, r0, r1) && OwnChanges(who, r1, r2)
    ensures OwnChanges(who, r0, r2)
  {
    hide SamePrincipal;
  }

  /** The repository when the message at position `i` of a session arrives, the ones before it having been
      requests. */
  function Before(r: Repo, who: Client, ins: seq<Incoming>, dumps: seq<seq<Cred>>, i: nat): Repo
    requires Receivable(ins) && |dumps| == |ins| && i <= |ins|
    decreases i
  {
    if i == 0 then r
    else Before(Handle(r, who, C.Loaded(ins[0].data), dumps[0]).0, who, ins[1..], dumps[1..], i - 1)
  }

  lemma {:induction false} BeforeNext(r: Repo, who: Client, ins: seq<Incoming>, dumps: seq<seq<Cred>>, i: nat)
    requires Receivable(ins) && |dumps| == |ins| && i < |ins|
    ensures Before(r, who, ins, dumps, i + 1) ==
      Handle(Before(r, who, ins, dumps, i), who, C.Loaded(ins[i].data), dumps[i]).0
    decreases i
  {
    hide C.Loaded, Handle;
    if i > 0 {
      BeforeNext(Handle(r, who, C.Loaded(ins[0].data), dumps[0]).0, who, ins[1..], dumps[1..], i - 1);
    }
  }

  /** A session reply by reply: each is that of its request in the repository that the ones before have left. */
  lemma {:induction false} SessionReplies(r: Repo, who: Client, ins: seq<Incoming>, dumps: seq<seq<Cred>>, i: nat)
    requires Receivable(ins) && |dumps| == |ins| && i < |Session(r, who, ins, dumps).replies|
    ensures i < |ins| && !IsClose(C.Loaded(ins[i].data)) && ins[i].sends
    ensures Session(r, who, ins, dumps).replies[i] ==
      Handle(Before(r, who, ins, dumps, i), who, C.Loaded(ins[i].data), dumps[i]).1
    decreases i
  {
    hide C.Loaded, Handle, IsClose;
    if i > 0 {
      SessionReplies(Handle(r, who, C.Loaded(ins[0].data), dumps[0]).0, who, ins[1..], dumps[1..], i - 1);
    }
  }

  /** The first message without a reply is the end of it: there is none, it is a close request, or its reply could not
      be sent, which does not undo what the request did. */
  lemma {:induction false} SessionEnds(r: Repo, who: Client, ins: seq<Incoming>, dumps: seq<seq<Cred>>)
    requires Receivable(ins) && |dumps| == |ins|
    ensures var run := Session(r, who, ins, dumps);
      var n := |run.replies|;
      && n <= |ins|
      && (n < |ins| ==> IsClose(C.Loaded(ins[n].data)) || !ins[n].sends)
      && (run.done <==> n < |ins| && IsClose(C.Loaded(ins[n].data)))
      && run.repo == Before(r, who, ins, dumps, if n < |ins| && !run.done then n + 1 else n)
    decreases |ins|
  {
    hide C.Loaded, Handle, IsClose;
    if ins == [] || IsClose(C.Loaded(ins[0].data)) {
    } else {
      BeforeNext(r, who, ins, dumps, 0);
      if ins[0].sends { SessionEnds(Handle(r, who, C.Loaded(ins[0].data), dumps[0]).0, who, ins[1..], dumps[1..]); }
    }
  }

  /** A reply discloses only credentials of the repository `r` that are the client's to have: one of them, or, to
      an administrator, all of them. */
  ghost predicate Discloses(who: Client, r: Repo, p: Reply) {
    && (p.TheCred? ==> p.cred in r.creds.Values)
    && (p.TheCred? ==> who.role == Admin || (who.role == User && SamePrincipal(p.cred.principal, who.principal)))
    && (p.TheDump? ==> who.role == Admin && ListsCreds(p.creds, r))
  }

  /** Every credential in the replies of a session was in the repository when its request arrived, and is the
      client's to have. */
  lemma {:induction false} SessionDisclosesOwn(r: Repo, who: Client, ins: seq<Incoming>, dumps: seq<seq<Cred>>, i: nat)
    requires Receivable(ins) && |dumps| == |ins| && DumpsOk(r, who, ins, dumps)
    requires i < |Session(r, who, ins, dumps).replies|
    ensures i < |ins| && Discloses(who, Before(r, who, ins, dumps, i), Session(r, who, ins, dumps).replies[i])
    decreases i
  {
    hide C.Loaded, Handle, IsClose, SamePrincipal, ListsCreds, IsDump;
    var m := C.Loaded(ins[0].data);
    var (r', p) := Handle(r, who, m, dumps[0]);
    if i == 0 {
      DisclosesOwn(r, who, m, dumps[0]);
    } else {
      SessionDisclosesOwn(r', who, ins[1..], dumps[1..], i - 1);
    }
  }

  /** When a request is read as one for uid 0: the bytes of the uid that are there are all zero.  A request that is
      only a type number is one. */
  lemma {:induction false} ReadsAsRoot(data: seq<byte>)
    requires |data| < 0x8000_0000
    ensures UidIn(C.Loaded(data)) == 0 <==> forall k :: 4 <= k < 8 && k < |data| ==> data[k] == 0
  {
    var m := C.Loaded(data);
    PaddedZero(data, m, |m| - |data|);
    hide C.Loaded, BytesInt;
    C.ZeroInt(m[4..8]);
  }

  lemma {:induction false} PaddedZero(data: seq<byte>, m: seq<byte>, pad: nat)
    requires m == data + Zeros(pad) && |m| >= 8
    ensures m[4..8] == Zeros(4) <==> forall k :: 4 <= k < 8 && k < |data| ==> data[k] == 0
  {
    assert forall k {:trigger m[k]} :: 4 <= k < 8 ==> m[k] == (if k < |data| then data[k] else 0) && m[4..8][k - 4] == m[k];
    if forall k :: 4 <= k < 8 && k < |data| ==> data[k] == 0 {
      assert forall j :: 0 <= j < 4 ==> m[4..8][j] == m[4 + j];
    } else {
      var k :| 4 <= k < 8 && k < |data| && data[k] != 0;
      assert m[4..8][k - 4] == data[k];
    }
  }
}
