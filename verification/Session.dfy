/** The request session of the daemon (src/auksd/auksd_req.c), from the point where the client is
    authenticated and its role is known. */
module Sessions {
  import opened Options
  import opened Creds
  import opened Wire
  import opened CredWire
  import opened RepoSpec
  import opened SessionSpec
  import FreeLists
  import L = Libraries
  import C = CBuffers
  import CC = CCreds
  import D = Dumps
  import CR = CredRepos

  /** A C structure in memory always has arrays of the declared sizes. */
  ghost predicate AllInStruct(r: Repo) { forall u :: u in r.creds ==> InStruct(r.creds[u]) }

  ghost predicate ParsesToStruct(who: Client) {
    forall b :: who.parse(b).Some? ==> InStruct(who.parse(b).value)
  }

  /** The handler failed, or `rep` is the message for reply `p`. */
  ghost predicate Answers(ok: bool, rep: C.Message?, p: Reply)
    reads if rep == null then {} else {rep, rep.buffer}, if rep == null || rep.buffer.data == null then {} else {rep.buffer.data}
  {
    if !ok then p == FAILED
    else rep != null && rep.Valid() && ReplyOk(p) && p != FAILED && rep.buffer.Bytes() == ReplyBytes(p)
  }

  /** A request as the handlers find it: its type has been read. */
  ghost predicate Opened(req: C.Message, m: seq<byte>)
    reads req, req.buffer, if req.buffer.data == null then {} else {req.buffer.data}
  {
    req.Valid() && req.buffer.processed == 4 && req.buffer.data[..] == m && |m| >= 8
  }

  /** `_auksd_ping_req`, and `_auksd_list_req`, which does the same. */
  method PingReq() returns (ok: bool, rep: C.Message?)
    ensures Answers(ok, rep, Plain(PingReply)) && fresh(rep) && fresh(rep.buffer) && fresh(rep.buffer.data)
  {
    rep := new C.Message(Code(PingReply), None);
    ok := true;
  }

  /** `_auksd_check_rw_right` */
  method CheckRwRight(who: Client, cred: Cred) returns (ok: bool)
    ensures ok <==> who.role == Admin || (who.role == User && SamePrincipal(cred.principal, who.principal))
  {
    match who.role
    case Admin => ok := true;
    case User => ok := SamePrincipal(cred.principal, who.principal);
    case Guest => ok := false;
    case Unknown => ok := false;
  }

  /** `_auksd_add_req` */
  method AddReq(cr: CR.CredRepo, who: Client, req: C.Message, ghost m: seq<byte>, now: int)
    returns (ok: bool, rep: C.Message?)
    requires cr.Valid() && AllInStruct(cr.View()) && ParsesToStruct(who) && Opened(req, m)
    modifies cr, cr.library, cr.library.refs, cr.library.objs, req.buffer`processed
    ensures cr.Valid() && AllInStruct(cr.View())
    ensures cr.View() == Add(old(cr.View()), who, m).0 && Answers(ok, rep, Add(old(cr.View()), who, m).1)
    ensures ok ==> fresh(rep) && fresh(rep.buffer) && fresh(rep.buffer.data)
  {
    hide FreeLists.ChainsOk, L.Catalog, L.InOrder, L.MapOf, L.Library.Holding, CR.Keyed, CR.ByUid, BytesInt, AddSpec;
    hide C.Growth, C.Grown, C.Wraps, C.Covers, C.InitialLength, C.InitFails;
    rep := null;
    var length := CC.UnpackInt(req.buffer, m);
    if length.None? { return false, rep; }
    var unpacked := req.buffer.length - req.buffer.processed;
    if length.value > CastInt(unpacked) { return false, rep; }
    if ToUint32(length.value) > DATA_MAX { return false, rep; }
    SmallLength(length.value, unpacked);
    var blob := req.buffer.data[8..8 + length.value];
    assert blob == m[8..8 + length.value];
    var cred := who.parse(blob);
    if cred.None? { return false, rep; }
    if cred.value.addressless == 0 { return false, rep; }
    match who.role {
      case Admin =>
      case _ =>
        if !SamePrincipal(cred.value.principal, who.principal) { return false, rep; }
    }
    StillInStruct(cr.View(), cred.value);
    var status := cr.Add(cred.value, now);
    if status != Success { return false, rep; }
    rep := new C.Message(Code(AddReply), None);
    ok := true;
  }

  lemma {:induction false} SmallLength(length: Int32, unpacked: nat)
    requires length <= CastInt(unpacked) && ToUint32(length) <= DATA_MAX
    ensures 0 <= length <= unpacked
  {
  }

  lemma {:induction false} StillInStruct(r: Repo, c: Cred)
    requires AllInStruct(r) && InStruct(c)
    ensures AllInStruct(AddSpec(r, c).0)
  {
    hide InStruct, FileName, Fits;
    AddChanges(r, c);
  }

  /** `_auksd_get_req` */
  method GetReq(cr: CR.CredRepo, who: Client, req: C.Message, ghost m: seq<byte>) returns (ok: bool, rep: C.Message?)
    requires cr.Valid() && AllInStruct(cr.View()) && Opened(req, m)
    modifies cr.library.refs, req.buffer`processed
    ensures cr.Valid() && cr.View() == old(cr.View()) && Answers(ok, rep, Get(cr.View(), who, UidIn(m)))
    ensures ok ==> fresh(rep) && fresh(rep.buffer) && fresh(rep.buffer.data)
  {
    hide FreeLists.ChainsOk, L.Catalog, L.InOrder, L.MapOf, L.Library.Holding, CR.Keyed, CR.ByUid;
    hide BytesInt, SamePrincipal, InStruct, CredBytes, C.Growth, C.Grown, C.Wraps, C.Covers, C.InitialLength, C.InitFails;
    rep := null;
    var requestedUid := CC.UnpackInt(req.buffer, m);
    if requestedUid.None? { return false, rep; }
    var uid := ToUint32(requestedUid.value);
    var status, cred := cr.Get(uid, ZERO_CRED);
    if status != Success { return false, rep; }
    var allowed := CheckRwRight(who, cred);
    if !allowed { return false, rep; }
    rep := new C.Message(Code(GetReply), None);
    CC.CredPack(cred, rep.buffer);
    ok := true;
  }

  /** `_auksd_remove_req` */
  method RemoveReq(cr: CR.CredRepo, who: Client, req: C.Message, ghost m: seq<byte>) returns (ok: bool, rep: C.Message?)
    requires cr.Valid() && AllInStruct(cr.View()) && Opened(req, m)
    modifies cr, cr.library, cr.library.refs, cr.library.objs, req.buffer`processed
    ensures cr.Valid() && AllInStruct(cr.View())
    ensures cr.View() == Remove(old(cr.View()), who, UidIn(m)).0 && Answers(ok, rep, Remove(old(cr.View()), who, UidIn(m)).1)
    ensures ok ==> fresh(rep) && fresh(rep.buffer) && fresh(rep.buffer.data)
  {
    hide FreeLists.ChainsOk, L.Catalog, L.InOrder, L.MapOf, CR.Keyed, CR.ByUid, BytesInt, SamePrincipal, InStruct, FileName,
      Fits;
    rep := null;
    var requestedUid := CC.UnpackInt(req.buffer, m);
    if requestedUid.None? { return false, rep; }
    var uid := ToUint32(requestedUid.value);
    var status, cred := cr.Get(uid, ZERO_CRED);
    if status != Success { return false, rep; }
    var allowed := CheckRwRight(who, cred);
    if !allowed { return false, rep; }
    status := cr.Remove(uid);
    if status != Success { return false, rep; }
    rep := new C.Message(Code(RemoveReply), None);
    ok := true;
  }

  /** `_auksd_dump_req` */
  method DumpReq(cr: CR.CredRepo, who: Client) returns (ok: bool, rep: C.Message?, ghost dump: seq<Cred>)
    requires cr.Valid() && AllInStruct(cr.View())
    modifies cr.library`itemNb, cr.library`index, cr.library.refs
    ensures cr.Valid() && cr.View() == old(cr.View()) && (who.role == Admin ==> ListsCreds(dump, cr.View()))
    ensures Answers(ok, rep, if who.role == Admin then TheDump(dump) else FAILED)
    ensures ok ==> fresh(rep) && fresh(rep.buffer) && fresh(rep.buffer.data)
  {
    hide FreeLists.ChainsOk, L.Catalog, L.InOrder, L.MapOf, CR.Keyed, CR.ByUid, D.DumpBytes, InStruct;
    rep, dump := null, [];
    if who.role != Admin {
      return false, rep, dump;
    }
    rep := new C.Message(Code(DumpReply), None);
    var status;
    ghost var us;
    status, us := D.PackRepo(cr, rep.buffer);
    dump := D.CredsAt(cr.View().creds, us);
    ok := true;
  }

  // ---------- the loop ----------

  datatype MsgStatus = Processed | RequestDone | MsgError

  /** The switch of `_auksd_process_msg`, for anything but a close request. */
  method Dispatch(cr: CR.CredRepo, who: Client, req: C.Message, ghost m: seq<byte>, now: int)
    returns (ok: bool, rep: C.Message?, ghost dump: seq<Cred>)
    requires cr.Valid() && AllInStruct(cr.View()) && ParsesToStruct(who) && Opened(req, m) && req.ty == TypeIn(m) && !IsClose(m)
    modifies cr, cr.library, cr.library.refs, cr.library.objs, req.buffer`processed
    ensures cr.Valid() && AllInStruct(cr.View()) && (IsDump(who, m) ==> ListsCreds(dump, old(cr.View())))
    ensures cr.View() == Handle(old(cr.View()), who, m, dump).0 && Answers(ok, rep, Handle(old(cr.View()), who, m, dump).1)
    ensures ok ==> fresh(rep) && fresh(rep.buffer) && fresh(rep.buffer.data)
  {
    hide FreeLists.ChainsOk, L.Catalog, L.InOrder, L.MapOf, CR.Keyed, CR.ByUid, Add, Get, Remove, AllInStruct,
      ParsesToStruct, Answers, Opened, ListsCreds, TypeIn, UidIn;
    ok, rep := false, null;
    dump := [];
    NoAnswer();
    TypeCodes(req.ty, DumpRequest);
    match TypeOf(req.ty)
    case Some(PingRequest) => ok, rep := PingReq();
    case Some(ListRequest) => ok, rep := PingReq();
    case Some(AddRequest) => ok, rep := AddReq(cr, who, req, m, now);
    case Some(GetRequest) => ok, rep := GetReq(cr, who, req, m);
    case Some(RemoveRequest) => ok, rep := RemoveReq(cr, who, req, m);
    case Some(DumpRequest) => ok, rep, dump := DumpReq(cr, who);
    case _ =>
  }

  lemma {:induction false} NoAnswer()
    ensures Answers(false, null, FAILED)
  {
  }

  /** `_auksd_process_msg` on a received message; `reply` is what was sent, if anything. */
  method ProcessMsg(cr: CR.CredRepo, who: Client, incoming: Incoming, now: int)
    returns (status: MsgStatus, reply: Option<seq<byte>>, ghost dump: seq<Cred>)
    requires cr.Valid() && AllInStruct(cr.View()) && ParsesToStruct(who) && LoadDefined(incoming.data)
    modifies cr, cr.library, cr.library.refs, cr.library.objs
    ensures cr.Valid() && AllInStruct(cr.View())
    ensures if |incoming.data| >= 0x8000_0000 then cr.View() == old(cr.View()) && status == MsgError && reply == None
            else Told(old(cr.View()), who, C.Loaded(incoming.data), dump, incoming.sends, cr.View(), status, reply)
  {
    hide FreeLists.ChainsOk, L.Catalog, L.InOrder, L.MapOf, CR.Keyed, CR.ByUid, BytesInt, Handle, AllInStruct,
      ParsesToStruct, InStruct, ListsCreds, C.Loaded, TypeIn, TypeOf, Told, L.Library.Holding, C.InitFails, C.InitialLength;
    var req := new C.Message.Load(incoming.data);
    if req.buffer.data == null {
      return MsgError, None, [];
    }
    ghost var m := req.buffer.data[..];
    FirstInt(incoming.data, m, req.ty);
    TypeCodes(req.ty, CloseRequest);
    if TypeOf(req.ty) == Some(CloseRequest) {
      ClosesQuietly(cr.View(), who, m, incoming.sends);
      return RequestDone, None, [];
    }
    status, reply, dump := Answer(cr, who, req, m, incoming.sends, now);
    req.FreeContents();
  }

  lemma {:induction false} ClosesQuietly(r: Repo, who: Client, m: seq<byte>, sends: bool)
    requires |m| >= 8 && IsClose(m)
    ensures Told(r, who, m, [], sends, r, RequestDone, None)
  {
  }

  /** A request other than close: handled, answered by the handler's reply or by an error, and the reply sent. */
  method Answer(cr: CR.CredRepo, who: Client, req: C.Message, ghost m: seq<byte>, sends: bool, now: int)
    returns (status: MsgStatus, reply: Option<seq<byte>>, ghost dump: seq<Cred>)
    requires cr.Valid() && AllInStruct(cr.View()) && ParsesToStruct(who)
    requires Opened(req, m) && req.ty == TypeIn(m) && !IsClose(m)
    modifies cr, cr.library, cr.library.refs, cr.library.objs, req.buffer`processed
    ensures cr.Valid() && AllInStruct(cr.View())
    ensures Told(old(cr.View()), who, m, dump, sends, cr.View(), status, reply)
  {
    hide FreeLists.ChainsOk, L.Catalog, L.InOrder, L.MapOf, CR.Keyed, CR.ByUid, BytesInt, Handle, AllInStruct,
      ParsesToStruct, InStruct, ListsCreds, TypeIn, Opened;
    var ok, rep;
    ok, rep, dump := Dispatch(cr, who, req, m, now);
    if !ok {
      rep := new C.Message(Code(ErrorReply), None);
    }
    status, reply := SendReply(rep, sends);
  }

  /** The end of `_auksd_process_msg`: the packed bytes are sent and the message freed. */
  method SendReply(rep: C.Message, sends: bool) returns (status: MsgStatus, reply: Option<seq<byte>>)
    requires rep.Valid()
    modifies rep, rep.buffer
    ensures if sends then status == Processed && reply == Some(old(rep.buffer.Bytes())) else status == MsgError && reply == None
  {
    status, reply := MsgError, None;
    if sends {
      status, reply := Processed, Some(rep.buffer.data[..rep.buffer.processed]);
    }
    rep.FreeContents();
  }

  /** What one message does: nothing is said about a close request but that it ends the session. */
  ghost predicate Told(r: Repo, who: Client, m: seq<byte>, dump: seq<Cred>, sends: bool, r': Repo, status: MsgStatus,
      reply: Option<seq<byte>>)
    requires |m| >= 8
  {
    if IsClose(m) then r' == r && status == RequestDone && reply == None
    else
      var (q, p) := Handle(r, who, m, dump);
      && r' == q && ReplyOk(p) && (IsDump(who, m) ==> ListsCreds(dump, r))
      && if sends then status == Processed && reply == Some(ReplyBytes(p)) else status == MsgError && reply == None
  }

  lemma {:induction false} FirstInt(data: seq<byte>, m: seq<byte>, ty: Int32)
    requires |data| < 0x8000_0000 && m == C.Loaded(data) && ty == BytesInt(m[..4])
    ensures ty == TypeIn(m)
  {
    hide BytesInt;
    assert m[..4] == m[0..4];
  }

  /** After some messages the session is as if it started over in `r` with the rest `ins` of the messages,
      the replies `ps` having been sent; `dumps` are those of the messages so far. */
  ghost predicate Reached(whole: seq<Incoming>, r0: Repo, who: Client, ins: seq<Incoming>, dumps: seq<seq<Cred>>,
      r: Repo, ps: seq<Reply>)
    requires Receivable(whole) && Receivable(ins) && |dumps| + |ins| == |whole|
  {
    forall ds: seq<seq<Cred>> :: |ds| == |ins| ==>
      var run := Session(r, who, ins, ds);
      && Session(r0, who, whole, dumps + ds) == run.(replies := ps + run.replies)
      && (DumpsOk(r, who, ins, ds) ==> DumpsOk(r0, who, whole, dumps + ds))
  }

  lemma {:induction false} ReachedStart(whole: seq<Incoming>, r0: Repo, who: Client)
    requires Receivable(whole)
    ensures Reached(whole, r0, who, whole, [], r0, [])
  {
    forall ds: seq<seq<Cred>> | |ds| == |whole|
      ensures var run := Session(r0, who, whole, ds); Session(r0, who, whole, [] + ds) == run.(replies := [] + run.replies)
      ensures DumpsOk(r0, who, whole, ds) ==> DumpsOk(r0, who, whole, [] + ds)
    {
      assert [] + ds == ds;
      assert [] + Session(r0, who, whole, ds).replies == Session(r0, who, whole, ds).replies;
    }
  }

  lemma {:induction false} ReachedNext(whole: seq<Incoming>, r0: Repo, who: Client, ins: seq<Incoming>,
      dumps: seq<seq<Cred>>, r: Repo, ps: seq<Reply>, dump: seq<Cred>)
    requires Receivable(whole) && Receivable(ins) && |dumps| + |ins| == |whole|
    requires Reached(whole, r0, who, ins, dumps, r, ps)
    requires ins != [] && !IsClose(C.Loaded(ins[0].data)) && ins[0].sends
    requires IsDump(who, C.Loaded(ins[0].data)) ==> ListsCreds(dump, r)
    ensures var (r', p) := Handle(r, who, C.Loaded(ins[0].data), dump);
      Reached(whole, r0, who, ins[1..], dumps + [dump], r', ps + [p])
  {
    hide Handle, C.Loaded, IsClose, IsDump, ListsCreds;
    var (r', p) := Handle(r, who, C.Loaded(ins[0].data), dump);
    forall ds: seq<seq<Cred>> | |ds| == |ins[1..]|
      ensures var run := Session(r', who, ins[1..], ds);
        Session(r0, who, whole, dumps + [dump] + ds) == run.(replies := ps + [p] + run.replies)
      ensures DumpsOk(r', who, ins[1..], ds) ==> DumpsOk(r0, who, whole, dumps + [dump] + ds)
    {
      assert dumps + [dump] + ds == dumps + ([dump] + ds);
      assert ([dump] + ds)[1..] == ds;
      var run := Session(r', who, ins[1..], ds);
      assert ps + ([p] + run.replies) == ps + [p] + run.replies;
    }
  }

  /** The session ends here: nothing more arrives, the client closes, or a reply cannot be sent. */
  lemma {:induction false} ReachedEnd(whole: seq<Incoming>, r0: Repo, who: Client, ins: seq<Incoming>,
      dumps: seq<seq<Cred>>, r: Repo, ps: seq<Reply>, dump: seq<Cred>, ds: seq<seq<Cred>>)
    requires Receivable(whole) && Receivable(ins) && |dumps| + |ins| == |whole|
    requires Reached(whole, r0, who, ins, dumps, r, ps)
    requires ins != [] ==> IsClose(C.Loaded(ins[0].data)) || !ins[0].sends
    requires |ds| == |ins| && (ins != [] ==> ds[0] == dump)
    requires ins != [] && !IsClose(C.Loaded(ins[0].data)) && IsDump(who, C.Loaded(ins[0].data)) ==> ListsCreds(dump, r)
    ensures DumpsOk(r0, who, whole, dumps + ds)
    ensures Session(r0, who, whole, dumps + ds) ==
      if ins == [] then Run(r, ps, false)
      else if IsClose(C.Loaded(ins[0].data)) then Run(r, ps, true)
      else Run(Handle(r, who, C.Loaded(ins[0].data), dump).0, ps, false)
  {
    hide Handle, C.Loaded, IsClose, IsDump, ListsCreds;
    assert ps + [] == ps;
  }

  ghost predicate RepliesAre(replies: seq<seq<byte>>, ps: seq<Reply>) {
    |replies| == |ps| && forall i :: 0 <= i < |ps| ==> ReplyOk(ps[i]) && replies[i] == ReplyBytes(ps[i])
  }

  /** Where the loop is after `i` messages. */
  ghost predicate Progress(whole: seq<Incoming>, r0: Repo, who: Client, i: nat, dumps: seq<seq<Cred>>, r: Repo,
      ps: seq<Reply>, replies: seq<seq<byte>>) {
    && i <= |whole| && |dumps| == i && Receivable(whole)
    && Reached(whole, r0, who, whole[i..], dumps, r, ps) && RepliesAre(replies, ps)
  }

  lemma {:induction false} ProgressNext(whole: seq<Incoming>, r0: Repo, who: Client, i: nat, dumps: seq<seq<Cred>>,
      r: Repo, ps: seq<Reply>, replies: seq<seq<byte>>, dump: seq<Cred>, r': Repo, reply: Option<seq<byte>>)
    returns (p: Reply)
    requires Progress(whole, r0, who, i, dumps, r, ps, replies) && i < |whole|
    requires Told(r, who, C.Loaded(whole[i].data), dump, whole[i].sends, r', Processed, reply)
    ensures reply.Some? && Progress(whole, r0, who, i + 1, dumps + [dump], r', ps + [p], replies + [reply.value])
  {
    hide Handle, C.Loaded, Reached, Session, ReplyBytes, ReplyOk, IsClose, IsDump, ListsCreds, DumpsOk;
    p := Handle(r, who, C.Loaded(whole[i].data), dump).1;
    ReachedNext(whole, r0, who, whole[i..], dumps, r, ps, dump);
    assert whole[i..][1..] == whole[i + 1..];
  }

  lemma {:induction false} ProgressEnd(whole: seq<Incoming>, r0: Repo, who: Client, i: nat, dumps: seq<seq<Cred>>,
      r: Repo, ps: seq<Reply>, replies: seq<seq<byte>>, dump: seq<Cred>, r': Repo, status: MsgStatus,
      reply: Option<seq<byte>>) returns (all: seq<seq<Cred>>)
    requires Progress(whole, r0, who, i, dumps, r, ps, replies)
    requires if i == |whole| then r' == r && status == MsgError
             else status != Processed && Told(r, who, C.Loaded(whole[i].data), dump, whole[i].sends, r', status, reply)
    ensures |all| == |whole| && DumpsOk(r0, who, whole, all) && RepliesAre(replies, ps)
    ensures Session(r0, who, whole, all) == Run(r', ps, status == RequestDone)
  {
    hide Handle, C.Loaded, Reached, Session, ReplyBytes, ReplyOk, IsClose, IsDump, ListsCreds, DumpsOk;
    var ds := if i == |whole| then [] else [dump] + seq(|whole| - i - 1, _ => []);
    ReachedEnd(whole, r0, who, whole[i..], dumps, r, ps, dump, ds);
    all := dumps + ds;
  }

  /** The session proper of `auksd_process_req`: it succeeds exactly when it ends with a close request.  A message
      that is too large to be loaded ends it like one that cannot be received. */
  method ProcessReq(cr: CR.CredRepo, who: Client, ins: seq<Incoming>, now: int)
    returns (ok: bool, replies: seq<seq<byte>>, ghost dumps: seq<seq<Cred>>, ghost ps: seq<Reply>)
    requires cr.Valid() && AllInStruct(cr.View()) && ParsesToStruct(who)
    requires forall i :: 0 <= i < |ins| ==> LoadDefined(ins[i].data)
    modifies cr, cr.library, cr.library.refs, cr.library.objs
    ensures cr.Valid() && AllInStruct(cr.View()) && |dumps| == |Loadable(ins)| && RepliesAre(replies, ps)
    ensures Run(cr.View(), ps, ok) == if who.role == Unknown then Run(old(cr.View()), [], false)
                                      else Session(old(cr.View()), who, Loadable(ins), dumps)
    ensures who.role != Unknown ==> DumpsOk(old(cr.View()), who, Loadable(ins), dumps)
  {
    hide FreeLists.ChainsOk, L.Catalog, L.InOrder, L.MapOf, CR.Keyed, CR.ByUid, AllInStruct, ParsesToStruct, C.Loaded,
      Session, ListsCreds, DumpsOk, Told, Progress, Receivable, RepliesAre, Loadable, LoadDefined;
    ghost var whole := Loadable(ins);
    ok, replies, dumps, ps := false, [], [], [];
    NoReplies();
    if who.role == Unknown {
      dumps := seq(|whole|, _ => []);
      return;
    }
    ghost var r0 := cr.View();
    ProgressStart(whole, r0, who);
    var i := 0;
    while true
      invariant i <= |whole| && cr.Valid() && AllInStruct(cr.View())
      invariant Progress(whole, r0, who, i, dumps, cr.View(), ps, replies)
      decreases |ins| - i
    {
      ghost var r := cr.View();
      if i == |ins| {
        dumps := ProgressEnd(whole, r0, who, i, dumps, r, ps, replies, [], r, MsgError, None);
        return;
      }
      assert i < |whole| ==> whole[i] == ins[i];
      Received(whole, i);
      var status, reply;
      ghost var dump;
      status, reply, dump := ProcessMsg(cr, who, ins[i], now);
      if status != Processed {
        dumps := ProgressEnd(whole, r0, who, i, dumps, r, ps, replies, dump, cr.View(), status, reply);
        ok := status == RequestDone;
        return;
      }
      ghost var p := ProgressNext(whole, r0, who, i, dumps, r, ps, replies, dump, cr.View(), reply);
      replies, ps, dumps, i := replies + [reply.value], ps + [p], dumps + [dump], i + 1;
    }
  }

  lemma {:induction false} Received(ins: seq<Incoming>, i: nat)
    requires Receivable(ins)
    ensures i < |ins| ==> |ins[i].data| < 0x8000_0000
  {
  }

  lemma {:induction false} NoReplies()
    ensures RepliesAre([], [])
  {
  }

  lemma {:induction false} ProgressStart(whole: seq<Incoming>, r0: Repo, who: Client)
    requires Receivable(whole)
    ensures Progress(whole, r0, who, 0, [], r0, [], [])
  {
    hide Session;
    ReachedStart(whole, r0, who);
    assert whole[0..] == whole;
  }
}
