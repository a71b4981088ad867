/** What the daemon does with a request, from the bytes of the loaded message to the bytes of the reply
    (src/auksd/auksd_req.c, src/api/auks/auks_message.h). */
module Requests {
  import opened Creds
  import opened CredWire
  import opened Options
  import opened RepoSpec
  import opened SessionSpec
  import opened Text
  import opened Wire
  import D = Dumps

  // ---------- the bytes ----------

  /** The type and the uid of a request. */
  lemma {:induction false} Head(m: seq<byte>)
    requires |m| >= 8
    ensures var a: int, b: int, c: int, d: int := m[4], m[5], m[6], m[7];
      && UidIn(m) == a * 16777216 + b * 65536 + c * 256 + d
      && Int(m, 4) == UidIn(m) - if a >= 128 then 4294967296 else 0
    ensures TypeOf(TypeIn(m)) ==
      if m[..4] == [0, 0, 0, 0] then Some(PingRequest) else if m[..4] == [0, 0, 0, 1] then Some(ListRequest)
      else if m[..4] == [0, 0, 0, 2] then Some(AddRequest) else if m[..4] == [0, 0, 0, 3] then Some(GetRequest)
      else if m[..4] == [0, 0, 0, 4] then Some(RemoveRequest) else if m[..4] == [0, 0, 0, 5] then Some(CloseRequest)
      else if m[..4] == [0, 0, 0, 6] then Some(DumpRequest) else if m[..4] == [0, 0, 0, 7] then Some(CredDumpRequest)
      else if m[..4] == [0, 0, 0, 20] then Some(PingReply) else if m[..4] == [0, 0, 0, 21] then Some(ErrorReply)
      else if m[..4] == [0, 0, 0, 22] then Some(ListReply) else if m[..4] == [0, 0, 0, 23] then Some(AddReply)
      else if m[..4] == [0, 0, 0, 24] then Some(GetReply) else if m[..4] == [0, 0, 0, 25] then Some(RemoveReply)
      else if m[..4] == [0, 0, 0, 26] then Some(DumpReply) else None
  {
    hide BytesInt, IntBytes, TypeOf;
    var s, t := m[0..4], m[4..8];
    assert m[..4] == s && t[0] == m[4] && t[1] == m[5] && t[2] == m[6] && t[3] == m[7];
    BytesType(s);
    IntValue(t, 0);
    CastValue(Int(m, 4), 0);
  }

  /** The bytes of a reply. */
  lemma {:induction false} ReplyIs(p: Reply)
    requires ReplyOk(p)
    ensures match p
      case TheCred(c) => ReplyBytes(p) == [0, 0, 0, 24] + CredBytes(c)
      case TheDump(cs) => ReplyBytes(p) == [0, 0, 0, 26] + D.DumpBytes(cs)
      case Plain(PingReply) => ReplyBytes(p) == [0, 0, 0, 20]
      case Plain(ErrorReply) => ReplyBytes(p) == [0, 0, 0, 21]
      case Plain(AddReply) => ReplyBytes(p) == [0, 0, 0, 23]
      case Plain(RemoveReply) => ReplyBytes(p) == [0, 0, 0, 25]
      case Plain(_) => true
  {
    hide IntBytes, Code, CredBytes, D.DumpBytes;
    TypeBytes(ReplyType(p));
  }

  // ---------- each request ----------

  /** A message that begins with 0, 0, 0, 5 closes the session, and no other does. */
  lemma {:induction false} CloseMeaning(m: seq<byte>)
    requires |m| >= 8
    ensures IsClose(m) <==> m[..4] == [0, 0, 0, 5]
  {
    hide BytesInt, TypeOf, Int;
    Head(m);
    TypeCodes(TypeIn(m), CloseRequest);
  }

  /** Ping and list requests are answered by a ping reply and change nothing. */
  lemma {:induction false} PingMeaning(r: Repo, who: Client, m: seq<byte>, dump: seq<Cred>)
    requires |m| >= 8 && (m[..4] == [0, 0, 0, 0] || m[..4] == [0, 0, 0, 1])
    ensures Handle(r, who, m, dump) == (r, Plain(PingReply))
  {
    hide TypeOf, TypeIn;
    Head(m);
  }

  /** A get request changes nothing.  It is answered by the credential stored under its uid if there is one and the
      client is an administrator or a user of the same principal, and by an error in every other case. */
  lemma {:induction false} GetMeaning(r: Repo, who: Client, m: seq<byte>, dump: seq<Cred>)
    requires |m| >= 8 && m[..4] == [0, 0, 0, 3]
    ensures var a: int, b: int, c: int, d: int := m[4], m[5], m[6], m[7];
      var u := a * 16777216 + b * 65536 + c * 256 + d;
      Handle(r, who, m, dump) == (r,
        if u in r.creds && (who.role == Admin || (who.role == User && SamePrincipal(r.creds[u].principal, who.principal)))
        then TheCred(r.creds[u]) else Plain(ErrorReply))
  {
    hide TypeOf, TypeIn, UidIn, Int, SamePrincipal;
    Head(m);
  }

  /** A remove request removes the credential stored under its uid, on the same condition and unless the repository is
      read-only, and no other.  It is answered by its own reply when the cache file was removed too. */
  lemma {:induction false} RemoveMeaning(r: Repo, who: Client, m: seq<byte>, dump: seq<Cred>)
    requires |m| >= 8 && m[..4] == [0, 0, 0, 4]
    ensures var a: int, b: int, c: int, d: int := m[4], m[5], m[6], m[7];
      var u := a * 16777216 + b * 65536 + c * 256 + d;
      var may := u in r.creds
                 && (who.role == Admin || (who.role == User && SamePrincipal(r.creds[u].principal, who.principal)));
      var (r', p) := Handle(r, who, m, dump);
      && (forall v :: v in r'.creds <==> v in r.creds && !(v == u && may && !r.readOnly))
      && (forall v :: v in r'.creds ==> r'.creds[v] == r.creds[v])
      && (!may || r.readOnly ==> r' == r)
      && p == Plain(if may && !r.readOnly && |r.cachedir| + 1 + |FileName(u)| < 128 && FileName(u) in r.disk
                    then RemoveReply else ErrorReply)
  {
    hide TypeOf, TypeIn, UidIn, Int, SamePrincipal, FileName;
    Head(m);
  }

  /** A dump request changes nothing, and only an administrator gets the dump. */
  lemma {:induction false} DumpMeaning(r: Repo, who: Client, m: seq<byte>, dump: seq<Cred>)
    requires |m| >= 8
    ensures IsDump(who, m) <==> who.role == Admin && m[..4] == [0, 0, 0, 6]
    ensures m[..4] == [0, 0, 0, 6] ==>
      Handle(r, who, m, dump) == (r, if who.role == Admin then TheDump(dump) else Plain(ErrorReply))
  {
    hide TypeOf, TypeIn;
    Head(m);
    TypeCodes(TypeIn(m), DumpRequest);
  }

  /** An add request: the length that follows the type has to be within 32768 and the message, the blob has to parse
      to an addressless credential, and that has to be of the client's own principal unless the client is an
      administrator; then it is offered to the repository. */
  lemma {:induction false} AddMeaning(r: Repo, who: Client, m: seq<byte>, dump: seq<Cred>)
    requires 8 <= |m| < 4294967296 && m[..4] == [0, 0, 0, 2]
    ensures var a: int, b: int, c: int, d: int := m[4], m[5], m[6], m[7];
      var length := a * 16777216 + b * 65536 + c * 256 + d;
      var fits := length <= 32768 && length <= |m| - 8 < 2147483648;
      var cred := if fits then who.parse(m[8..8 + length]) else None;
      var mine := cred.Some? && cred.value.addressless != 0
                  && (who.role == Admin || SamePrincipal(cred.value.principal, who.principal));
      Handle(r, who, m, dump) ==
        if mine then
          (AddSpec(r, cred.value).0, Plain(if AddSpec(r, cred.value).1 == Success then AddReply else ErrorReply))
        else (r, Plain(ErrorReply))
  {
    hide TypeOf, TypeIn, UidIn, SamePrincipal, AddSpec, Int;
    Head(m);
    BlobMeaning(m);
  }

  lemma {:induction false} BlobMeaning(m: seq<byte>)
    requires 8 <= |m| < 4294967296
    ensures var a: int, b: int, c: int, d: int := m[4], m[5], m[6], m[7];
      var length := a * 16777216 + b * 65536 + c * 256 + d;
      BlobIn(m) == if length <= 32768 && length <= |m| - 8 < 2147483648 then Some(m[8..8 + length]) else None
  {
    hide TypeOf, TypeIn, UidIn, Int, CastInt;
    Head(m);
    CastValue(Int(m, 4), |m| - 8);
  }

  /** Every other message is answered by an error and changes nothing. */
  lemma {:induction false} OtherMeaning(r: Repo, who: Client, m: seq<byte>, dump: seq<Cred>)
    requires |m| >= 8 && !(m[0] == 0 && m[1] == 0 && m[2] == 0 && (m[3] <= 4 || m[3] == 6))
    ensures Handle(r, who, m, dump) == (r, Plain(ErrorReply))
  {
    hide TypeOf, TypeIn;
    Head(m);
    assert m[..4] == [m[0], m[1], m[2], m[3]];
  }

  /** So an entry disappears only through a message that begins with 0, 0, 0, 4 and names its uid, and is new or
      changes only through one that begins with 0, 0, 0, 2. */
  lemma {:induction false} OnlyBy(r: Repo, who: Client, m: seq<byte>, dump: seq<Cred>, u: Uid)
    requires 8 <= |m| < 4294967296
    ensures var r' := Handle(r, who, m, dump).0;
      && (u in r.creds && u !in r'.creds ==>
            var a: int, b: int, c: int, d: int := m[4], m[5], m[6], m[7];
            && m[..4] == [0, 0, 0, 4] && u == a * 16777216 + b * 65536 + c * 256 + d
            && (who.role == Admin || (who.role == User && SamePrincipal(r.creds[u].principal, who.principal))))
      && (u in r'.creds && !(u in r.creds && r.creds[u] == r'.creds[u]) ==>
            m[..4] == [0, 0, 0, 2] && (who.role == Admin || SamePrincipal(r'.creds[u].principal, who.principal)))
  {
    hide Handle, SamePrincipal, AddSpec, FileName;
    assert m[..4] == [m[0], m[1], m[2], m[3]];
    if m[..4] == [0, 0, 0, 0] || m[..4] == [0, 0, 0, 1] {
      PingMeaning(r, who, m, dump);
    } else if m[..4] == [0, 0, 0, 2] {
      AddMeaning(r, who, m, dump);
      var cred := if BlobIn(m).Some? then who.parse(BlobIn(m).value) else None;
      BlobMeaning(m);
      if cred.Some? { AddChanges(r, cred.value); }
    } else if m[..4] == [0, 0, 0, 3] {
      GetMeaning(r, who, m, dump);
    } else if m[..4] == [0, 0, 0, 4] {
      RemoveMeaning(r, who, m, dump);
    } else if m[..4] == [0, 0, 0, 6] {
      DumpMeaning(r, who, m, dump);
    } else {
      OtherMeaning(r, who, m, dump);
    }
  }
}
