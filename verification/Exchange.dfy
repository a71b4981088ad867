/** Requests and replies across the two programs: what a client packs, the daemon reads, and what the daemon
    answers, a client reads (rust/auks-cred/src/lib.rs, src/api/auks/auks_api.c, src/auksd/auksd_req.c). */
module Exchanges {
  import opened Options
  import opened Creds
  import opened CredWire
  import opened RepoSpec
  import opened SessionSpec
  import opened Text
  import opened Wire
  import C = CBuffers
  import D = Dumps
  import R = RustWire
  import RC = RustCreds

  /** `add_request` */
  function AddMessage(blob: seq<byte>): R.Message { R.Message(AddRequest, R.LengthAndData(blob)) }

  /** `get_request` and `remove_request` */
  function UidMessage(ty: MessageType, u: Uid): R.Message { R.Message(ty, BigEndian(u)) }

  lemma {:induction false} UidIs(a: byte, b: byte, c: byte, d: byte, u: Uid)
    requires u == a * 16777216 + b * 65536 + c * 256 + d
    ensures BigEndian(u) == [a, b, c, d]
  {
    Digits(a, b, c, d);
  }

  /** What the clients send, byte for byte. */
  lemma {:induction false} ClientBytes(a: byte, b: byte, c: byte, d: byte, u: Uid, blob: seq<byte>)
    requires u == a * 16777216 + b * 65536 + c * 256 + d
    ensures R.Encoding(UidMessage(GetRequest, u)) == [0, 0, 0, 3, a, b, c, d]
    ensures R.Encoding(UidMessage(RemoveRequest, u)) == [0, 0, 0, 4, a, b, c, d]
    ensures |blob| == u < 0x8000_0000 ==> R.Encoding(AddMessage(blob)) == [0, 0, 0, 2, a, b, c, d] + blob
  {
    UidIs(a, b, c, d, u);
    R.EncodingBytes(UidMessage(GetRequest, u));
    R.EncodingBytes(UidMessage(RemoveRequest, u));
    if |blob| == u < 0x8000_0000 {
      R.EncodingBytes(AddMessage(blob));
      C.SmallCast(u);
      hide BigEndian, CastInt;
      assert R.LengthAndData(blob) == [a, b, c, d] + blob;
    }
  }

  /** The first two numbers of a loaded message that has them. */
  lemma {:induction false} LoadedInts(data: seq<byte>, a: Int32, b: Int32, rest: seq<byte>)
    requires data == IntBytes(a) + IntBytes(b) + rest && |data| < 0x8000_0000
    ensures var m := C.Loaded(data);
      |m| >= 8 + |rest| && TypeIn(m) == a && Int(m, 4) == b && m[8..8 + |rest|] == rest
  {
    hide IntBytes, BytesInt, C.InitialLength;
    var m := C.Loaded(data);
    assert m[0..4] == IntBytes(a) && m[4..8] == IntBytes(b) && m[8..8 + |rest|] == rest;
    IntRoundTrip(a, m[0..4]);
    IntRoundTrip(b, m[4..8]);
  }

  /** An add request from a Rust client reaches the daemon with its blob, if and only if that has at most 32768 bytes;
      a longer one is refused. */
  lemma {:induction false} AddReaches(blob: seq<byte>)
    requires |blob| + 8 < 0x8000_0000
    ensures var m := C.Loaded(R.Encoding(AddMessage(blob)));
      |m| >= 8 && TypeIn(m) == Code(AddRequest) && BlobIn(m) == if |blob| <= DATA_MAX then Some(blob) else None
  {
    var data := R.Encoding(AddMessage(blob));
    hide IntBytes, BytesInt;
    C.SmallCast(|blob|);
    C.GrowthCovers(|data|);
    hide C.Growth, CastInt;
    assert data == IntBytes(Code(AddRequest)) + IntBytes(|blob|) + blob;
    LoadedInts(data, Code(AddRequest), |blob|, blob);
    if |blob| <= DATA_MAX { C.SmallCast(|C.Loaded(data)| - 8); }
  }

  /** The same request from the C client has the same bytes, or when the blob is empty the same meaning. */
  lemma {:induction false} CAddReaches(blob: seq<byte>)
    requires |blob| + 8 < 0x8000_0000
    ensures var m := C.Loaded(C.MessageBytes(Code(AddRequest), Some(blob)));
      |m| >= 8 && TypeIn(m) == Code(AddRequest) && BlobIn(m) == if |blob| <= DATA_MAX then Some(blob) else None
  {
    hide BlobIn, IntBytes, BytesInt, C.Loaded;
    if blob == [] {
      EmptyAddReaches();
    } else {
      var data := C.MessageBytes(Code(AddRequest), Some(blob));
      assert data == R.Encoding(AddMessage(blob));
      AddReaches(blob);
    }
  }

  lemma {:induction false} EmptyAddReaches()
    ensures var m := C.Loaded(C.MessageBytes(Code(AddRequest), Some([])));
      |m| >= 8 && TypeIn(m) == Code(AddRequest) && BlobIn(m) == Some([])
  {
    hide IntBytes, BytesInt, C.Loaded, Code, CastInt;
    C.MessageRoundTrip(Code(AddRequest), Some([]));
    var m := C.Loaded(C.MessageBytes(Code(AddRequest), Some([])));
    ShortLoad(C.MessageBytes(Code(AddRequest), Some([])));
    C.SmallCast(|m| - 8);
    assert m[0..4] == m[..4] && m[8..8] == [];
  }

  lemma {:induction false} ShortLoad(data: seq<byte>)
    requires |data| <= C.BLOCK_SIZE
    ensures |C.Loaded(data)| == C.BLOCK_SIZE
  {
  }

  /** A get or remove request reaches the daemon with its uid. */
  lemma {:induction false} UidReaches(ty: MessageType, u: Uid)
    ensures var m := C.Loaded(R.Encoding(UidMessage(ty, u))); |m| >= 8 && TypeIn(m) == Code(ty) && UidIn(m) == u
  {
    hide IntBytes, BytesInt, BigEndian;
    UidBytes(u);
    var data := R.Encoding(UidMessage(ty, u));
    assert data == IntBytes(Code(ty)) + IntBytes(ToInt32(u)) + [];
    LoadedInts(data, Code(ty), ToInt32(u), []);
  }

  /** Every reply of the daemon but an oversized dump decodes in Rust, to its type and its body. */
  lemma {:induction false} ReplyDecodes(p: Reply)
    requires ReplyOk(p) && (p.TheDump? ==> |D.DumpBytes(p.creds)| <= R.MAX_DATA_LENGTH)
    ensures R.Decoding(ReplyBytes(p)) == R.Ok(R.Message(ReplyType(p), ReplyBody(p)))
  {
    SmallBody(p);
    hide R.Decoding, IntBytes, ReplyBody;
    R.EncodeDecode(R.Message(ReplyType(p), ReplyBody(p)));
  }

  lemma {:induction false} SmallBody(p: Reply)
    requires ReplyOk(p) && (p.TheDump? ==> |D.DumpBytes(p.creds)| <= R.MAX_DATA_LENGTH)
    ensures |ReplyBody(p)| <= R.MAX_DATA_LENGTH
  {
    hide CredBytes, D.DumpBytes;
    if p.TheCred? { RecordSize(p.cred); }
  }

  /** A get of a Rust client, from its request to the result: exactly when the uid is stored and the credential is
      the client's to use, it gets the used parts of the fields of that credential; else it gets an error. */
  lemma {:induction false} GetExchange(r: Repo, who: Client, u: Uid, dump: seq<Cred>, utf8: seq<byte> -> bool)
    requires u in r.creds ==> InStruct(r.creds[u]) && r.creds[u].length <= r.creds[u].maxLength
    requires u in r.creds ==> utf8(RC.UntilNul(r.creds[u].principal))
    ensures var (r', p) := Handle(r, who, C.Loaded(R.Encoding(UidMessage(GetRequest, u))), dump);
      && r' == r && ReplyOk(p) && R.Decoding(ReplyBytes(p)).Ok?
      && D.GetDecoded(R.Decoding(ReplyBytes(p)).value, utf8) ==
           if u in r.creds && (who.role == Admin || (who.role == User && SamePrincipal(r.creds[u].principal, who.principal)))
           then R.Ok(RC.Seen(r.creds[u])) else R.Err(RC.UnexpectedMessageType)
  {
    hide C.Loaded, R.Encoding, TypeIn, UidIn, SamePrincipal, ReplyBytes, R.Decoding, RC.Unpacked, RC.Seen, RC.UntilNul, CredBytes;
    UidReaches(GetRequest, u);
    TypeCodes(Code(GetRequest), GetRequest);
    var p := Get(r, who, u);
    ReplyDecodes(p);
    if p.TheCred? {
      RC.RustReadsC([], p.cred, [], utf8);
      assert [] + CredBytes(p.cred) + [] == CredBytes(p.cred);
    }
  }

  /** A get reply at a C client: what `auks_cred_unpack` makes of its memory is the credential as it arrives. */
  lemma {:induction false} CGetReply(c: Cred)
    requires InStruct(c) && c.length <= DATA_MAX
    ensures |ReplyBytes(TheCred(c))| < 0x8000_0000
    ensures var m := C.Loaded(ReplyBytes(TheCred(c)));
      && |m| >= 8 && TypeIn(m) == Code(GetReply)
      && CapacityOk(m, 4) && CUnpacked(m, 4) == Some((Received(c), 4 + |CredBytes(c)|))
  {
    hide CredBytes, IntBytes, BytesInt, CUnpacked, CapacityOk, Received;
    RecordSize(c);
    var t, data := IntBytes(Code(GetReply)), ReplyBytes(TheCred(c));
    C.GrowthCovers(|data|);
    var m := C.Loaded(data);
    var pad := Zeros(|m| - |data|);
    IntRoundTrip(Code(GetReply), t);
    assert m == t + CredBytes(c) + pad && m[0..4] == t;
    CRoundTrip(t, c, pad);
  }

  /** An add of a Rust client, from its request to the repository: a blob of at most 32768 bytes that parses to an
      addressless credential of the client, or of anybody for an administrator, is added, and no other. */
  lemma {:induction false} AddExchange(r: Repo, who: Client, blob: seq<byte>, dump: seq<Cred>)
    requires |blob| + 8 < 0x8000_0000
    ensures var (r', p) := Handle(r, who, C.Loaded(R.Encoding(AddMessage(blob))), dump);
      var cred := if |blob| <= DATA_MAX then who.parse(blob) else None;
      if cred.Some? && cred.value.addressless != 0 && (who.role == Admin || SamePrincipal(cred.value.principal, who.principal)) then
        var (s, status) := AddSpec(r, cred.value);
        r' == s && p == if status == Success then Plain(AddReply) else FAILED
      else r' == r && p == FAILED
  {
    hide C.Loaded, R.Encoding, TypeIn, BlobIn, SamePrincipal, AddSpec;
    AddReaches(blob);
    TypeCodes(Code(AddRequest), AddRequest);
  }
}
