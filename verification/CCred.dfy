/** Credentials on the C side: `auks_cred_pack`, `auks_cred_unpack` (src/api/auks/auks_cred.c) and
    `auks_api_dump_unpack` (src/api/auks/auks_api.c). */
module CCreds {
  import opened Options
  import opened Creds
  import opened Wire
  import opened CredWire
  import C = CBuffers

  /** `auks_cred_pack` */
  method CredPack(cred: Cred, msg: C.Buffer)
    requires InStruct(cred) && msg.Valid()
    modifies msg, msg.data
    ensures msg.Valid() && (msg.data == old(msg.data) || fresh(msg.data))
    ensures msg.Bytes() == old(msg.Bytes()) + CredBytes(cred)
  {
    hide CredBytes, Sent;
    ghost var before := msg.Bytes();
    SentEnds(cred, before, before);
    PackInfo(cred, msg, before);
    PackContents(cred, msg, before);
    SentEnds(cred, before, msg.Bytes());
  }

  /** The first half: the principal, the uid and the times. */
  method PackInfo(cred: Cred, msg: C.Buffer, ghost before: seq<byte>)
    requires InStruct(cred) && msg.Valid() && Sent(cred, before, msg.Bytes(), 0)
    modifies msg, msg.data
    ensures msg.Valid() && (msg.data == old(msg.data) || fresh(msg.data))
    ensures Sent(cred, before, msg.Bytes(), 6)
  {
    hide CastInt, IntBytes, BigEndian, CredPacks, PackBytes, Sent, InStruct, C.Covers, C.Wraps, C.Grown, C.Growth;
    Sizes(cred);
    Fields(cred);
    SentNext(cred, before, msg.Bytes(), 0, IntBytes(PRINCIPAL_MAX + 1));
    msg.PackInt(PRINCIPAL_MAX + 1);
    SentNext(cred, before, msg.Bytes(), 1, cred.principal);
    C.SmallCovered(msg.length, msg.processed, |cred.principal|);
    var _ := msg.PackData(cred.principal);
    SentNext(cred, before, msg.Bytes(), 2, BigEndian(cred.uid));
    msg.PackUid(cred.uid);
    SentNext(cred, before, msg.Bytes(), 3, IntBytes(CastInt(cred.starttime)));
    msg.PackInt(CastInt(cred.starttime));
    SentNext(cred, before, msg.Bytes(), 4, IntBytes(CastInt(cred.endtime)));
    msg.PackInt(CastInt(cred.endtime));
    SentNext(cred, before, msg.Bytes(), 5, IntBytes(CastInt(cred.renewTill)));
    msg.PackInt(CastInt(cred.renewTill));
  }

  lemma {:induction false} Sizes(c: Cred)
    requires InStruct(c)
    ensures |c.principal| == PRINCIPAL_MAX + 1 && c.maxLength <= |c.data| == DATA_MAX
  {
  }

  /** The second half: the flags, the data and the status. */
  method PackContents(cred: Cred, msg: C.Buffer, ghost before: seq<byte>)
    requires InStruct(cred) && msg.Valid() && Sent(cred, before, msg.Bytes(), 6)
    modifies msg, msg.data
    ensures msg.Valid() && (msg.data == old(msg.data) || fresh(msg.data))
    ensures Sent(cred, before, msg.Bytes(), 12)
  {
    hide CastInt, IntBytes, BigEndian, CredPacks, PackBytes, Sent, InStruct, C.Covers, C.Wraps, C.Grown, C.Growth;
    Sizes(cred);
    Fields(cred);
    SentNext(cred, before, msg.Bytes(), 6, IntBytes(CastInt(cred.addressless)));
    msg.PackInt(CastInt(cred.addressless));
    SentNext(cred, before, msg.Bytes(), 7, IntBytes(CastInt(cred.crossrealm)));
    msg.PackInt(CastInt(cred.crossrealm));
    SentNext(cred, before, msg.Bytes(), 8, IntBytes(CastInt(cred.maxLength)));
    msg.PackInt(CastInt(cred.maxLength));
    SentNext(cred, before, msg.Bytes(), 9, IntBytes(CastInt(cred.length)));
    msg.PackInt(CastInt(cred.length));
    SentNext(cred, before, msg.Bytes(), 10, cred.data[..cred.maxLength]);
    C.SmallCovered(msg.length, msg.processed, cred.maxLength);
    var _ := msg.PackData(cred.data[..cred.maxLength]);
    SentNext(cred, before, msg.Bytes(), 11, IntBytes(CastInt(cred.status)));
    msg.PackInt(CastInt(cred.status));
  }

  /** `auks_message_unpack_int` on the memory `m`. */
  method UnpackInt(msg: C.Buffer, ghost m: seq<byte>) returns (r: Option<Int32>)
    requires msg.Valid() && m == msg.data[..]
    modifies msg`processed
    ensures msg.Valid()
    ensures if old(msg.processed) + 4 <= |m|
      then r == Some(Int(m, old(msg.processed))) && msg.processed == old(msg.processed) + 4
      else r == None && msg.processed == old(msg.processed)
  {
    ghost var p := msg.processed;
    assert p + 4 <= |m| ==> msg.data[p..p + 4] == m[p..p + 4];
    r := msg.UnpackInt();
  }

  /** `auks_message_unpack_data` on the memory `m`. */
  method UnpackData(msg: C.Buffer, n: nat, ghost m: seq<byte>) returns (r: Option<seq<byte>>)
    requires msg.Valid() && m == msg.data[..] && (n < C.SIZE_LIMIT / 2 || msg.processed + n < C.SIZE_LIMIT)
    modifies msg`processed
    ensures msg.Valid()
    ensures if old(msg.processed) + n <= |m|
      then r == Some(m[old(msg.processed)..old(msg.processed) + n]) && msg.processed == old(msg.processed) + n
      else r == None && msg.processed == old(msg.processed)
  {
    ghost var p := msg.processed;
    assert p + n <= |m| ==> msg.data[p..p + n] == m[p..p + n];
    r := msg.UnpackData(n);
  }

  /** The conversion of an `int` to `size_t`. */
  function ToSize(i: Int32): nat { if i >= 0 then i else i + C.SIZE_LIMIT }

  /** `auks_cred_unpack`; `None` is a failure. */
  method CredUnpack(msg: C.Buffer) returns (r: Option<Cred>)
    requires msg.Valid() && msg.length < C.SIZE_LIMIT / 2 && CapacityOk(msg.data[..], msg.processed)
    modifies msg`processed
    ensures msg.Valid()
    ensures match CUnpacked(msg.data[..], old(msg.processed))
      case None => r == None
      case Some((cred, pos)) => r == Some(cred) && msg.processed == pos
  {
    hide Int, ToUint32;
    ghost var m := msg.data[..];
    var cred := ZERO_CRED;
    var i := UnpackInt(msg, m);
    if i.None? { return None; }
    if i.value != PRINCIPAL_MAX + 1 { return Some(cred); }
    r := UnpackInfo(msg, cred, m);
    if r.None? { return; }
    cred := r.value;
    i := UnpackInt(msg, m);
    if i.None? { return None; }
    if i.value > DATA_MAX { return None; }
    cred := cred.(maxLength := ToSize(i.value));
    i := UnpackInt(msg, m);
    if i.None? { return None; }
    cred := cred.(length := ToUint32(i.value));
    if cred.length > DATA_MAX { return None; }
    var data := UnpackData(msg, cred.maxLength, m);
    if data.None? { return None; }
    cred := cred.(data := data.value + Zeros(DATA_MAX - cred.maxLength));
    i := UnpackInt(msg, m);
    if i.None? { return None; }
    r := Some(cred.(status := i.value));
  }

  /** The principal, the uid, the times and the flags. */
  method UnpackInfo(msg: C.Buffer, zeroed: Cred, ghost m: seq<byte>) returns (r: Option<Cred>)
    requires msg.Valid() && m == msg.data[..]
    modifies msg`processed
    ensures msg.Valid()
    ensures var p := old(msg.processed);
      if p + 153 > |m| then r == None
      else
        && msg.processed == p + 153
        && r == Some(zeroed.(principal := m[p..p + 129], uid := ToUint32(Int(m, p + 129)),
                             starttime := ToUint32(Int(m, p + 133)), endtime := ToUint32(Int(m, p + 137)),
                             renewTill := ToUint32(Int(m, p + 141)), addressless := Int(m, p + 145),
                             crossrealm := Int(m, p + 149)))
  {
    hide Int, ToUint32;
    var principal := UnpackData(msg, PRINCIPAL_MAX + 1, m);
    if principal.None? { return None; }
    var uid := UnpackInt(msg, m);
    if uid.None? { return None; }
    var starttime := UnpackInt(msg, m);
    if starttime.None? { return None; }
    var endtime := UnpackInt(msg, m);
    if endtime.None? { return None; }
    var renewTill := UnpackInt(msg, m);
    if renewTill.None? { return None; }
    var addressless := UnpackInt(msg, m);
    if addressless.None? { return None; }
    var crossrealm := UnpackInt(msg, m);
    if crossrealm.None? { return None; }
    r := Some(zeroed.(principal := principal.value, uid := ToUint32(uid.value), starttime := ToUint32(starttime.value),
                      endtime := ToUint32(endtime.value), renewTill := ToUint32(renewTill.value),
                      addressless := addressless.value, crossrealm := crossrealm.value));
  }
}
