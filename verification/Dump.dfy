/** Dumps of the whole repository: `auks_cred_repo_pack_nolock` (src/api/auks/auks_cred_repo.c),
    `auks_api_dump_unpack` (src/api/auks/auks_api.c) and `decode_dump_reply` (rust/auks-cred/src/lib.rs). */
module Dumps {
  import opened Options
  import opened Creds
  import opened Text
  import opened Wire
  import opened CredWire
  import opened RepoSpec
  import FreeLists
  import L = Libraries
  import C = CBuffers
  import R = RustWire
  import CC = CCreds
  import RC = RustCreds
  import CR = CredRepos

  // ---------- the body of a dump ----------

  predicate Packable(cs: seq<Cred>) { forall i :: 0 <= i < |cs| ==> InStruct(cs[i]) }

  function Records(cs: seq<Cred>): seq<byte>
    requires Packable(cs)
  {
    if cs == [] then [] else Records(cs[..|cs| - 1]) + CredBytes(cs[|cs| - 1])
  }

  function DumpBytes(cs: seq<Cred>): seq<byte> requires Packable(cs) { IntBytes(CastInt(|cs|)) + Records(cs) }

  lemma {:induction false} RecordsStep(cs: seq<Cred>, i: nat)
    requires Packable(cs) && i < |cs|
    ensures Records(cs[..i + 1]) == Records(cs[..i]) + CredBytes(cs[i])
  {
    assert cs[..i + 1][..i] == cs[..i];
  }

  lemma {:induction false} RecordsCons(cs: seq<Cred>)
    requires Packable(cs) && cs != []
    ensures Records(cs) == CredBytes(cs[0]) + Records(cs[1..])
  {
    hide CredBytes, InStruct;
    var n := |cs| - 1;
    if n == 0 {
      assert cs[..0] == [] && cs[1..] == [];
    } else {
      hide Records;
      var tail := cs[1..];
      RecordsCons(cs[..n]);
      assert cs[..n][1..] == tail[..n - 1] && tail[n - 1] == cs[n];
      RecordsLast(cs);
      RecordsLast(tail);
      Assoc(CredBytes(cs[0]), Records(tail[..n - 1]), CredBytes(cs[n]));
    }
  }

  lemma {:induction false} RecordsLast(cs: seq<Cred>)
    requires Packable(cs) && cs != []
    ensures Records(cs) == Records(cs[..|cs| - 1]) + CredBytes(cs[|cs| - 1])
  {
    hide CredBytes, InStruct;
  }

  lemma {:induction false} Assoc(a: seq<byte>, b: seq<byte>, c: seq<byte>)
    ensures a + (b + c) == a + b + c
  {
  }

  /** Every credential has the full capacity and a length within it. */
  predicate WellFormed(cs: seq<Cred>) {
    Packable(cs) && forall i :: 0 <= i < |cs| ==> cs[i].maxLength == DATA_MAX && cs[i].length <= DATA_MAX
  }

  lemma {:induction false} RecordsSize(cs: seq<Cred>)
    requires WellFormed(cs)
    ensures |Records(cs)| == 32937 * |cs|
  {
    if cs == [] {
    } else {
      RecordsSize(cs[..|cs| - 1]);
      RecordSize(cs[|cs| - 1]);
    }
  }

  /** The layout of a dump: the number of records, and each record at its place. */
  lemma {:induction false} DumpLayout(cs: seq<Cred>, i: nat)
    requires WellFormed(cs) && i < |cs| < 2147483648
    ensures |DumpBytes(cs)| == 4 + 32937 * |cs| && Int(DumpBytes(cs), 0) == |cs|
    ensures 4 + 32937 * i + 32937 <= |DumpBytes(cs)|
    ensures DumpBytes(cs)[4 + 32937 * i..4 + 32937 * i + 32937] == CredBytes(cs[i])
  {
    hide CredBytes, IntBytes, BytesInt, Records, InStruct;
    var n := IntBytes(|cs|);
    CastWrap(|cs|);
    hide CastInt;
    RecordsSize(cs);
    IntRoundTrip(|cs|, n);
    assert DumpBytes(cs) == n + Records(cs);
    assert DumpBytes(cs)[0..4] == n;
    RecordAt(cs, i);
    var a := 32937 * i;
    assert (n + Records(cs))[4 + a..4 + a + 32937] == Records(cs)[a..a + 32937];
  }

  lemma {:induction false} RecordAt(cs: seq<Cred>, i: nat)
    requires WellFormed(cs) && i < |cs|
    ensures |Records(cs)| == 32937 * |cs| && 32937 * i + 32937 <= |Records(cs)|
    ensures Records(cs)[32937 * i..32937 * i + 32937] == CredBytes(cs[i])
  {
    hide CredBytes, InStruct, Records;
    var n := |cs| - 1;
    RecordsSize(cs);
    RecordsSize(cs[..n]);
    RecordSize(cs[n]);
    RecordsLast(cs);
    if i < n {
      RecordAt(cs[..n], i);
      var a := 32937 * i;
      assert Records(cs)[a..a + 32937] == Records(cs[..n])[a..a + 32937];
    } else {
      assert Records(cs)[|Records(cs[..n])|..] == CredBytes(cs[n]);
    }
  }

  // ---------- packing the repository ----------

  ghost function CredsAt(creds: map<Uid, Cred>, us: seq<Uid>): (cs: seq<Cred>)
    requires forall u :: u in us ==> u in creds
    ensures |cs| == |us|
  {
    seq(|us|, i requires 0 <= i < |us| => creds[us[i]])
  }

  /** The order of the index: that of the decimal forms as strings. */
  ghost predicate IndexOrder(us: seq<Uid>) {
    forall i, j :: 0 <= i < j < |us| ==> CmpN(Decimal(us[i]), Decimal(us[j]), L.REFERENCE_MAX) < 0
  }

  /** What is dumped: every stored credential once, in the order of their decimal uids. */
  lemma {:induction false} DumpedOnce(creds: map<Uid, Cred>, us: seq<Uid>)
    requires Lists(us, creds) && IndexOrder(us) && forall u :: u in creds ==> creds[u].uid == u
    ensures var cs := CredsAt(creds, us);
      && |cs| == |creds|
      && (forall i :: 0 <= i < |cs| ==> cs[i].uid in creds && creds[cs[i].uid] == cs[i])
      && (forall u :: u in creds ==> creds[u] in cs)
      && (forall i, j :: 0 <= i < j < |cs| ==> Cmp(Decimal(cs[i].uid), Decimal(cs[j].uid)) < 0)
  {
    hide Decimal, Cmp;
    var cs := CredsAt(creds, us);
    forall u | u in creds ensures creds[u] in cs {
      var i :| 0 <= i < |us| && us[i] == u;
      assert cs[i] == creds[u];
    }
    forall i, j | 0 <= i < j < |cs| ensures Cmp(Decimal(cs[i].uid), Decimal(cs[j].uid)) < 0 {
      CR.UidKey(us[i]);
      CR.UidKey(us[j]);
    }
    ListedSize(us, creds);
  }

  lemma {:induction false} ListedSize(us: seq<Uid>, creds: map<Uid, Cred>)
    requires Lists(us, creds)
    ensures |us| == |creds|
  {
    if us == [] {
      assert creds.Keys == {};
    } else {
      var rest, u := us[..|us| - 1], us[|us| - 1];
      assert us == rest + [u];
      ListedSize(rest, creds - {u});
      assert |creds - {u}| == |creds| - 1 by { assert (creds - {u}).Keys == creds.Keys - {u}; }
    }
  }

  /** `auks_cred_repo_pack_nolock`: the number of entries and their records in the order of the index. */
  method PackRepo(cr: CR.CredRepo, msg: C.Buffer) returns (status: Status, ghost us: seq<Uid>)
    requires cr.Valid() && msg.Valid()
    requires forall u :: u in cr.View().creds ==> InStruct(cr.View().creds[u])
    modifies cr.library`itemNb, cr.library`index, cr.library.refs, msg, msg.data
    ensures cr.Valid() && msg.Valid() && cr.View() == old(cr.View()) && Lists(us, cr.View().creds) && status == Success
    ensures msg.data == old(msg.data) || fresh(msg.data)
    ensures IndexOrder(us)
    ensures Packable(CredsAt(cr.View().creds, us))
    ensures msg.Bytes() == old(msg.Bytes()) + DumpBytes(CredsAt(cr.View().creds, us))
  {
    hide FreeLists.ChainsOk, L.Catalog, L.InOrder, L.MapOf, CR.Keyed, CR.ByUid, Records, CredBytes, InStruct,
      CastInt, IntBytes, Decimal;
    ghost var ks;
    ks, us := cr.TakeSnapshot();
    ghost var cs := CredsAt(cr.View().creds, us);
    msg.PackInt(CastInt(cr.library.itemNb));
    PackEntries(cr, msg, ks, us, cs);
    Assoc(old(msg.Bytes()), IntBytes(CastInt(|cs|)), Records(cs));
    status := Success;
  }

  /** The loop over the index. */
  method PackEntries(cr: CR.CredRepo, msg: C.Buffer, ghost ks: seq<string>, ghost us: seq<Uid>, ghost cs: seq<Cred>)
    requires cr.Valid() && msg.Valid() && cr.library.itemNb == |ks| == |us| == |cs| && cr.Unvisited(ks, 0) && Packable(cs)
    requires forall i :: 0 <= i < |us| ==> ks[i] == Decimal(us[i]) && us[i] in cr.View().creds && cs[i] == cr.View().creds[us[i]]
    modifies cr.library.refs, msg, msg.data
    ensures cr.Valid() && msg.Valid() && cr.View() == old(cr.View())
    ensures msg.Bytes() == old(msg.Bytes()) + Records(cs) && (msg.data == old(msg.data) || fresh(msg.data))
  {
    hide FreeLists.ChainsOk, L.Catalog, L.InOrder, L.MapOf, CR.Keyed, CR.ByUid, Records, CredBytes, InStruct, Decimal;
    NoRecords(cs);
    for i := 0 to cr.library.itemNb
      invariant cr.Valid() && msg.Valid() && cr.Unvisited(ks, i)
      invariant cr.View() == old(cr.View())
      invariant msg.data == old(msg.data) || fresh(msg.data)
      invariant msg.Bytes() == old(msg.Bytes()) + Records(cs[..i])
    {
      RecordsStep(cs, i);
      Assoc(old(msg.Bytes()), Records(cs[..i]), CredBytes(cs[i]));
      PackEntry(cr, msg, ks, us[i], i);
    }
    assert cs[..|cs|] == cs;
  }

  lemma {:induction false} NoRecords(cs: seq<Cred>)
    requires Packable(cs)
    ensures Records(cs[..0]) == []
  {
  }

  /** The body of the loop: the entry that index entry `i` points at, fetched and packed. */
  method PackEntry(cr: CR.CredRepo, msg: C.Buffer, ghost ks: seq<string>, ghost u: Uid, i: nat)
    requires cr.Valid() && msg.Valid() && i < |ks| && cr.Unvisited(ks, i) && ks[i] == Decimal(u)
    requires u in cr.View().creds ==> InStruct(cr.View().creds[u])
    modifies cr.library.refs, msg, msg.data
    ensures cr.Valid() && msg.Valid() && cr.View() == old(cr.View()) && cr.Unvisited(ks, i + 1)
    ensures u in cr.View().creds && InStruct(cr.View().creds[u])
    ensures msg.Bytes() == old(msg.Bytes()) + CredBytes(cr.View().creds[u]) && (msg.data == old(msg.data) || fresh(msg.data))
  {
    hide FreeLists.ChainsOk, L.Catalog, L.InOrder, L.MapOf, CR.Keyed, CR.ByUid, Decimal, CredBytes, InStruct;
    var pitem := cr.library.index[i];
    L.SlotAt(cr.library.refs.items, cr.library.objs.items, cr.library.root, cr.library.slotOf, cr.library.ownerOf, ks[i]);
    CR.UidKey(u);
    CR.ByUidAt(cr.library.Map(), u);
    var found, cred := cr.library.Get(cr.library.refs.items[pitem].data.reference, ZERO_CRED);
    if found != L.Success {
      assert false;
    } else {
      CC.CredPack(cred, msg);
    }
  }

  // ---------- unpacking a dump in C ----------

  /** No record of the `n` that the decoder reads has a capacity with which it leaves its buffer. */
  predicate CapacitiesOk(m: seq<byte>, pos: nat, n: nat)
    decreases n
  {
    n > 0 ==> CapacityOk(m, pos) && match CUnpacked(m, pos) case None => true case Some((_, p)) => CapacitiesOk(m, p, n - 1)
  }

  function CDumped(m: seq<byte>, pos: nat, n: nat): Option<seq<Cred>>
    decreases n
  {
    if n == 0 then Some([])
    else match CUnpacked(m, pos) case None => None case Some((c, p)) => Prepend([c], CDumped(m, p, n - 1))
  }

  /** `Unset`: success is reported, but the caller's array and counter are left alone. */
  datatype DumpResult = Dumped(creds: seq<Cred>) | Failed | Unset

  /** What `auks_api_dump_unpack` makes of the memory `m` from position `p` on.  A negative number of records makes
      an allocation that cannot succeed, and that is not reported. */
  function DumpAt(m: seq<byte>, p: nat): DumpResult {
    if p + 4 > |m| then Failed
    else if Int(m, p) < 0 then Unset
    else match CDumped(m, p + 4, Int(m, p)) case None => Failed case Some(cs) => Dumped(cs)
  }

  /** No record that the decoder reads from position `p` on has a capacity with which it leaves its buffer. */
  predicate DumpDefined(m: seq<byte>, p: nat) {
    p + 4 <= |m| && Int(m, p) >= 0 ==> CapacitiesOk(m, p + 4, Int(m, p))
  }

  /** A dump begins with the number of its records; one whose first byte is 128 or more is negative. */
  lemma {:induction false} DumpCount(m: seq<byte>, p: nat, n: int)
    requires p + 4 <= |m| ==>
      var a: int, b: int, c: int, d: int := m[p], m[p + 1], m[p + 2], m[p + 3];
      n == a * 16777216 + b * 65536 + c * 256 + d
    ensures p + 4 > |m| ==> DumpAt(m, p) == Failed
    ensures p + 4 <= |m| && m[p] >= 128 ==> DumpAt(m, p) == Unset
    ensures p + 4 <= |m| && m[p] < 128 ==> match CDumped(m, p + 4, n)
      case None => DumpAt(m, p) == Failed
      case Some(cs) => DumpAt(m, p) == Dumped(cs)
  {
    hide BytesInt, CDumped;
    if p + 4 <= |m| { IntValue(m[p..p + 4], 0); }
  }

  /** The records follow one another: `ps` are the positions at which they begin and the one where the last ends.
      Reading them fails if and only if one of them cannot be read. */
  lemma {:induction false} DumpRecords(m: seq<byte>, pos: nat, n: nat) returns (ps: seq<nat>)
    ensures |ps| > 0 && ps[0] == pos
    ensures forall i :: 0 <= i < |ps| - 1 ==> CUnpacked(m, ps[i]).Some? && CUnpacked(m, ps[i]).value.1 == ps[i + 1]
    ensures match CDumped(m, pos, n)
      case None => |ps| <= n && CUnpacked(m, ps[|ps| - 1]).None?
      case Some(cs) => |ps| == n + 1 && |cs| == n && forall i :: 0 <= i < n ==> CUnpacked(m, ps[i]).value.0 == cs[i]
    decreases n
  {
    hide CUnpacked;
    ps := [pos];
    if n > 0 && CUnpacked(m, pos).Some? {
      var rest := DumpRecords(m, CUnpacked(m, pos).value.1, n - 1);
      ps := ps + rest;
    }
  }

  /** `auks_api_dump_unpack` */
  method DumpUnpack(msg: C.Buffer) returns (r: DumpResult)
    requires msg.Valid() && msg.length < C.SIZE_LIMIT / 2 && DumpDefined(msg.data[..], msg.processed)
    modifies msg`processed
    ensures r == DumpAt(msg.data[..], old(msg.processed))
  {
    hide CUnpacked, CapacityOk, Int, CapacitiesOk;
    ghost var m, p := msg.data[..], msg.processed;
    var nb := CC.UnpackInt(msg, m);
    if nb.None? { return Failed; }
    if nb.value < 0 { return Unset; }
    var n: nat := nb.value;
    var slots := new Cred[n](_ => ZERO_CRED);
    ghost var all := CDumped(m, p + 4, n);
    PrependNone(all);
    for i := 0 to n
      invariant msg.Valid() && msg.length < C.SIZE_LIMIT / 2
      invariant msg.data[..] == m && CapacitiesOk(m, msg.processed, n - i)
      invariant all == Prepend(slots[..i], CDumped(m, msg.processed, n - i))
    {
      NextRecord(m, msg.processed, n - i);
      var cred := CC.CredUnpack(msg);
      if cred.None? { return Failed; }
      PrependAgain(slots[..i], [cred.value], CDumped(m, msg.processed, n - i - 1));
      slots[i] := cred.value;
      assert slots[..i + 1] == slots[..i] + [cred.value];
    }
    r := Dumped(slots[..]);
    assert slots[..n] + [] == slots[..];
  }

  lemma {:induction false} NextRecord(m: seq<byte>, pos: nat, n: nat)
    requires n > 0 && CapacitiesOk(m, pos, n)
    ensures CapacityOk(m, pos)
    ensures CUnpacked(m, pos).Some? ==> CapacitiesOk(m, CUnpacked(m, pos).value.1, n - 1)
  {
    hide CUnpacked, CapacityOk;
  }

  /** What a client makes of the bytes of a reply: `None` when the load already fails. */
  function DumpReceived(reply: seq<byte>): Option<DumpResult>
    requires |reply| < C.SIZE_LIMIT
  {
    if |reply| >= 0x8000_0000 then None
    else
      var m := C.Loaded(reply);
      if Int(m, 0) != Code(DumpReply) then Some(Failed) else Some(DumpAt(m, 4))
  }

  /** `auks_api_dump` from the load of the reply on. */
  method ApiDump(reply: seq<byte>) returns (r: Option<DumpResult>)
    requires |reply| < C.SIZE_LIMIT && (|reply| < 0x8000_0000 ==> DumpDefined(C.Loaded(reply), 4))
    requires |reply| >= 0x8000_0000 ==> C.InitFails(|reply|)
    ensures r == DumpReceived(reply)
    ensures |reply| >= 0x8000_0000 ==> r == None
    ensures |reply| < 0x8000_0000 ==>
      var m := C.Loaded(reply);
      |m| >= 8 && r == if m[..4] == [0, 0, 0, 26] then Some(DumpAt(m, 4)) else Some(Failed)
  {
    hide C.Loaded, C.InitFails, C.InitialLength, DumpDefined, DumpAt, BytesInt;
    var rep := new C.Message.Load(reply);
    if rep.buffer.data == null { return None; }
    SmallLoad(reply);
    BytesType(C.Loaded(reply)[..4]);
    TypeCodes(BytesInt(C.Loaded(reply)[..4]), DumpReply);
    assert C.Loaded(reply)[0..4] == C.Loaded(reply)[..4];
    if rep.ty != Code(DumpReply) { return Some(Failed); }
    var result := DumpUnpack(rep.buffer);
    r := Some(result);
  }

  lemma {:induction false} SmallLoad(reply: seq<byte>)
    requires |reply| < 0x8000_0000
    ensures C.BLOCK_SIZE <= |C.Loaded(reply)| < C.SIZE_LIMIT / 2
  {
    C.GrowthCovers(|reply|);
  }

  lemma {:induction false} PrependNone<T>(b: Option<seq<T>>)
    ensures Prepend([], b) == b
  {
    if b.Some? { assert [] + b.value == b.value; }
  }

  lemma {:induction false} PrependAgain<T>(a: seq<T>, b: seq<T>, c: Option<seq<T>>)
    ensures Prepend(a, Prepend(b, c)) == Prepend(a + b, c)
  {
    if c.Some? { assert a + (b + c.value) == a + b + c.value; }
  }

  function Prepend<T>(a: seq<T>, b: Option<seq<T>>): Option<seq<T>> { if b.None? then None else Some(a + b.value) }

  /** What arrives of each credential. */
  function AllReceived(cs: seq<Cred>): seq<Cred>
    requires WellFormed(cs)
  {
    seq(|cs|, i requires 0 <= i < |cs| => Received(cs[i]))
  }

  /** The C decoder reads back every dump, in order, whatever surrounds it. */
  lemma {:induction false} CDumpRoundTrip(before: seq<byte>, cs: seq<Cred>, after: seq<byte>)
    requires WellFormed(cs)
    ensures CapacitiesOk(before + Records(cs) + after, |before|, |cs|)
    ensures CDumped(before + Records(cs) + after, |before|, |cs|) == Some(AllReceived(cs))
    decreases |cs|
  {
    hide CUnpacked, CapacityOk, Received, Records, CredBytes, InStruct;
    if cs != [] {
      var rest, b := Records(cs[1..]) + after, before + Records(cs) + after;
      FirstRecord(before, cs, after);
      CRoundTrip(before, cs[0], rest);
      CDumpRoundTrip(before + CredBytes(cs[0]), cs[1..], after);
      assert AllReceived(cs) == [Received(cs[0])] + AllReceived(cs[1..]);
    } else {
      assert AllReceived(cs) == [];
    }
  }

  lemma {:induction false} FirstRecord(before: seq<byte>, cs: seq<Cred>, after: seq<byte>)
    requires Packable(cs) && cs != []
    ensures before + Records(cs) + after == before + CredBytes(cs[0]) + (Records(cs[1..]) + after)
    ensures before + Records(cs) + after == (before + CredBytes(cs[0])) + Records(cs[1..]) + after
  {
    hide Records, CredBytes, InStruct;
    RecordsCons(cs);
  }

  // ---------- decoding a dump in Rust ----------

  function RustDumped(b: seq<byte>, pos: nat, n: nat, utf8: seq<byte> -> bool): R.Result<seq<RC.RCred>, RC.CredError>
    requires pos <= |b|
    decreases n
  {
    if n == 0 then R.Ok([])
    else
      match RC.Unpacked(b, pos, utf8)
      case Err(e) => R.Err(e)
      case Ok((c, p)) => PrependOk([c], RustDumped(b, p, n - 1, utf8))
  }

  function PrependOk<T, E>(a: seq<T>, b: R.Result<seq<T>, E>): R.Result<seq<T>, E> {
    if b.Err? then b else R.Ok(a + b.value)
  }

  /** What `decode_dump_reply` makes of a message. */
  function DumpDecoded(message: R.Message, utf8: seq<byte> -> bool): R.Result<seq<RC.RCred>, RC.CredError> {
    if message.ty != DumpReply then R.Err(RC.UnexpectedMessageType)
    else if |message.body| < 4 then R.Err(RC.Short(4, |message.body|))
    else if Int(message.body, 0) < 0 then R.Err(RC.Protocol(R.TooLarge(RC.USIZE_MAX, 0x7FFF_FFFF)))
    else RustDumped(message.body, 4, Int(message.body, 0), utf8)
  }

  method DecodeDumpReply(message: R.Message, utf8: seq<byte> -> bool) returns (r: R.Result<seq<RC.RCred>, RC.CredError>)
    ensures r == DumpDecoded(message, utf8)
    ensures message.ty != DumpReply ==> r == R.Err(RC.UnexpectedMessageType)
    ensures message.ty == DumpReply ==>
      var b := message.body;
      && (|b| < 4 ==> r == R.Err(RC.Protocol(R.Truncated(4, |b|))))
      && (|b| >= 4 && b[0] >= 128 ==> r == R.Err(RC.Protocol(R.TooLarge(18446744073709551615, 2147483647))))
      && (|b| >= 4 && b[0] < 128 ==> Int(b, 0) >= 0 && r == RustDumped(b, 4, Int(b, 0), utf8))
  {
    hide RC.Unpacked, BytesInt, RustDumped;
    if |message.body| >= 4 { IntValue(message.body[0..4], 0); }
    if message.ty != DumpReply { return R.Err(RC.UnexpectedMessageType); }
    var reader := new R.Reader(message.body);
    var count := reader.UnpackInt();
    if count.Err? { return R.Err(RC.Protocol(count.error)); }
    if count.value < 0 { return R.Err(RC.Protocol(R.TooLarge(RC.USIZE_MAX, 0x7FFF_FFFF))); }
    var creds: seq<RC.RCred> := [];
    ghost var all := RustDumped(message.body, 4, count.value, utf8);
    PrependNothing(all);
    for i := 0 to count.value
      invariant reader.Valid()
      invariant all == PrependOk(creds, RustDumped(message.body, reader.pos, count.value - i, utf8))
    {
      ghost var readAt := reader.pos;
      RustDumpedStep(message.body, readAt, count.value - i, utf8);
      var cred := RC.Unpack(reader, utf8);
      if cred.Err? { return R.Err(cred.error); }
      PrependTwice(creds, [cred.value], RustDumped(message.body, reader.pos, count.value - i - 1, utf8));
      creds := creds + [cred.value];
    }
    RustDumpedEnd(message.body, reader.pos, utf8);
    assert creds + [] == creds;
    r := R.Ok(creds);
  }

  /** The records follow one another, and the error is that of the first record that cannot be read. */
  lemma {:induction false} RustDumpRecords(b: seq<byte>, pos: nat, n: nat, utf8: seq<byte> -> bool) returns (ps: seq<nat>)
    requires pos <= |b|
    ensures |ps| > 0 && ps[0] == pos && forall i :: 0 <= i < |ps| ==> ps[i] <= |b|
    ensures forall i :: 0 <= i < |ps| - 1 ==>
      RC.Unpacked(b, ps[i], utf8).Ok? && RC.Unpacked(b, ps[i], utf8).value.1 == ps[i + 1]
    ensures match RustDumped(b, pos, n, utf8)
      case Err(e) => |ps| <= n && RC.Unpacked(b, ps[|ps| - 1], utf8) == R.Err(e)
      case Ok(cs) => |ps| == n + 1 && |cs| == n && forall i :: 0 <= i < n ==> RC.Unpacked(b, ps[i], utf8).value.0 == cs[i]
    decreases n
  {
    hide RC.Unpacked;
    ps := [pos];
    if n > 0 && RC.Unpacked(b, pos, utf8).Ok? {
      var rest := RustDumpRecords(b, RC.Unpacked(b, pos, utf8).value.1, n - 1, utf8);
      ps := ps + rest;
    }
  }

  lemma {:induction false} RustDumpedStep(b: seq<byte>, pos: nat, n: nat, utf8: seq<byte> -> bool)
    requires pos <= |b| && n > 0
    ensures RustDumped(b, pos, n, utf8) == match RC.Unpacked(b, pos, utf8)
      case Err(e) => R.Err(e)
      case Ok((c, p)) => PrependOk([c], RustDumped(b, p, n - 1, utf8))
  {
  }

  lemma {:induction false} RustDumpedEnd(b: seq<byte>, pos: nat, utf8: seq<byte> -> bool)
    requires pos <= |b|
    ensures RustDumped(b, pos, 0, utf8) == R.Ok([])
  {
  }

  lemma {:induction false} PrependNothing<T, E>(b: R.Result<seq<T>, E>)
    ensures PrependOk([], b) == b
  {
    if b.Ok? { assert [] + b.value == b.value; }
  }

  lemma {:induction false} PrependTwice<T, E>(a: seq<T>, b: seq<T>, c: R.Result<seq<T>, E>)
    ensures PrependOk(a, PrependOk(b, c)) == PrependOk(a + b, c)
  {
    if c.Ok? { assert a + (b + c.value) == a + b + c.value; }
  }

  /** What `decode_get_reply` makes of a message. */
  function GetDecoded(message: R.Message, utf8: seq<byte> -> bool): R.Result<RC.RCred, RC.CredError> {
    if message.ty != GetReply then R.Err(RC.UnexpectedMessageType)
    else match RC.Unpacked(message.body, 0, utf8) case Err(e) => R.Err(e) case Ok(x) => R.Ok(x.0)
  }

  method DecodeGetReply(message: R.Message, utf8: seq<byte> -> bool) returns (r: R.Result<RC.RCred, RC.CredError>)
    ensures r == GetDecoded(message, utf8)
    ensures message.ty != GetReply ==> r == R.Err(RC.UnexpectedMessageType)
    ensures message.ty == GetReply ==> match RC.Unpacked(message.body, 0, utf8)
      case Err(e) => r == R.Err(e)
      case Ok((c, _)) => r == R.Ok(c)
  {
    hide RC.Unpacked;
    if message.ty != GetReply { return R.Err(RC.UnexpectedMessageType); }
    var reader := new R.Reader(message.body);
    r := RC.Unpack(reader, utf8);
  }

  /** What the Rust program sees of each credential. */
  function AllSeen(cs: seq<Cred>): seq<RC.RCred>
    requires WellFormed(cs)
  {
    seq(|cs|, i requires 0 <= i < |cs| => RC.Seen(cs[i]))
  }

  lemma {:induction false} RustDumpRoundTrip(before: seq<byte>, cs: seq<Cred>, after: seq<byte>,
      utf8: seq<byte> -> bool)
    requires WellFormed(cs) && forall i :: 0 <= i < |cs| ==> utf8(RC.UntilNul(cs[i].principal))
    ensures RustDumped(before + Records(cs) + after, |before|, |cs|, utf8) == R.Ok(AllSeen(cs))
    decreases |cs|
  {
    hide RC.Unpacked, RC.Seen, RC.UntilNul, Records, CredBytes, InStruct;
    if cs == [] {
    } else {
      var rest := Records(cs[1..]) + after;
      FirstRecord(before, cs, after);
      RC.RustReadsC(before, cs[0], rest, utf8);
      RustDumpRoundTrip(before + CredBytes(cs[0]), cs[1..], after, utf8);
      assert AllSeen(cs) == [RC.Seen(cs[0])] + AllSeen(cs[1..]);
    }
  }

  /** The whole dump reply, from the repository of the C daemon to the Rust client: with up to 2037 entries the
      client gets exactly the credentials, in order; from 2038 on the reply exceeds the 64 MiB limit on a field. */
  lemma {:induction false} DumpReplyBound(cs: seq<Cred>, utf8: seq<byte> -> bool)
    requires WellFormed(cs) && |cs| < 0x8000_0000
    requires forall i :: 0 <= i < |cs| ==> utf8(RC.UntilNul(cs[i].principal))
    ensures var reply := R.Decoding(IntBytes(Code(DumpReply)) + DumpBytes(cs));
      if |cs| <= 2037 then
        && reply.Ok? && DumpDecoded(reply.value, utf8).Ok?
        && var rs := DumpDecoded(reply.value, utf8).value;
        && |rs| == |cs| && forall i :: 0 <= i < |cs| ==> rs[i] == RC.Seen(cs[i])
      else reply == R.Err(R.TooLarge(4 + 32937 * |cs|, 67108864))
  {
    hide RC.UntilNul, Records, RustDumped, R.Decoding, BytesInt, IntBytes;
    var body := DumpBytes(cs);
    RecordsSize(cs);
    R.EncodeDecode(R.Message(DumpReply, body));
    if |cs| <= 2037 {
      IntRoundTrip(|cs|, body[..4]);
      CastWrap(|cs|);
      assert body[0..4] == IntBytes(|cs|);
      RustDumpRoundTrip(IntBytes(|cs|), cs, [], utf8);
      assert IntBytes(|cs|) + Records(cs) + [] == body;
    }
  }

  /** The same reply at a C client, which loads it and unpacks the dump: with up to 65199 entries it gets all the
      credentials; from 65200 on the reply has 2^31 bytes or more, and the load cannot hold it: either its
      allocation fails, or the buffer is too short. */
  lemma {:induction false} CDumpReplyBound(cs: seq<Cred>)
    requires WellFormed(cs) && |cs| < 0x8000_0000
    ensures var reply := IntBytes(Code(DumpReply)) + DumpBytes(cs);
      && |reply| == 8 + 32937 * |cs| < C.SIZE_LIMIT && (|reply| < 0x8000_0000 <==> |cs| <= 65199)
      && if |cs| <= 65199 then
           && DumpDefined(C.Loaded(reply), 4) && DumpReceived(reply).Some? && DumpReceived(reply).value.Dumped?
           && var rs := DumpReceived(reply).value.creds;
           && |rs| == |cs| && forall i :: 0 <= i < |cs| ==> rs[i] == Received(cs[i])
         else C.InitFails(|reply|) || C.InitialLength(|reply|) < |reply|
  {
    hide Records, CDumped, BytesInt, IntBytes, C.Growth, C.InitFails, C.InitialLength;
    var t, n, reply := IntBytes(Code(DumpReply)), IntBytes(CastInt(|cs|)), IntBytes(Code(DumpReply)) + DumpBytes(cs);
    RecordsSize(cs);
    if |cs| <= 65199 {
      DumpMemory(cs, C.Loaded(reply), |C.Loaded(reply)| - |reply|);
    } else {
      C.LargeInit(|reply|);
    }
  }

  lemma {:induction false} DumpMemory(cs: seq<Cred>, m: seq<byte>, pad: nat)
    requires WellFormed(cs) && |cs| < 0x8000_0000 && m == IntBytes(Code(DumpReply)) + DumpBytes(cs) + Zeros(pad)
    ensures |m| >= 8 && Int(m, 0) == Code(DumpReply) && DumpDefined(m, 4) && DumpAt(m, 4) == Dumped(AllReceived(cs))
  {
    hide Records, CDumped, BytesInt, IntBytes, CapacitiesOk, AllReceived, InStruct;
    var t, n := IntBytes(Code(DumpReply)), IntBytes(|cs|);
    CastWrap(|cs|);
    assert m == (t + n) + Records(cs) + Zeros(pad);
    IntRoundTrip(Code(DumpReply), t);
    IntRoundTrip(|cs|, n);
    assert m[0..4] == t && m[4..8] == n;
    CDumpRoundTrip(t + n, cs, Zeros(pad));
  }
}
