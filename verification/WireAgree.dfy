/** The C and the Rust side of the wire format produce and consume the same bytes. */
module WireAgree {
  import opened Options
  import opened Creds
  import opened Text
  import opened Wire
  import C = CBuffers
  import R = RustWire

  // ---------- writing ----------

  /** Packing `ps` in C, in a buffer with that capacity and that many bytes packed, never leaves the buffer: each
      field fits, or will once the buffer has grown, or makes the growth fail, and then nothing follows. */
  predicate PacksDefined(length: nat, processed: nat, ps: seq<Pack>)
    decreases |ps|
  {
    ps != [] ==>
      var n := |PackBytes(ps[0])|;
      && n < C.SIZE_LIMIT && (C.Covers(length, processed, n) || C.Wraps(length, n))
      && (C.Covers(length, processed, n) ==> PacksDefined(C.LengthFor(length, processed, n), processed + n, ps[1..]))
  }

  /** No growth fails on the way. */
  predicate PacksFit(length: nat, processed: nat, ps: seq<Pack>)
    decreases |ps|
  {
    ps != [] ==>
      var n := |PackBytes(ps[0])|;
      && n < C.SIZE_LIMIT && C.Covers(length, processed, n)
      && PacksFit(C.LengthFor(length, processed, n), processed + n, ps[1..])
  }

  /** Fields below 2^31 bytes always fit. */
  lemma {:induction false} SmallPacksFit(length: nat, processed: nat, ps: seq<Pack>)
    requires processed <= length && forall i :: 0 <= i < |ps| ==> |PackBytes(ps[i])| < 0x8000_0000
    ensures PacksDefined(length, processed, ps) && PacksFit(length, processed, ps)
    decreases |ps|
  {
    hide C.Covers, C.Wraps, C.Grown, PackBytes;
    if ps == [] {
    } else {
      var n := |PackBytes(ps[0])|;
      C.SmallCovered(length, processed, n);
      C.CoversMeans(length, processed, n);
      RoomFor(length, processed, n);
      SmallPacksFit(C.LengthFor(length, processed, n), processed + n, ps[1..]);
    }
  }

  lemma {:induction false} RoomFor(length: nat, processed: nat, n: nat)
    requires n < C.SIZE_LIMIT && processed <= length && C.Covers(length, processed, n)
    ensures processed + n <= C.LengthFor(length, processed, n)
  {
    hide C.Growth;
  }

  method PackWithC(p: Pack, b: C.Buffer) returns (ok: bool)
    requires b.Valid() && |PackBytes(p)| < C.SIZE_LIMIT
    requires C.Covers(b.length, b.processed, |PackBytes(p)|) || C.Wraps(b.length, |PackBytes(p)|)
    modifies b, b.data
    ensures ok <==> C.Covers(old(b.length), old(b.processed), |PackBytes(p)|)
    ensures if ok then b.Valid() && (b.data == old(b.data) || fresh(b.data)) else b.data == null
    ensures ok ==> b.Bytes() == old(b.Bytes()) + PackBytes(p) && b.processed == old(b.processed) + |PackBytes(p)|
    ensures ok ==> b.length == C.LengthFor(old(b.length), old(b.processed), |PackBytes(p)|)
    ensures ok ==> b.length == old(b.length) || b.length <= 2 * b.processed + 1022
  {
    hide C.Covers, C.Wraps, C.Grown, C.Growth, C.LengthFor, BigEndian;
    C.SmallCovered(b.length, b.processed, 4);
    ok := true;
    match p
    case PackInt(v) => b.PackInt(v);
    case PackUid(u) => b.PackUid(u);
    case PackData(data) => ok := b.PackData(data);
  }

  method PackWithRust(p: Pack, w: R.Writer)
    modifies w
    ensures w.bytes == old(w.bytes) + PackBytes(p)
  {
    hide BigEndian;
    match p
    case PackInt(v) => w.PackInt(v);
    case PackUid(u) => w.PackUid(u);
    case PackData(data) => w.PackData(data);
  }

  /** The same packs on both sides, in any order and whatever reallocations they need on the C side.  The C side stops
      at the first one that fails; the Rust side has no limit. */
  method PackBoth(ps: seq<Pack>, size: nat) returns (ok: bool, b: C.Buffer, w: R.Writer)
    requires size < C.SIZE_LIMIT && (C.InitFails(size) || PacksDefined(C.InitialLength(size), 0, ps))
    ensures fresh(b) && fresh(w) && w.bytes == Packed(ps)
    ensures ok <==> !C.InitFails(size) && PacksFit(C.InitialLength(size), 0, ps)
    ensures if ok then b.Valid() && b.Bytes() == Packed(ps) else b.data == null
    ensures ok ==> b.length % C.BLOCK_SIZE == 0
    ensures ok ==> b.length == C.InitialLength(size) || b.length <= 2 * |Packed(ps)| + 1022
    ensures ok && size <= C.BLOCK_SIZE ==> b.length <= 2 * |Packed(ps)| + C.BLOCK_SIZE
  {
    hide Packed, PackBytes, PacksDefined, PacksFit, C.Growth, C.Grown, C.Covers, C.Wraps, C.InitFails, C.LengthFor;
    PackedNone(ps);
    b := new C.Buffer(size);
    w := new R.Writer();
    ok := b.data != null;
    assert ps[0..] == ps;
    for i := 0 to |ps|
      invariant fresh(b) && fresh(w) && w.bytes == Packed(ps[..i])
      invariant if ok then b.Valid() && fresh(b.data) else b.data == null
      invariant ok ==> b.Bytes() == Packed(ps[..i]) && PacksDefined(b.length, b.processed, ps[i..])
      invariant if ok then !C.InitFails(size) && (PacksFit(b.length, b.processed, ps[i..]) <==> PacksFit(C.InitialLength(size), 0, ps))
                else C.InitFails(size) || !PacksFit(C.InitialLength(size), 0, ps)
      invariant ok ==> b.length == C.InitialLength(size) || b.length <= 2 * b.processed + 1022
    {
      PackedStep(ps, i);
      if ok {
        NextPack(b.length, b.processed, ps, i);
        ok := PackWithC(ps[i], b);
      }
      PackWithRust(ps[i], w);
    }
    assert ps[..|ps|] == ps && ps[|ps|..] == [];
    if ok { NoPacks(b.length, b.processed); }
  }

  lemma {:induction false} NextPack(length: nat, processed: nat, ps: seq<Pack>, i: nat)
    requires i < |ps| && PacksDefined(length, processed, ps[i..])
    ensures var n := |PackBytes(ps[i])|;
      && n < C.SIZE_LIMIT && (C.Covers(length, processed, n) || C.Wraps(length, n))
      && (C.Covers(length, processed, n) ==> PacksDefined(C.LengthFor(length, processed, n), processed + n, ps[i + 1..]))
      && (PacksFit(length, processed, ps[i..]) <==>
            C.Covers(length, processed, n) && PacksFit(C.LengthFor(length, processed, n), processed + n, ps[i + 1..]))
  {
    hide PackBytes, C.Covers, C.Wraps, C.LengthFor;
    assert ps[i..][1..] == ps[i + 1..] && ps[i..][0] == ps[i];
  }

  lemma {:induction false} NoPacks(length: nat, processed: nat)
    ensures PacksFit(length, processed, [])
  {
  }

  lemma {:induction false} PackedNone(ps: seq<Pack>)
    ensures Packed(ps[..0]) == []
  {
  }

  // ---------- reading ----------

  /** What the Rust reader makes of a sequence of reads on `b` from position `pos`; `None` when one fails. */
  function RustReads(b: seq<byte>, pos: nat, rs: seq<Read>): Option<(seq<Field>, nat)>
    requires pos <= |b|
    decreases |rs|
  {
    if rs == [] then Some(([], pos))
    else
      var n := ReadSize(rs[0]);
      if n > |b| - pos || (rs[0].ReadData? && n > R.MAX_DATA_LENGTH) then None
      else
        var more := RustReads(b, pos + n, rs[1..]);
        if more.None? then None else Some(([FieldOf(rs[0], b[pos..pos + n])] + more.value.0, more.value.1))
  }

  /** The same reads by the C program on a loaded buffer: `memory` is the whole of its capacity. */
  function CReads(memory: seq<byte>, pos: nat, rs: seq<Read>): Option<(seq<Field>, nat)>
    requires pos <= |memory|
    decreases |rs|
  {
    if rs == [] then Some(([], pos))
    else
      var n := ReadSize(rs[0]);
      if pos + n > |memory| then None
      else
        var more := CReads(memory, pos + n, rs[1..]);
        if more.None? then None else Some(([FieldOf(rs[0], memory[pos..pos + n])] + more.value.0, more.value.1))
  }

  /** What the Rust reader accepts, the C program reads with the same values and positions. */
  lemma {:induction false} ReadsAgree(b: seq<byte>, pad: nat, pos: nat, rs: seq<Read>)
    requires pos <= |b|
    ensures RustReads(b, pos, rs).Some? ==> CReads(b + Zeros(pad), pos, rs) == RustReads(b, pos, rs)
    decreases |rs|
  {
    var memory := b + Zeros(pad);
    if RustReads(b, pos, rs).None? || rs == [] {
    } else {
      var n := ReadSize(rs[0]);
      assert memory[pos..pos + n] == b[pos..pos + n];
      ReadsAgree(b, pad, pos + n, rs[1..]);
    }
  }

  /** Where the two differ: the C program reads on into the zeros that follow the input.  It accepts what
      the Rust reader accepts on the padded input, fields over 64 MiB aside. */
  lemma {:induction false} CReadsPadding(memory: seq<byte>, pos: nat, rs: seq<Read>)
    requires pos <= |memory|
    requires forall i :: 0 <= i < |rs| ==> ReadSize(rs[i]) <= R.MAX_DATA_LENGTH
    ensures CReads(memory, pos, rs) == RustReads(memory, pos, rs)
    decreases |rs|
  {
    if rs == [] || pos + ReadSize(rs[0]) > |memory| {
    } else {
      CReadsPadding(memory, pos + ReadSize(rs[0]), rs[1..]);
    }
  }

  function ReadFor(p: Pack): Read {
    match p case PackInt(_) => ReadInt case PackUid(_) => ReadUid case PackData(data) => ReadData(|data|)
  }

  function FieldFor(p: Pack): Field {
    match p case PackInt(i) => AnInt(i) case PackUid(u) => AUid(u) case PackData(data) => Data(data)
  }

  /** The fields packed are the fields read. */
  lemma {:induction false} FieldRoundTrip(p: Pack)
    ensures |PackBytes(p)| == ReadSize(ReadFor(p)) && FieldOf(ReadFor(p), PackBytes(p)) == FieldFor(p)
  {
    match p
    case PackInt(i) => IntRoundTrip(i, IntBytes(i));
    case PackUid(u) => IntRoundTrip(ToInt32(u), IntBytes(ToInt32(u)));
    case PackData(data) =>
  }

  /** The bytes of the packs in order, from the front. */
  lemma {:induction false} PackedCons(ps: seq<Pack>)
    requires ps != []
    ensures Packed(ps) == PackBytes(ps[0]) + Packed(ps[1..])
  {
    hide PackBytes, Packed;
    var n := |ps| - 1;
    PackedLast(ps);
    if n == 0 {
      PackedNone(ps);
      PackedNone(ps[1..]);
      assert ps[1..][..0] == ps[1..];
      assert Packed(ps) == [] + PackBytes(ps[0]);
    } else {
      PackedCons(ps[..n]);
      PackedLast(ps[1..]);
      assert ps[..n][1..] == ps[1..][..n - 1];
      assert Packed(ps) == PackBytes(ps[0]) + (Packed(ps[1..][..n - 1]) + PackBytes(ps[n]));
    }
  }

  lemma {:induction false} PackedLast(ps: seq<Pack>)
    requires ps != []
    ensures Packed(ps) == Packed(ps[..|ps| - 1]) + PackBytes(ps[|ps| - 1])
  {
  }

  function ReadsFor(ps: seq<Pack>): seq<Read> { if ps == [] then [] else [ReadFor(ps[0])] + ReadsFor(ps[1..]) }

  function FieldsFor(ps: seq<Pack>): seq<Field> { if ps == [] then [] else [FieldFor(ps[0])] + FieldsFor(ps[1..]) }

  /** Reading back the kinds of fields that were packed, at any place of a larger input, gives those fields
      and takes exactly their bytes. */
  lemma {:induction false} PackedReadsBack(before: seq<byte>, ps: seq<Pack>, after: seq<byte>)
    requires forall i :: 0 <= i < |ps| && ps[i].PackData? ==> |ps[i].data| <= R.MAX_DATA_LENGTH
    ensures RustReads(before + Packed(ps) + after, |before|, ReadsFor(ps)) == Some((FieldsFor(ps), |before| + |Packed(ps)|))
    decreases |ps|
  {
    hide PackBytes, FieldOf, ReadFor, FieldFor, Packed;
    if ps == [] {
      assert Packed([]) == [] by { PackedNone([]); }
    } else {
      var first, tail := PackBytes(ps[0]), ps[1..];
      PackedReadsBack(before + first, tail, after);
      var b := ReadPlace(before, ps, after);
      FieldRoundTrip(ps[0]);
      ReadKind(ps[0]);
      assert ReadsFor(ps)[1..] == ReadsFor(tail);
    }
  }

  lemma {:induction false} ReadPlace(before: seq<byte>, ps: seq<Pack>, after: seq<byte>) returns (b: seq<byte>)
    requires ps != []
    ensures b == before + Packed(ps) + after == (before + PackBytes(ps[0])) + Packed(ps[1..]) + after
    ensures b[|before|..|before| + |PackBytes(ps[0])|] == PackBytes(ps[0])
    ensures |Packed(ps)| == |PackBytes(ps[0])| + |Packed(ps[1..])|
  {
    hide PackBytes, Packed;
    PackedCons(ps);
    b := before + Packed(ps) + after;
    assert b == (before + PackBytes(ps[0])) + Packed(ps[1..]) + after;
  }

  /** The two programs running those reads. */
  method ReadWithRust(r: R.Reader, rs: seq<Read>) returns (fs: Option<seq<Field>>)
    requires r.Valid()
    modifies r
    ensures r.Valid()
    ensures match RustReads(r.buf, old(r.pos), rs) case None => fs == None case Some(x) => fs == Some(x.0) && r.pos == x.1
    decreases |rs|
  {
    if rs == [] { return Some([]); }
    var f: Field;
    match rs[0] {
      case ReadInt =>
        var x := r.UnpackInt();
        if x.Err? { return None; }
        f := AnInt(x.value);
      case ReadUid =>
        var x := r.UnpackUid();
        if x.Err? { return None; }
        f := AUid(x.value);
      case ReadData(n) =>
        var x := r.UnpackData(n);
        if x.Err? { return None; }
        f := Data(x.value);
    }
    var more := ReadWithRust(r, rs[1..]);
    fs := if more.None? then None else Some([f] + more.value);
  }

  /** One read by the C program. */
  method ReadOneC(b: C.Buffer, r: Read) returns (f: Option<Field>)
    requires b.Valid() && b.processed + ReadSize(r) < C.SIZE_LIMIT
    modifies b`processed
    ensures b.Valid()
    ensures var p, n := old(b.processed), ReadSize(r);
      if p + n <= b.length then f == Some(FieldOf(r, b.data[p..p + n])) && b.processed == p + n
      else f == None && b.processed == p
  {
    hide BytesInt, FromBigEndian;
    match r
    case ReadInt =>
      var x := b.UnpackInt();
      f := if x.None? then None else Some(AnInt(x.value));
    case ReadUid =>
      ghost var p := b.processed;
      var x := b.UnpackUid();
      if x.Some? { UidBits(b.data[p..p + 4]); }
      f := if x.None? then None else Some(AUid(x.value));
    case ReadData(n) =>
      var x := b.UnpackData(n);
      f := if x.None? then None else Some(Data(x.value));
  }

  /** No read is so large that the sum in its test wraps around. */
  predicate ReadsDefined(length: nat, pos: nat, rs: seq<Read>)
    decreases |rs|
  {
    rs != [] ==>
      var end := pos + ReadSize(rs[0]);
      end < C.SIZE_LIMIT && (end <= length ==> ReadsDefined(length, end, rs[1..]))
  }

  method ReadWithC(b: C.Buffer, rs: seq<Read>) returns (fs: Option<seq<Field>>)
    requires b.Valid() && ReadsDefined(b.length, b.processed, rs)
    modifies b`processed
    ensures b.Valid()
    ensures match CReads(b.data[..], old(b.processed), rs)
      case None => fs == None
      case Some(x) => fs == Some(x.0) && b.processed == x.1
    decreases |rs|
  {
    hide FieldOf, ReadSize;
    if rs == [] { return Some([]); }
    ghost var p, n := b.processed, ReadSize(rs[0]);
    assert p + n <= b.length ==> b.data[p..p + n] == b.data[..][p..p + n];
    var f := ReadOneC(b, rs[0]);
    if f.None? { return None; }
    var more := ReadWithC(b, rs[1..]);
    fs := if more.None? then None else Some([f.value] + more.value);
  }

  lemma {:induction false} UidBits(s: seq<byte>)
    requires |s| == 4
    ensures ToUint32(BytesInt(s)) == FromBigEndian(s)
  {
  }

  lemma {:induction false} ReadKind(p: Pack)
    ensures ReadFor(p).ReadData? ==> p.PackData? && ReadSize(ReadFor(p)) == |p.data|
  {
  }

  // ---------- messages ----------

  /** `auks_message_init` and `with_data` agree exactly on bodies that are not empty: the C program leaves
      out the length of an empty one. */
  lemma {:induction false} BodiesAgree(ty: MessageType, data: seq<byte>)
    ensures data != [] <==>
      C.MessageBytes(Code(ty), Some(data)) == R.Encoding(R.Message(ty, R.LengthAndData(data)))
  {
    hide IntBytes;
  }
}
