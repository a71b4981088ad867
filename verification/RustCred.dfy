/** Credentials on the Rust side (rust/auks-cred/src/lib.rs).  `utf8` decides which byte strings
    `std::str::from_utf8` accepts. */
module RustCreds {
  import opened Options
  import opened Creds
  import opened Wire
  import opened CredWire
  import opened RustWire

  const USIZE_MAX := 0xFFFF_FFFF_FFFF_FFFF

  datatype CredError =
    | InvalidPrincipal
    | InvalidPrincipalUtf8
    | DataTooLarge(size: nat)
    | Protocol(error: ProtoError)
    | InvalidMaxLength(value: Int32)
    | InvalidLength(length: nat, maxLength: nat)
    | UnexpectedMessageType

  datatype RCred = RCred(principal: seq<byte>, uid: Uid, starttime: Int32, endtime: Int32, renewTill: Int32,
                         addressless: bool, crossrealm: bool, data: seq<byte>, status: Int32)

  // ---------- packing ----------

  predicate CanPack(c: RCred) { |c.principal| <= PRINCIPAL_MAX && 0 !in c.principal && |c.data| <= DATA_MAX }

  /** The C structure with the same contents and zeros everywhere else. */
  function InC(c: RCred): Cred
    requires CanPack(c)
  {
    Cred(c.principal + Zeros(PRINCIPAL_MAX + 1 - |c.principal|), c.uid, c.starttime, c.endtime, c.renewTill,
         if c.addressless then 1 else 0, if c.crossrealm then 1 else 0,
         c.data + Zeros(DATA_MAX - |c.data|), |c.data|, DATA_MAX, c.status)
  }

  /** `Cred::pack`: the record that the C program makes of the same credential. */
  method Pack(c: RCred, writer: Writer) returns (error: Option<CredError>)
    modifies writer
    ensures CanPack(c) ==> error == None && writer.bytes == old(writer.bytes) + CredBytes(InC(c))
    ensures !CanPack(c) ==> writer.bytes == old(writer.bytes) && error == Some(
      if |c.principal| > PRINCIPAL_MAX || 0 in c.principal then InvalidPrincipal else DataTooLarge(|c.data|))
  {
    if |c.principal| > PRINCIPAL_MAX || 0 in c.principal {
      return Some(InvalidPrincipal);
    }
    if |c.data| > DATA_MAX {
      return Some(DataTooLarge(|c.data|));
    }
    PackFields(c, writer, writer.bytes);
    error := None;
  }

  /** The fields of the record, once the checks have passed. */
  method PackFields(c: RCred, writer: Writer, ghost before: seq<byte>)
    requires CanPack(c) && before == writer.bytes
    modifies writer
    ensures InStruct(InC(c)) && writer.bytes == before + CredBytes(InC(c))
  {
    hide IntBytes, BigEndian, CredPacks, PackBytes, Sent, CredBytes, InC, InStruct;
    ghost var r := InC(c);
    FieldsOf(c);
    SentEnds(r, before, before);
    SentNext(r, before, writer.bytes, 0, IntBytes(PRINCIPAL_MAX + 1));
    writer.PackInt(PRINCIPAL_MAX + 1);
    SentNext(r, before, writer.bytes, 1, r.principal);
    writer.PackData(c.principal + Zeros(PRINCIPAL_MAX + 1 - |c.principal|));
    SentNext(r, before, writer.bytes, 2, BigEndian(c.uid));
    writer.PackUid(c.uid);
    SentNext(r, before, writer.bytes, 3, IntBytes(c.starttime));
    writer.PackInt(c.starttime);
    SentNext(r, before, writer.bytes, 4, IntBytes(c.endtime));
    writer.PackInt(c.endtime);
    SentNext(r, before, writer.bytes, 5, IntBytes(c.renewTill));
    writer.PackInt(c.renewTill);
    SentNext(r, before, writer.bytes, 6, IntBytes(r.addressless));
    writer.PackInt(if c.addressless then 1 else 0);
    SentNext(r, before, writer.bytes, 7, IntBytes(r.crossrealm));
    writer.PackInt(if c.crossrealm then 1 else 0);
    SentNext(r, before, writer.bytes, 8, IntBytes(DATA_MAX));
    writer.PackInt(DATA_MAX);
    SentNext(r, before, writer.bytes, 9, IntBytes(|c.data|));
    writer.PackInt(|c.data|);
    SentNext(r, before, writer.bytes, 10, r.data);
    writer.PackData(c.data + Zeros(DATA_MAX - |c.data|));
    SentNext(r, before, writer.bytes, 11, IntBytes(c.status));
    writer.PackInt(c.status);
    SentEnds(r, before, writer.bytes);
  }

  lemma {:induction false} FieldsOf(c: RCred)
    requires CanPack(c)
    ensures InStruct(InC(c))
    ensures InC(c).principal == c.principal + Zeros(PRINCIPAL_MAX + 1 - |c.principal|)
    ensures InC(c).data == c.data + Zeros(DATA_MAX - |c.data|)
    ensures InC(c).addressless == (if c.addressless then 1 else 0) && InC(c).crossrealm == if c.crossrealm then 1 else 0
    ensures var ps, x := CredPacks(InC(c)), InC(c);
      && PackBytes(ps[0]) == IntBytes(PRINCIPAL_MAX + 1) && PackBytes(ps[1]) == x.principal && PackBytes(ps[2]) == BigEndian(c.uid)
      && PackBytes(ps[3]) == IntBytes(c.starttime) && PackBytes(ps[4]) == IntBytes(c.endtime)
      && PackBytes(ps[5]) == IntBytes(c.renewTill) && PackBytes(ps[6]) == IntBytes(x.addressless)
      && PackBytes(ps[7]) == IntBytes(x.crossrealm) && PackBytes(ps[8]) == IntBytes(DATA_MAX)
      && PackBytes(ps[9]) == IntBytes(|c.data|) && PackBytes(ps[10]) == x.data
      && PackBytes(ps[11]) == IntBytes(c.status)
  {
    hide BigEndian, IntBytes, PackBytes, CredPacks, CastInt;
    var x := InC(c);
    Fields(x);
    CastWrap(c.starttime);
    CastWrap(c.endtime);
    CastWrap(c.renewTill);
    CastWrap(c.status);
    CastWrap(x.addressless);
    CastWrap(x.crossrealm);
    CastWrap(DATA_MAX);
    CastWrap(|c.data|);
    assert x.data[..DATA_MAX] == x.data;
  }

  // ---------- unpacking ----------

  /** The bytes before the first NUL, or all of them. */
  function UntilNul(s: seq<byte>): seq<byte> { if s == [] || s[0] == 0 then [] else [s[0]] + UntilNul(s[1..]) }

  lemma {:induction false} UntilNulMeans(s: seq<byte>)
    ensures var t := UntilNul(s);
      && t <= s && (forall i :: 0 <= i < |t| ==> s[i] != 0) && (|t| < |s| ==> s[|t|] == 0)
  {
    if s == [] || s[0] == 0 {
    } else {
      UntilNulMeans(s[1..]);
      assert s == [s[0]] + s[1..];
    }
  }

  function Short(needed: nat, available: nat): CredError { Protocol(Truncated(needed, available)) }

  /** `Cred::unpack` at position `pos` of `b`. */
  function Unpacked(b: seq<byte>, pos: nat, utf8: seq<byte> -> bool): (r: Result<(RCred, nat), CredError>)
    requires pos <= |b|
    ensures r.Ok? ==> pos < r.value.1 <= |b|
  {
    var n := |b| - pos;
    if n < 4 then Err(Short(4, n))
    else if Int(b, pos) != PRINCIPAL_MAX + 1 then
      Err(InvalidLength(if Int(b, pos) > 0 then Int(b, pos) else 0, PRINCIPAL_MAX + 1))
    else if n < 133 then Err(Short(PRINCIPAL_MAX + 1, n - 4))
    else if !utf8(UntilNul(b[pos + 4..pos + 133])) then Err(InvalidPrincipalUtf8)
    else if n < 157 then Err(Short(4, (n - 133) % 4))
    else
      UnpackedContents(b, pos + 157,
        RCred(UntilNul(b[pos + 4..pos + 133]), ToUint32(Int(b, pos + 133)), Int(b, pos + 137), Int(b, pos + 141), Int(b, pos + 145),
              Int(b, pos + 149) != 0, Int(b, pos + 153) != 0, [], 0))
  }

  /** `Cred::unpack` from the capacity, at position `q`, on. */
  function UnpackedContents(b: seq<byte>, q: nat, c: RCred): (r: Result<(RCred, nat), CredError>)
    requires q <= |b|
    ensures r.Ok? ==> q < r.value.1 <= |b|
  {
    var n := |b| - q;
    if n < 4 then Err(Short(4, n))
    else
      var max := Int(b, q);
      if !(0 <= max <= DATA_MAX) then Err(InvalidMaxLength(max))
      else if n < 8 then Err(Short(4, n - 4))
      else
        var length := Int(b, q + 4);
        if length < 0 then Err(InvalidLength(USIZE_MAX, max))
        else if length > DATA_MAX then Err(DataTooLarge(length))
        else if length > max then Err(InvalidLength(length, max))
        else if n < 8 + max then Err(Short(max, n - 8))
        else if n < 12 + max then Err(Short(4, n - 8 - max))
        else Ok((c.(data := b[q + 8..q + 8 + length], status := Int(b, q + 8 + max)), q + 12 + max))
  }

  method UntilNulIn(s: seq<byte>) returns (t: seq<byte>)
    ensures t == UntilNul(s)
  {
    hide UntilNul;
    var end := 0;
    UntilNulFrom(s, 0);
    while end < |s| && s[end] != 0
      invariant end <= |s| && UntilNul(s) == s[..end] + UntilNul(s[end..])
    {
      UntilNulFrom(s, end);
      end := end + 1;
    }
    UntilNulFrom(s, end);
    t := s[..end];
  }

  lemma {:induction false} UntilNulFrom(s: seq<byte>, end: nat)
    requires end <= |s|
    ensures if end == |s| || s[end] == 0 then s[..end] + UntilNul(s[end..]) == s[..end]
            else s[..end] + UntilNul(s[end..]) == s[..end + 1] + UntilNul(s[end + 1..])
    ensures end == 0 ==> s == s[end..] && s[..end] + UntilNul(s[end..]) == UntilNul(s)
  {
    if end < |s| {
      assert s[end..][1..] == s[end + 1..];
      assert s[..end] + ([s[end]] + UntilNul(s[end + 1..])) == s[..end + 1] + UntilNul(s[end + 1..]);
    }
  }

  method Unpack(reader: Reader, utf8: seq<byte> -> bool) returns (r: Result<RCred, CredError>)
    requires reader.Valid()
    modifies reader
    ensures reader.Valid()
    ensures match Unpacked(reader.buf, old(reader.pos), utf8)
      case Err(e) => r == Err(e)
      case Ok(x) => r == Ok(x.0) && reader.pos == x.1
  {
    hide BytesInt, ToUint32, UntilNul;
    var principalLength := reader.UnpackInt();
    if principalLength.Err? { return Err(Protocol(principalLength.error)); }
    if principalLength.value != PRINCIPAL_MAX + 1 {
      return Err(InvalidLength(if principalLength.value > 0 then principalLength.value else 0, PRINCIPAL_MAX + 1));
    }
    var principalBytes := reader.UnpackData(PRINCIPAL_MAX + 1);
    if principalBytes.Err? { return Err(Protocol(principalBytes.error)); }
    var principal := UntilNulIn(principalBytes.value);
    if !utf8(principal) { return Err(InvalidPrincipalUtf8); }
    r := UnpackInts(reader, principal);
    if r.Err? { return; }
    r := UnpackContents(reader, r.value);
  }

  /** The uid, the times and the flags. */
  method UnpackInts(reader: Reader, principal: seq<byte>) returns (r: Result<RCred, CredError>)
    requires reader.Valid()
    modifies reader
    ensures reader.Valid()
    ensures var b, p := reader.buf, old(reader.pos);
      if |b| - p < 24 then r == Err(Short(4, (|b| - p) % 4))
      else
        && reader.pos == p + 24
        && r == Ok(RCred(principal, ToUint32(Int(b, p)), Int(b, p + 4), Int(b, p + 8), Int(b, p + 12),
                         Int(b, p + 16) != 0, Int(b, p + 20) != 0, [], 0))
  {
    hide BytesInt, ToUint32;
    var uid := reader.UnpackUid();
    if uid.Err? { return Err(Protocol(uid.error)); }
    var starttime := reader.UnpackInt();
    if starttime.Err? { return Err(Protocol(starttime.error)); }
    var endtime := reader.UnpackInt();
    if endtime.Err? { return Err(Protocol(endtime.error)); }
    var renewTill := reader.UnpackInt();
    if renewTill.Err? { return Err(Protocol(renewTill.error)); }
    var addressless := reader.UnpackInt();
    if addressless.Err? { return Err(Protocol(addressless.error)); }
    var crossrealm := reader.UnpackInt();
    if crossrealm.Err? { return Err(Protocol(crossrealm.error)); }
    r := Ok(RCred(principal, uid.value, starttime.value, endtime.value, renewTill.value,
                  addressless.value != 0, crossrealm.value != 0, [], 0));
  }

  /** The data and the status. */
  method UnpackContents(reader: Reader, c: RCred) returns (r: Result<RCred, CredError>)
    requires reader.Valid()
    modifies reader
    ensures reader.Valid()
    ensures match UnpackedContents(reader.buf, old(reader.pos), c)
      case Err(e) => r == Err(e)
      case Ok(x) => r == Ok(x.0) && reader.pos == x.1
  {
    hide BytesInt, ToUint32;
    var maxLength := reader.UnpackInt();
    if maxLength.Err? { return Err(Protocol(maxLength.error)); }
    if !(0 <= maxLength.value <= DATA_MAX) { return Err(InvalidMaxLength(maxLength.value)); }
    var length := reader.UnpackInt();
    if length.Err? { return Err(Protocol(length.error)); }
    if length.value < 0 { return Err(InvalidLength(USIZE_MAX, maxLength.value)); }
    if length.value > DATA_MAX { return Err(DataTooLarge(length.value)); }
    if length.value > maxLength.value { return Err(InvalidLength(length.value, maxLength.value)); }
    ghost var q := reader.pos;
    var data := reader.UnpackData(maxLength.value);
    if data.Err? { return Err(Protocol(data.error)); }
    assert data.value[..length.value] == reader.buf[q..q + length.value];
    var status := reader.UnpackInt();
    if status.Err? { return Err(Protocol(status.error)); }
    r := Ok(c.(data := data.value[..length.value], status := status.value));
  }

  /** What `Cred::unpack` accepts. */
  lemma {:induction false} AcceptsExactly(b: seq<byte>, pos: nat, utf8: seq<byte> -> bool)
    requires pos <= |b|
    ensures Unpacked(b, pos, utf8).Ok? <==>
      && pos + 165 <= |b| && Int(b, pos) == 129 && utf8(UntilNul(b[pos + 4..pos + 133]))
      && 0 <= Int(b, pos + 161) <= Int(b, pos + 157) <= 32768
      && pos + 169 + Int(b, pos + 157) <= |b|
  {
    hide BytesInt, UntilNul;
  }

  // ---------- agreement with the C program ----------

  /** What the Rust program sees of a C structure. */
  function Seen(c: Cred): RCred
    requires InStruct(c) && c.length <= c.maxLength
  {
    RCred(UntilNul(c.principal), c.uid, CastInt(c.starttime), CastInt(c.endtime), CastInt(c.renewTill),
          CastInt(c.addressless) != 0, CastInt(c.crossrealm) != 0, c.data[..c.length], CastInt(c.status))
  }

  /** What the Rust program sees of each field: the principal up to its NUL, the times, flags and status as 32-bit
      ints, and the used part of the data. */
  lemma {:induction false} SeenMeaning(c: Cred, name: seq<byte>)
    requires InStruct(c) && c.length <= c.maxLength
    requires name <= c.principal && 0 !in name && (|name| == |c.principal| || c.principal[|name|] == 0)
    ensures var r := Seen(c);
      && r.principal == name && r.uid == c.uid && r.data == c.data[..c.length]
      && (c.starttime - r.starttime) % 4294967296 == 0 && (c.endtime - r.endtime) % 4294967296 == 0
      && (c.renewTill - r.renewTill) % 4294967296 == 0 && (c.status - r.status) % 4294967296 == 0
      && (r.addressless <==> c.addressless % 4294967296 != 0) && (r.crossrealm <==> c.crossrealm % 4294967296 != 0)
  {
    CastValue(0, c.starttime);
    CastValue(0, c.endtime);
    CastValue(0, c.renewTill);
    CastValue(0, c.status);
    FlagMeaning(c.addressless);
    FlagMeaning(c.crossrealm);
    UntilNulMeans(c.principal);
    var t := UntilNul(c.principal);
    hide CastInt, UntilNul;
    assert forall i :: 0 <= i < |name| ==> c.principal[i] == name[i];
  }

  lemma {:induction false} FlagMeaning(x: int)
    ensures CastInt(x) != 0 <==> x % 4294967296 != 0
  {
  }

  /** Which input gives which error: the field that is cut short and how much of it is there, or the value that is
      out of range, everything before it being in order. */
  lemma {:induction false} UnpackErrors(b: seq<byte>, pos: nat, utf8: seq<byte> -> bool)
    requires pos <= |b| && Unpacked(b, pos, utf8).Err?
    ensures var n := |b| - pos;
      var named := n >= 133 && Int(b, pos) == 129 && utf8(UntilNul(b[pos + 4..pos + 133]));
      var roomy := n >= 161 && 0 <= Int(b, pos + 157) <= 32768;
      var sized := n >= 165 && 0 <= Int(b, pos + 161) <= Int(b, pos + 157) <= 32768;
      match Unpacked(b, pos, utf8).error
      case Protocol(Truncated(needed, available)) =>
        || (n < 4 && needed == 4 && available == n)
        || (4 <= n < 133 && Int(b, pos) == 129 && needed == 129 && available == n - 4)
        || (n < 165 && named && (n < 161 || roomy) && needed == 4 && available < 4 && (n - 133 - available) % 4 == 0)
        || (named && sized && n < 165 + Int(b, pos + 157) && needed == Int(b, pos + 157) && available == n - 165)
        || (named && sized && needed == 4 && available < 4 && n == 165 + Int(b, pos + 157) + available)
      case Protocol(_) => false
      case InvalidPrincipalUtf8 => n >= 133 && Int(b, pos) == 129 && !named
      case InvalidMaxLength(value) => n >= 161 && named && value == Int(b, pos + 157) && !roomy
      case DataTooLarge(size) => n >= 165 && named && roomy && size == Int(b, pos + 161) > 32768
      case InvalidLength(length, maxLength) =>
        || (n >= 4 && maxLength == 129 && Int(b, pos) != 129 && length == if Int(b, pos) > 0 then Int(b, pos) else 0)
        || (n >= 165 && named && roomy && maxLength == Int(b, pos + 157) < length == Int(b, pos + 161) <= 32768)
        || (n >= 165 && named && roomy && maxLength == Int(b, pos + 157) && Int(b, pos + 161) < 0
            && length == 18446744073709551615)
      case InvalidPrincipal => false
      case UnexpectedMessageType => false
  {
    hide BytesInt, UntilNul;
  }

  lemma {:induction false} SliceOfSlice(s: seq<byte>, i: nat, n: nat, k: nat)
    requires k <= n && i + n <= |s|
    ensures s[i..i + k] == s[i..i + n][..k]
  {
  }

  /** The record of a C structure, anywhere in an input, is read as the used parts of its fields: whatever
      follows the NUL in the principal and the length in the data does not matter. */
  lemma {:induction false} RustReadsC(before: seq<byte>, c: Cred, after: seq<byte>, utf8: seq<byte> -> bool)
    requires InStruct(c) && c.length <= c.maxLength && utf8(UntilNul(c.principal))
    ensures Unpacked(before + CredBytes(c) + after, |before|, utf8) == Ok((Seen(c), |before| + |CredBytes(c)|))
  {
    hide CredBytes, Int, CastInt, ToUint32, UntilNul;
    var b, p := before + CredBytes(c) + after, |before|;
    RecordSize(c);
    RecordFields(before, c, after, b, p);
    SmallInts(c);
    SliceOfSlice(b, p + 165, c.maxLength, c.length);
    assert c.data[..c.length] == c.data[..c.maxLength][..c.length];
  }

  lemma {:induction false} UntilNulPadded(s: seq<byte>, n: nat)
    requires 0 !in s
    ensures UntilNul(s + Zeros(n)) == s
  {
    if s == [] {
      assert s + Zeros(n) == Zeros(n);
    } else {
      assert (s + Zeros(n))[1..] == s[1..] + Zeros(n);
      UntilNulPadded(s[1..], n);
      assert s == [s[0]] + s[1..];
    }
  }

  /** What the Rust program packs it reads back. */
  lemma {:induction false} PackUnpack(before: seq<byte>, c: RCred, after: seq<byte>, utf8: seq<byte> -> bool)
    requires CanPack(c) && utf8(c.principal)
    ensures InStruct(InC(c))
    ensures Unpacked(before + CredBytes(InC(c)) + after, |before|, utf8) == Ok((c, |before| + 32937))
  {
    hide CredBytes, Unpacked, CastInt, UntilNul;
    var x := InC(c);
    UntilNulPadded(c.principal, PRINCIPAL_MAX + 1 - |c.principal|);
    RustReadsC(before, x, after, utf8);
    RecordSize(x);
    CastWrap(c.starttime);
    CastWrap(c.endtime);
    CastWrap(c.renewTill);
    CastWrap(c.status);
    CastWrap(x.addressless);
    CastWrap(x.crossrealm);
    assert x.data[..|c.data|] == c.data;
  }
}
