/** The wire record of a credential, and what the two programs make of it: `auks_cred_pack` and
    `auks_cred_unpack` (src/api/auks/auks_cred.c), `Cred::pack` and `Cred::unpack` (rust/auks-cred/src/lib.rs). */
module CredWire {
  import opened Options
  import opened Creds
  import opened Text
  import opened Wire

  // ---------- the record ----------

  /** The arrays of the C structure have their declared sizes, and its capacity is within its buffer. */
  predicate InStruct(c: Cred) {
    |c.principal| == PRINCIPAL_MAX + 1 && |c.data| == DATA_MAX && c.maxLength <= DATA_MAX
  }

  function CredPacks(c: Cred): seq<Pack>
    requires InStruct(c)
  {
    [PackInt(PRINCIPAL_MAX + 1), PackData(c.principal), PackUid(c.uid),
     PackInt(CastInt(c.starttime)), PackInt(CastInt(c.endtime)), PackInt(CastInt(c.renewTill)),
     PackInt(CastInt(c.addressless)), PackInt(CastInt(c.crossrealm)),
     PackInt(CastInt(c.maxLength)), PackInt(CastInt(c.length)), PackData(c.data[..c.maxLength]),
     PackInt(CastInt(c.status))]
  }

  function CredBytes(c: Cred): seq<byte> requires InStruct(c) { Packed(CredPacks(c)) }

  /** Where the `i`th field of a record with capacity `max` starts. */
  function Offset(i: nat, max: nat): nat {
    match i
    case 0 => 0 case 1 => 4 case 2 => 133 case 3 => 137 case 4 => 141 case 5 => 145 case 6 => 149 case 7 => 153
    case 8 => 157 case 9 => 161 case 10 => 165 case 11 => 165 + max
    case _ => 169 + max
  }

  lemma {:induction false} PackedPrefix(ps: seq<Pack>, i: nat)
    requires i <= |ps|
    ensures Packed(ps[..i]) <= Packed(ps)
    decreases |ps| - i
  {
    if i < |ps| {
      PackedPrefix(ps, i + 1);
      PackedStep(ps, i);
    } else {
      assert ps[..i] == ps;
    }
  }

  lemma {:induction false} OffsetIs(c: Cred, i: nat)
    requires InStruct(c) && i <= 12
    ensures |Packed(CredPacks(c)[..i])| == Offset(i, c.maxLength)
  {
    hide PackBytes, CastInt, Packed, Offset;
    if i == 0 {
      NothingPacked(CredPacks(c), c.maxLength);
    } else {
      OffsetIs(c, i - 1);
      PackedStep(CredPacks(c), i - 1);
      FieldSize(c, i - 1);
    }
  }

  lemma {:induction false} NothingPacked(ps: seq<Pack>, max: nat)
    ensures |Packed(ps[..0])| == Offset(0, max)
  {
  }

  lemma {:induction false} FieldSize(c: Cred, i: nat)
    requires InStruct(c) && i < 12
    ensures |PackBytes(CredPacks(c)[i])| == Offset(i + 1, c.maxLength) - Offset(i, c.maxLength)
  {
    hide IntBytes, CastInt;
  }

  /** A record of a credential with the full capacity takes 32937 bytes. */
  lemma {:induction false} RecordSize(c: Cred)
    requires InStruct(c)
    ensures |CredBytes(c)| == 169 + c.maxLength && (c.maxLength == DATA_MAX ==> |CredBytes(c)| == 32937)
  {
    OffsetIs(c, 12);
    assert CredPacks(c)[..12] == CredPacks(c);
  }

  /** The `i`th field is where it should be in any larger input. */
  lemma {:induction false} FieldAt(before: seq<byte>, c: Cred, after: seq<byte>, i: nat)
    requires InStruct(c) && i < 12
    ensures var p := |before|;
      && p + Offset(i + 1, c.maxLength) <= |before + CredBytes(c) + after|
      && Offset(i, c.maxLength) <= Offset(i + 1, c.maxLength)
      && (before + CredBytes(c) + after)[p + Offset(i, c.maxLength)..p + Offset(i + 1, c.maxLength)] == PackBytes(CredPacks(c)[i])
  {
    hide Packed, PackBytes, Offset;
    var ps := CredPacks(c);
    OffsetIs(c, i);
    OffsetIs(c, i + 1);
    PackedStep(ps, i);
    PackedPrefix(ps, i + 1);
    var a, b, s := |Packed(ps[..i])|, |Packed(ps[..i + 1])|, Packed(ps);
    assert s[..b] == Packed(ps[..i + 1]);
    assert s[..b][a..] == PackBytes(ps[i]);
    assert (before + s + after)[|before| + a..|before| + b] == s[..b][a..];
  }

  // ---------- packing field by field ----------

  /** `bytes` are `before` and the first `i` fields of the record of `c`. */
  ghost predicate Sent(c: Cred, before: seq<byte>, bytes: seq<byte>, i: nat)
    requires InStruct(c)
  {
    i <= 12 && bytes == before + Packed(CredPacks(c)[..i])
  }

  lemma {:induction false} SentNext(c: Cred, before: seq<byte>, bytes: seq<byte>, i: nat, field: seq<byte>)
    requires InStruct(c) && i < 12 && Sent(c, before, bytes, i) && field == PackBytes(CredPacks(c)[i])
    ensures Sent(c, before, bytes + field, i + 1)
  {
    hide Packed, PackBytes;
    PackedStep(CredPacks(c), i);
  }

  lemma {:induction false} SentEnds(c: Cred, before: seq<byte>, bytes: seq<byte>)
    requires InStruct(c)
    ensures Sent(c, before, before, 0)
    ensures Sent(c, before, bytes, 12) ==> bytes == before + CredBytes(c)
  {
    assert CredPacks(c)[..12] == CredPacks(c);
  }

  lemma {:induction false} Fields(c: Cred)
    requires InStruct(c)
    ensures var ps := CredPacks(c);
      && |ps| == 12
      && PackBytes(ps[0]) == IntBytes(PRINCIPAL_MAX + 1) && PackBytes(ps[1]) == c.principal
      && PackBytes(ps[2]) == BigEndian(c.uid)
      && PackBytes(ps[3]) == IntBytes(CastInt(c.starttime)) && PackBytes(ps[4]) == IntBytes(CastInt(c.endtime))
      && PackBytes(ps[5]) == IntBytes(CastInt(c.renewTill)) && PackBytes(ps[6]) == IntBytes(CastInt(c.addressless))
      && PackBytes(ps[7]) == IntBytes(CastInt(c.crossrealm)) && PackBytes(ps[8]) == IntBytes(CastInt(c.maxLength))
      && PackBytes(ps[9]) == IntBytes(CastInt(c.length)) && PackBytes(ps[10]) == c.data[..c.maxLength]
      && PackBytes(ps[11]) == IntBytes(CastInt(c.status))
  {
    hide BigEndian, CastInt;
  }

  // ---------- the C decoder ----------

  function Int(b: seq<byte>, p: nat): Int32 requires p + 4 <= |b| { BytesInt(b[p..p + 4]) }

  /** The capacity of the record is not negative, or so far below zero that the size it converts to does not wrap
      around when it is added to the position; with any other the C decoder leaves its buffer. */
  predicate CapacityOk(m: seq<byte>, pos: nat) {
    pos + 161 <= |m| && Int(m, pos) == PRINCIPAL_MAX + 1 ==>
      Int(m, pos + 157) >= 0 || pos + 165 + Int(m, pos + 157) < 0
  }

  /** `auks_cred_unpack` on the memory of a loaded buffer; `None` is a failure.  The three times and the
      length are stored into the low half of a zeroed 64-bit field.  A wrong principal length stops the
      decoder with the status of the read before, which is success. */
  function CUnpacked(m: seq<byte>, pos: nat): Option<(Cred, nat)> {
    if pos + 4 > |m| then None
    else if Int(m, pos) != PRINCIPAL_MAX + 1 then Some((ZERO_CRED, pos + 4))
    else if pos + 165 > |m| then None
    else
      var max, length := Int(m, pos + 157), ToUint32(Int(m, pos + 161));
      if max < 0 || max > DATA_MAX || length > DATA_MAX || pos + 169 + max > |m| then None
      else Some((Cred(m[pos + 4..pos + 133], ToUint32(Int(m, pos + 133)),
                      ToUint32(Int(m, pos + 137)), ToUint32(Int(m, pos + 141)), ToUint32(Int(m, pos + 145)),
                      Int(m, pos + 149), Int(m, pos + 153),
                      m[pos + 165..pos + 165 + max] + Zeros(DATA_MAX - max), length, max,
                      Int(m, pos + 165 + max)),
                 pos + 169 + max))
  }

  /** What arrives when `c` is packed and unpacked by the C programs. */
  function Received(c: Cred): Cred
    requires InStruct(c) && c.length <= DATA_MAX
  {
    Cred(c.principal, c.uid, ToUint32(CastInt(c.starttime)), ToUint32(CastInt(c.endtime)), ToUint32(CastInt(c.renewTill)),
         CastInt(c.addressless), CastInt(c.crossrealm), c.data[..c.maxLength] + Zeros(DATA_MAX - c.maxLength),
         c.length, c.maxLength, CastInt(c.status))
  }

  /** What arrives of each field: times and lengths modulo 2^32 from 0 on, flags and status as 32-bit ints, the data
      up to the capacity and zeros after it. */
  lemma {:induction false} ReceivedMeaning(c: Cred)
    requires InStruct(c) && c.length <= DATA_MAX
    ensures var r := Received(c);
      && r.principal == c.principal && r.uid == c.uid && r.length == c.length && r.maxLength == c.maxLength
      && 0 <= r.starttime < 4294967296 && (c.starttime - r.starttime) % 4294967296 == 0
      && 0 <= r.endtime < 4294967296 && (c.endtime - r.endtime) % 4294967296 == 0
      && 0 <= r.renewTill < 4294967296 && (c.renewTill - r.renewTill) % 4294967296 == 0
      && -2147483648 <= r.addressless < 2147483648 && (c.addressless - r.addressless) % 4294967296 == 0
      && -2147483648 <= r.crossrealm < 2147483648 && (c.crossrealm - r.crossrealm) % 4294967296 == 0
      && -2147483648 <= r.status < 2147483648 && (c.status - r.status) % 4294967296 == 0
      && |r.data| == 32768 && r.data[..c.maxLength] == c.data[..c.maxLength]
      && forall i :: c.maxLength <= i < 32768 ==> r.data[i] == 0
  {
    TimeMeaning(c.starttime);
    TimeMeaning(c.endtime);
    TimeMeaning(c.renewTill);
    CastValue(0, c.addressless);
    CastValue(0, c.crossrealm);
    CastValue(0, c.status);
    hide CastInt, ToUint32;
    assert (c.data[..c.maxLength] + Zeros(DATA_MAX - c.maxLength))[..c.maxLength] == c.data[..c.maxLength];
  }

  lemma {:induction false} TimeMeaning(t: int)
    ensures 0 <= ToUint32(CastInt(t)) < 4294967296 && (t - ToUint32(CastInt(t))) % 4294967296 == 0
  {
    CastValue(CastInt(t), t);
    hide CastInt;
    var x: int := CastInt(t);
    if x < 0 { assert (t - x - 4294967296) % 4294967296 == (t - x) % 4294967296; }
  }

  /** Which memory the C decoder refuses, and how far it gets: a principal length other than 129 stops it after four
      bytes, with success. */
  lemma {:induction false} CUnpackedMeaning(m: seq<byte>, pos: nat)
    ensures pos + 4 > |m| ==> CUnpacked(m, pos) == None
    ensures pos + 4 <= |m| && Int(m, pos) != 129 ==>
      CUnpacked(m, pos) == Some((Cred(Zeros(129), 0, 0, 0, 0, 0, 0, Zeros(32768), 0, 0, 0), pos + 4))
    ensures pos + 4 <= |m| && Int(m, pos) == 129 ==>
      (CUnpacked(m, pos).Some? <==>
        && pos + 165 <= |m| && 0 <= Int(m, pos + 157) <= 32768 && 0 <= Int(m, pos + 161) <= 32768
        && pos + 169 + Int(m, pos + 157) <= |m|)
    ensures pos + 4 <= |m| && Int(m, pos) == 129 && CUnpacked(m, pos).Some? ==>
      CUnpacked(m, pos).value.1 == pos + 169 + Int(m, pos + 157)
  {
    hide BytesInt;
  }

  lemma {:induction false} IntField(before: seq<byte>, c: Cred, after: seq<byte>, i: nat, x: Int32)
    requires InStruct(c) && i < 12 && i != 1 && i != 10 && PackBytes(CredPacks(c)[i]) == IntBytes(x)
    ensures var b, p := before + CredBytes(c) + after, |before| + Offset(i, c.maxLength);
      p + 4 <= |b| && Int(b, p) == x
  {
    hide CredBytes, PackBytes, IntBytes, BytesInt;
    FieldAt(before, c, after, i);
    IntRoundTrip(x, IntBytes(x));
  }

  lemma {:induction false} SmallInts(c: Cred)
    requires InStruct(c)
    ensures CastInt(c.maxLength) == c.maxLength && (c.length <= DATA_MAX ==> CastInt(c.length) == c.length)
    ensures ToUint32(ToInt32(c.uid)) == c.uid
  {
  }

  lemma {:induction false} RecordHead(before: seq<byte>, c: Cred, after: seq<byte>, b: seq<byte>, p: nat)
    requires InStruct(c) && b == before + CredBytes(c) + after && p == |before|
    ensures p + 149 <= |b|
    ensures Int(b, p) == PRINCIPAL_MAX + 1 && b[p + 4..p + 133] == c.principal && Int(b, p + 133) == ToInt32(c.uid)
    ensures Int(b, p + 137) == CastInt(c.starttime) && Int(b, p + 141) == CastInt(c.endtime)
    ensures Int(b, p + 145) == CastInt(c.renewTill)
  {
    hide CredBytes, CredPacks, PackBytes, IntBytes, Int, CastInt;
    Fields(c);
    UidBytes(c.uid);
    IntField(before, c, after, 0, PRINCIPAL_MAX + 1);
    FieldAt(before, c, after, 1);
    IntField(before, c, after, 2, ToInt32(c.uid));
    IntField(before, c, after, 3, CastInt(c.starttime));
    IntField(before, c, after, 4, CastInt(c.endtime));
    IntField(before, c, after, 5, CastInt(c.renewTill));
  }

  lemma {:induction false} UidBytes(u: Uid)
    ensures BigEndian(u) == IntBytes(ToInt32(u))
  {
    hide BigEndian;
  }

  /** All the fields of a record, at their places. */
  lemma {:induction false} RecordFields(before: seq<byte>, c: Cred, after: seq<byte>, b: seq<byte>, p: nat)
    requires InStruct(c) && b == before + CredBytes(c) + after && p == |before|
    ensures p + 169 + c.maxLength <= |b|
    ensures Int(b, p) == PRINCIPAL_MAX + 1 && b[p + 4..p + 133] == c.principal && Int(b, p + 133) == ToInt32(c.uid)
    ensures Int(b, p + 137) == CastInt(c.starttime) && Int(b, p + 141) == CastInt(c.endtime)
    ensures Int(b, p + 145) == CastInt(c.renewTill)
    ensures Int(b, p + 149) == CastInt(c.addressless) && Int(b, p + 153) == CastInt(c.crossrealm)
    ensures Int(b, p + 157) == c.maxLength && Int(b, p + 161) == CastInt(c.length)
    ensures b[p + 165..p + 165 + c.maxLength] == c.data[..c.maxLength]
    ensures Int(b, p + 165 + c.maxLength) == CastInt(c.status)
  {
    hide CredBytes, CredPacks, PackBytes, IntBytes, Int, CastInt;
    RecordSize(c);
    RecordHead(before, c, after, b, p);
    SmallInts(c);
    Fields(c);
    IntField(before, c, after, 6, CastInt(c.addressless));
    IntField(before, c, after, 7, CastInt(c.crossrealm));
    IntField(before, c, after, 8, CastInt(c.maxLength));
    IntField(before, c, after, 9, CastInt(c.length));
    FieldAt(before, c, after, 10);
    IntField(before, c, after, 11, CastInt(c.status));
  }

  /** Packing and unpacking in C, in the middle of any buffer. */
  lemma {:induction false} CRoundTrip(before: seq<byte>, c: Cred, after: seq<byte>)
    requires InStruct(c) && c.length <= DATA_MAX
    ensures var b := before + CredBytes(c) + after;
      CapacityOk(b, |before|) && CUnpacked(b, |before|) == Some((Received(c), |before| + |CredBytes(c)|))
  {
    hide CredBytes, Int, CastInt, ToUint32;
    var b := before + CredBytes(c) + after;
    RecordSize(c);
    RecordFields(before, c, after, b, |before|);
    SmallInts(c);
    LengthBits(c);
  }

  lemma {:induction false} LengthBits(c: Cred)
    requires c.length <= DATA_MAX
    ensures ToUint32(CastInt(c.length)) == c.length && ToUint32(ToInt32(c.uid)) == c.uid
  {
  }

  /** What arrives is what was sent exactly when the times are between 0 and 2^32, the flags and the status are
      ints, and the data beyond the capacity is zero.  A negative time arrives 2^32 later. */
  lemma {:induction false} CRoundTripExact(c: Cred)
    requires InStruct(c) && c.length <= DATA_MAX
    ensures Received(c) == c <==>
      && 0 <= c.starttime < 0x1_0000_0000 && 0 <= c.endtime < 0x1_0000_0000 && 0 <= c.renewTill < 0x1_0000_0000
      && -0x8000_0000 <= c.addressless < 0x8000_0000 && -0x8000_0000 <= c.crossrealm < 0x8000_0000
      && -0x8000_0000 <= c.status < 0x8000_0000
      && c.data[c.maxLength..] == Zeros(DATA_MAX - c.maxLength)
  {
    CastWrap(c.starttime);
    CastWrap(c.endtime);
    CastWrap(c.renewTill);
    CastWrap(c.addressless);
    CastWrap(c.crossrealm);
    CastWrap(c.status);
    hide CastInt, ToUint32;
    assert c.data == c.data[..c.maxLength] + c.data[c.maxLength..];
    var z := Zeros(DATA_MAX - c.maxLength);
    assert (c.data[..c.maxLength] + z)[c.maxLength..] == z;
  }

  /** A credential that expired one second before the epoch arrives as one of the year 2106. */
  lemma {:induction false} NegativeTimeShifts()
    ensures var c := ZERO_CRED.(endtime := -1, maxLength := DATA_MAX);
      Received(c).endtime == 0xFFFF_FFFF && Received(c) != c
  {
    CastWrap(-1);
  }

  lemma {:induction false} CastWrap(t: int)
    ensures ToUint32(CastInt(t)) == t <==> 0 <= t < 0x1_0000_0000
    ensures CastInt(t) == t <==> -0x8000_0000 <= t < 0x8000_0000
    ensures -0x8000_0000 <= t < 0 ==> ToUint32(CastInt(t)) == t + 0x1_0000_0000
  {
  }
}
