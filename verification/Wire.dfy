/** The integers and message types of the AUKS wire format, and the two packing programs' operations on it. */
module Wire {
  import opened Options
  import opened Creds
  import opened Text

  type Int32 = x: int | -0x8000_0000 <= x < 0x8000_0000

  // ---------- integers ----------

  /** The 32 bits of a signed number read as an unsigned one. */
  function ToUint32(i: Int32): (u: Uid) { if i >= 0 then i else i + 0x1_0000_0000 }

  /** A cast to a 32-bit `int`. */
  function CastInt(x: int): Int32 { ToInt32(x % 0x1_0000_0000) }

  function Word(a: int, b: int, c: int, d: int): int { a * 0x100_0000 + b * 0x1_0000 + c * 0x100 + d }

  function BigEndian(u: Uid): (s: seq<byte>)
    ensures |s| == 4
  {
    [u / 0x100_0000, u / 0x1_0000 % 0x100, u / 0x100 % 0x100, u % 0x100]
  }

  function FromBigEndian(s: seq<byte>): Uid
    requires |s| == 4
  {
    Word(s[0], s[1], s[2], s[3])
  }

  /** How a little-endian host lays out a word in memory. */
  function InMemory(u: Uid): (s: seq<byte>)
    ensures |s| == 4
  {
    [u % 0x100, u / 0x100 % 0x100, u / 0x1_0000 % 0x100, u / 0x100_0000]
  }

  /** `htonl`, and `ntohl`, on such a host. */
  function SwapBytes(u: Uid): Uid {
    Word(u % 0x100, u / 0x100 % 0x100, u / 0x1_0000 % 0x100, u / 0x100_0000)
  }

  /** The word that a little-endian host reads from memory. */
  function FromMemory(s: seq<byte>): Uid
    requires |s| == 4
  {
    Word(s[3], s[2], s[1], s[0])
  }

  /** An `int` on the wire, and back. */
  function IntBytes(i: Int32): (s: seq<byte>) ensures |s| == 4 { BigEndian(ToUint32(i)) }

  function BytesInt(s: seq<byte>): Int32 requires |s| == 4 { ToInt32(FromBigEndian(s)) }

  lemma {:induction false} BigEndianInverse(u: Uid, s: seq<byte>)
    requires |s| == 4
    ensures FromBigEndian(BigEndian(u)) == u && BigEndian(FromBigEndian(s)) == s
  {
    var t := BigEndian(FromBigEndian(s));
    Digits(s[0], s[1], s[2], s[3]);
    assert t[0] == s[0] && t[1] == s[1] && t[2] == s[2] && t[3] == s[3];
    Weighted(u);
  }

  lemma {:induction false} Digits(a: byte, b: byte, c: byte, d: byte)
    ensures var u := Word(a, b, c, d);
      u / 0x100_0000 == a && u / 0x1_0000 % 0x100 == b && u / 0x100 % 0x100 == c && u % 0x100 == d
  {
    var u := Word(a, b, c, d);
    assert u / 0x1_0000 == a * 0x100 + b;
    assert u / 0x100 == a * 0x1_0000 + b * 0x100 + c;
  }

  lemma {:induction false} Weighted(u: Uid)
    ensures u == Word(u / 0x100_0000, u / 0x1_0000 % 0x100, u / 0x100 % 0x100, u % 0x100)
  {
    var x, y, z := u / 0x100, u / 0x1_0000, u / 0x100_0000;
    assert y == x / 0x100 && z == y / 0x100;
    assert u == x * 0x100 + u % 0x100 && x == y * 0x100 + x % 0x100 && y == z * 0x100 + y % 0x100;
  }

  /** Every 32-bit number survives the wire, and every four bytes are the encoding of one number. */
  lemma {:induction false} IntRoundTrip(i: Int32, s: seq<byte>)
    requires |s| == 4
    ensures BytesInt(IntBytes(i)) == i && IntBytes(BytesInt(s)) == s
  {
    BigEndianInverse(ToUint32(i), s);
  }

  /** The C route to the same bytes: swap, then copy the word from memory; and back. */
  lemma {:induction false} HostBytes(u: Uid, s: seq<byte>)
    requires |s| == 4
    ensures InMemory(SwapBytes(u)) == BigEndian(u) && SwapBytes(FromMemory(s)) == FromBigEndian(s)
  {
    Digits(u % 0x100, u / 0x100 % 0x100, u / 0x1_0000 % 0x100, u / 0x100_0000);
    Digits(s[3], s[2], s[1], s[0]);
  }

  /** The value of four bytes on the wire, and the bytes of a small number. */
  lemma {:induction false} IntValue(s: seq<byte>, n: nat)
    requires |s| == 4 && n < 256
    ensures var a: int, b: int, c: int, d: int := s[0], s[1], s[2], s[3];
      BytesInt(s) == a * 16777216 + b * 65536 + c * 256 + d - if a >= 128 then 4294967296 else 0
    ensures IntBytes(n) == [0, 0, 0, n]
  {
  }

  /** The bits of an int read as an unsigned number, and a cast: the value modulo 2^32. */
  lemma {:induction false} CastValue(i: Int32, x: int)
    ensures ToUint32(i) == if i < 0 then i + 4294967296 else i
    ensures -2147483648 <= CastInt(x) < 2147483648 && (x - CastInt(x)) % 4294967296 == 0
  {
  }

  // ---------- message types ----------

  datatype MessageType =
    | PingRequest | ListRequest | AddRequest | GetRequest | RemoveRequest | CloseRequest | DumpRequest | CredDumpRequest
    | PingReply | ErrorReply | ListReply | AddReply | GetReply | RemoveReply | DumpReply

  /** The number of a message type; both programs use the same ones. */
  function Code(ty: MessageType): Int32 {
    match ty
    case PingRequest => 0
    case ListRequest => 1
    case AddRequest => 2
    case GetRequest => 3
    case RemoveRequest => 4
    case CloseRequest => 5
    case DumpRequest => 6
    case CredDumpRequest => 7
    case PingReply => 20
    case ErrorReply => 21
    case ListReply => 22
    case AddReply => 23
    case GetReply => 24
    case RemoveReply => 25
    case DumpReply => 26
  }

  /** `MessageType::try_from` */
  function TypeOf(i: Int32): Option<MessageType> {
    match i
    case 0 => Some(PingRequest)
    case 1 => Some(ListRequest)
    case 2 => Some(AddRequest)
    case 3 => Some(GetRequest)
    case 4 => Some(RemoveRequest)
    case 5 => Some(CloseRequest)
    case 6 => Some(DumpRequest)
    case 7 => Some(CredDumpRequest)
    case 20 => Some(PingReply)
    case 21 => Some(ErrorReply)
    case 22 => Some(ListReply)
    case 23 => Some(AddReply)
    case 24 => Some(GetReply)
    case 25 => Some(RemoveReply)
    case 26 => Some(DumpReply)
    case _ => None
  }

  /** The bytes a message of each type begins with. */
  lemma {:induction false} TypeBytes(ty: MessageType)
    ensures IntBytes(Code(ty)) == [0, 0, 0,
      match ty
      case PingRequest => 0 case ListRequest => 1 case AddRequest => 2 case GetRequest => 3 case RemoveRequest => 4
      case CloseRequest => 5 case DumpRequest => 6 case CredDumpRequest => 7
      case PingReply => 20 case ErrorReply => 21 case ListReply => 22 case AddReply => 23 case GetReply => 24
      case RemoveReply => 25 case DumpReply => 26]
  {
    hide IntBytes, BytesInt;
    IntValue([0, 0, 0, 0], Code(ty));
  }

  /** And only those types begin with those bytes. */
  lemma {:induction false} BytesType(s: seq<byte>)
    requires |s| == 4
    ensures TypeOf(BytesInt(s)) ==
      if s == [0, 0, 0, 0] then Some(PingRequest) else if s == [0, 0, 0, 1] then Some(ListRequest)
      else if s == [0, 0, 0, 2] then Some(AddRequest) else if s == [0, 0, 0, 3] then Some(GetRequest)
      else if s == [0, 0, 0, 4] then Some(RemoveRequest) else if s == [0, 0, 0, 5] then Some(CloseRequest)
      else if s == [0, 0, 0, 6] then Some(DumpRequest) else if s == [0, 0, 0, 7] then Some(CredDumpRequest)
      else if s == [0, 0, 0, 20] then Some(PingReply) else if s == [0, 0, 0, 21] then Some(ErrorReply)
      else if s == [0, 0, 0, 22] then Some(ListReply) else if s == [0, 0, 0, 23] then Some(AddReply)
      else if s == [0, 0, 0, 24] then Some(GetReply) else if s == [0, 0, 0, 25] then Some(RemoveReply)
      else if s == [0, 0, 0, 26] then Some(DumpReply) else None
  {
    hide IntBytes, BytesInt;
    IntValue(s, 0);
    assert s == [s[0], s[1], s[2], s[3]];
    if 0 <= BytesInt(s) < 256 { assert s[0] == 0 && s[1] == 0 && s[2] == 0 && s[3] == BytesInt(s); }
  }

  lemma {:induction false} TypeCodes(i: Int32, ty: MessageType)
    ensures TypeOf(i) == Some(ty) <==> Code(ty) == i
  {
  }

  // ---------- sequences of packs and reads ----------

  datatype Pack = PackInt(i: Int32) | PackUid(u: Uid) | PackData(data: seq<byte>)

  function PackBytes(p: Pack): seq<byte> {
    match p
    case PackInt(i) => IntBytes(i)
    case PackUid(u) => IntBytes(ToInt32(u))
    case PackData(data) => data
  }

  function Packed(ps: seq<Pack>): seq<byte> {
    if ps == [] then [] else Packed(ps[..|ps| - 1]) + PackBytes(ps[|ps| - 1])
  }

  lemma {:induction false} PackedStep(ps: seq<Pack>, i: nat)
    requires i < |ps|
    ensures Packed(ps[..i + 1]) == Packed(ps[..i]) + PackBytes(ps[i])
  {
    assert ps[..i + 1][..i] == ps[..i];
  }

  datatype Read = ReadInt | ReadUid | ReadData(length: nat)

  datatype Field = AnInt(i: Int32) | AUid(u: Uid) | Data(data: seq<byte>)

  function ReadSize(r: Read): nat { if r.ReadData? then r.length else 4 }

  /** The field that a read makes of the bytes it takes. */
  function FieldOf(r: Read, s: seq<byte>): Field
    requires |s| == ReadSize(r)
  {
    match r
    case ReadInt => AnInt(BytesInt(s))
    case ReadUid => AUid(ToUint32(BytesInt(s)))
    case ReadData(_) => Data(s)
  }
}
