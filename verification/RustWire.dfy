/** The Rust side of the wire format (rust/auks-proto/src/lib.rs). */
module RustWire {
  import opened Options
  import opened Creds
  import opened Text
  import opened Wire

  const MAX_DATA_LENGTH := 64 * 1024 * 1024

  datatype ProtoError = Truncated(needed: nat, available: nat) | UnknownType(number: Int32) | TooLarge(requested: nat, maximum: nat)

  datatype Result<T, E> = Ok(value: T) | Err(error: E)

  class Writer {
    var bytes: seq<byte>

    constructor ()
      ensures bytes == []
    {
      bytes := [];
    }

    method PackInt(value: Int32)
      modifies this
      ensures bytes == old(bytes) + IntBytes(value)
    {
      bytes := bytes + IntBytes(value);
    }

    method PackUid(value: Uid)
      modifies this
      ensures bytes == old(bytes) + BigEndian(value)
    {
      PackInt(ToInt32(value));
    }

    method PackData(data: seq<byte>)
      modifies this
      ensures bytes == old(bytes) + data
    {
      bytes := bytes + data;
    }
  }

  /** `take` from position `pos` of `buf`. */
  function Taken(buf: seq<byte>, pos: nat, len: nat): Result<seq<byte>, ProtoError>
    requires pos <= |buf|
  {
    if len > |buf| - pos then Err(Truncated(len, |buf| - pos)) else Ok(buf[pos..pos + len])
  }

  function IntAt(buf: seq<byte>, pos: nat): Result<Int32, ProtoError>
    requires pos <= |buf|
  {
    if |buf| - pos < 4 then Err(Truncated(4, |buf| - pos)) else Ok(BytesInt(buf[pos..pos + 4]))
  }

  function DataAt(buf: seq<byte>, pos: nat, len: nat): Result<seq<byte>, ProtoError>
    requires pos <= |buf|
  {
    if len > MAX_DATA_LENGTH then Err(TooLarge(len, MAX_DATA_LENGTH)) else Taken(buf, pos, len)
  }

  class Reader {
    const buf: seq<byte>
    var pos: nat

    ghost predicate Valid() reads this { pos <= |buf| }

    constructor (buf: seq<byte>)
      ensures Valid() && this.buf == buf && pos == 0
    {
      this.buf, pos := buf, 0;
    }

    function Remaining(): (n: nat)
      requires Valid()
      reads this
      ensures pos + n == |buf|
    {
      |buf| - pos
    }

    method Take(len: nat) returns (r: Result<seq<byte>, ProtoError>)
      requires Valid()
      modifies this
      ensures Valid() && r == Taken(buf, old(pos), len) && pos == old(pos) + if r.Ok? then len else 0
    {
      var available := Remaining();
      if len > available {
        return Err(Truncated(len, available));
      }
      var start := pos;
      pos := pos + len;
      r := Ok(buf[start..pos]);
    }

    method UnpackInt() returns (r: Result<Int32, ProtoError>)
      requires Valid()
      modifies this
      ensures Valid() && r == IntAt(buf, old(pos)) && pos == old(pos) + if r.Ok? then 4 else 0
    {
      var bytes := Take(4);
      r := match bytes case Ok(b) => Ok(BytesInt(b)) case Err(e) => Err(e);
    }

    method UnpackUid() returns (r: Result<Uid, ProtoError>)
      requires Valid()
      modifies this
      ensures Valid() && pos == old(pos) + if r.Ok? then 4 else 0
      ensures r == match IntAt(buf, old(pos)) case Ok(i) => Ok(ToUint32(i)) case Err(e) => Err(e)
    {
      var i := UnpackInt();
      r := match i case Ok(i) => Ok(ToUint32(i)) case Err(e) => Err(e);
    }

    method UnpackData(len: nat) returns (r: Result<seq<byte>, ProtoError>)
      requires Valid()
      modifies this
      ensures Valid() && r == DataAt(buf, old(pos), len) && pos == old(pos) + if r.Ok? then len else 0
    {
      if len > MAX_DATA_LENGTH {
        return Err(TooLarge(len, MAX_DATA_LENGTH));
      }
      r := Take(len);
    }
  }

  // ---------- messages ----------

  datatype Message = Message(ty: MessageType, body: seq<byte>)

  function Encoding(m: Message): seq<byte> { IntBytes(Code(m.ty)) + m.body }

  function Decoding(data: seq<byte>): Result<Message, ProtoError> {
    if |data| < 4 then Err(Truncated(4, |data|))
    else
      var i := BytesInt(data[..4]);
      match TypeOf(i)
      case None => Err(UnknownType(i))
      case Some(ty) =>
        if |data| - 4 > MAX_DATA_LENGTH then Err(TooLarge(|data| - 4, MAX_DATA_LENGTH)) else Ok(Message(ty, data[4..]))
  }

  /** The body that `with_data` builds. */
  function LengthAndData(data: seq<byte>): seq<byte> { IntBytes(CastInt(|data|)) + data }

  method WithData(ty: MessageType, data: seq<byte>) returns (m: Message)
    ensures m == Message(ty, LengthAndData(data))
  {
    var writer := new Writer();
    writer.PackInt(CastInt(|data|));
    writer.PackData(data);
    m := Message(ty, writer.bytes);
  }

  method Encode(m: Message) returns (bytes: seq<byte>)
    ensures bytes == Encoding(m)
  {
    var writer := new Writer();
    writer.PackInt(Code(m.ty));
    writer.PackData(m.body);
    bytes := writer.bytes;
  }

  method Decode(data: seq<byte>) returns (r: Result<Message, ProtoError>)
    ensures r == Decoding(data)
  {
    hide BytesInt, TypeOf;
    var reader := new Reader(data);
    var i := reader.UnpackInt();
    if i.Err? { return Err(i.error); }
    assert data[0..4] == data[..4];
    var ty := TypeOf(i.value);
    if ty.None? { return Err(UnknownType(i.value)); }
    assert data[4..4 + (|data| - 4)] == data[4..];
    var body := reader.UnpackData(reader.Remaining());
    if body.Err? { return Err(body.error); }
    r := Ok(Message(ty.value, body.value));
  }

  /** Decoding inverts encoding exactly up to the 64 MiB limit on the body. */
  lemma {:induction false} EncodeDecode(m: Message)
    ensures Decoding(Encoding(m)) == if |m.body| <= 67108864 then Ok(m) else Err(TooLarge(|m.body|, 67108864))
  {
    var data := Encoding(m);
    assert data[..4] == IntBytes(Code(m.ty)) && data[4..] == m.body;
    IntRoundTrip(Code(m.ty), data[..4]);
    TypeCodes(Code(m.ty), m.ty);
  }

  /** The bytes of a message: its type number and its body. */
  lemma {:induction false} EncodingBytes(m: Message)
    ensures Encoding(m) == [0, 0, 0,
      match m.ty
      case PingRequest => 0 case ListRequest => 1 case AddRequest => 2 case GetRequest => 3 case RemoveRequest => 4
      case CloseRequest => 5 case DumpRequest => 6 case CredDumpRequest => 7
      case PingReply => 20 case ErrorReply => 21 case ListReply => 22 case AddReply => 23 case GetReply => 24
      case RemoveReply => 25 case DumpReply => 26] + m.body
  {
    hide IntBytes;
    TypeBytes(m.ty);
  }

  /** What a decoder says of any input: which are too short, of no known type, too large, and which are messages. */
  lemma {:induction false} DecodingBytes(data: seq<byte>)
    ensures match Decoding(data)
      case Ok(m) => 4 <= |data| <= 4 + 67108864 && m.body == data[4..] && data == Encoding(m)
      case Err(Truncated(needed, available)) => |data| < 4 && needed == 4 && available == |data|
      case Err(UnknownType(number)) =>
        && |data| >= 4 && number == BytesInt(data[..4])
        && !(data[0] == 0 && data[1] == 0 && data[2] == 0 && (data[3] <= 7 || 20 <= data[3] <= 26))
      case Err(TooLarge(requested, maximum)) =>
        && |data| > 4 + 67108864 && requested == |data| - 4 && maximum == 67108864
        && data[0] == 0 && data[1] == 0 && data[2] == 0 && (data[3] <= 7 || 20 <= data[3] <= 26)
  {
    hide IntBytes, BytesInt, TypeOf;
    if |data| >= 4 {
      var s := data[..4];
      BytesType(s);
      assert s == [s[0], s[1], s[2], s[3]];
      if TypeOf(BytesInt(s)).Some? {
        TypeBytes(TypeOf(BytesInt(s)).value);
        assert data == s + data[4..];
      }
    }
  }

  /** What decodes is the encoding of the message it decodes to, so no two inputs give the same message. */
  lemma {:induction false} DecodeEncode(data: seq<byte>)
    ensures Decoding(data).Ok? ==> Encoding(Decoding(data).value) == data
    ensures Decoding(data).Ok? <==>
      4 <= |data| <= 4 + MAX_DATA_LENGTH && exists ty :: data[..4] == IntBytes(Code(ty))
  {
    hide BytesInt, TypeOf, IntBytes;
    if |data| >= 4 {
      var i := BytesInt(data[..4]);
      IntRoundTrip(i, data[..4]);
      assert data == data[..4] + data[4..];
      match TypeOf(i) {
        case Some(ty) => TypeCodes(i, ty);
        case None =>
      }
      forall ty | data[..4] == IntBytes(Code(ty)) ensures TypeOf(i) == Some(ty) {
        IntRoundTrip(Code(ty), data[..4]);
        TypeCodes(i, ty);
      }
    }
  }
}
