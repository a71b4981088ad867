/** The C packing buffer and message (src/api/auks/auks_buffer.c, src/api/auks/auks_message.c). */
module CBuffers {
  import opened Options
  import opened Creds
  import opened Text
  import opened Wire

  const BLOCK_SIZE := 1024

  /** C's `/` on `int`, which truncates towards zero. */
  function Quotient(a: int, b: nat): int requires b > 0 { if a >= 0 then a / b else -(-a / b) }

  /** What `_auks_buffer_expand` adds to the capacity for a request of `size` bytes.  The request is cast
      to `int` before it is divided. */
  function Growth(size: nat): int {
    Quotient(CastInt(size), BLOCK_SIZE) * BLOCK_SIZE + if size % BLOCK_SIZE != 0 then BLOCK_SIZE else 0
  }

  /** `size_t` values are below this. */
  const SIZE_LIMIT := 0x1_0000_0000_0000_0000

  /** The growth covers the request exactly when the request survives the cast. */
  lemma {:induction false} GrowthCovers(size: nat)
    requires size < SIZE_LIMIT
    ensures size < 0x8000_0000 ==> size <= Growth(size) < size + 1024 && Growth(size) % 1024 == 0
    ensures size >= 0x8000_0000 ==> Growth(size) < size
    ensures -0x8000_0000 <= Growth(size) && Growth(size) % 1024 == 0
  {
    var x: int := CastInt(size);
    var q := Quotient(x, BLOCK_SIZE);
    if x >= 0 { assert q * BLOCK_SIZE <= x; } else { assert q <= 0; }
  }

  /** The new capacity of a buffer of capacity `length` wraps around. */
  predicate Wraps(length: nat, size: nat) { length + Growth(size) < 0 }

  /** The capacity that is asked of `realloc` or `malloc`, as a `size_t`. */
  function Grown(length: nat, size: nat): nat
    requires size < SIZE_LIMIT
  {
    GrowthCovers(size);
    if Wraps(length, size) then length + Growth(size) + SIZE_LIMIT else length + Growth(size)
  }

  /** The capacity after `auks_buffer_init`. */
  function InitialLength(size: nat): nat
    requires size < SIZE_LIMIT
  {
    if size > BLOCK_SIZE then Grown(BLOCK_SIZE, size) else BLOCK_SIZE
  }

  /** `auks_buffer_init` for `size` bytes fails: its allocation is impossible. */
  predicate InitFails(size: nat) { size > BLOCK_SIZE && Wraps(BLOCK_SIZE, size) }

  /** What becomes of an initialisation for a size that does not survive the cast: either the capacity wraps
      around to at least 2^63 bytes, more than any allocation can have, or it is short. */
  lemma {:induction false} LargeInit(size: nat)
    requires 0x8000_0000 <= size < SIZE_LIMIT
    ensures InitFails(size) ==> 0x8000_0000_0000_0000 <= InitialLength(size) < SIZE_LIMIT
    ensures !InitFails(size) ==> InitialLength(size) < size
  {
    GrowthCovers(size);
    GrowthBound(size);
  }

  lemma {:induction false} GrowthBound(size: nat)
    requires size < SIZE_LIMIT
    ensures Growth(size) <= 0x8000_0000 && (0x8000_0000 <= size < 0x1_0000_0000 ==> Growth(size) <= BLOCK_SIZE)
  {
  }

  /** A buffer has room for `size` bytes, or will have once it has grown. */
  predicate Covers(length: nat, processed: nat, size: nat)
    requires size < SIZE_LIMIT
  {
    processed + size <= length || (!Wraps(length, size) && processed + size <= Grown(length, size))
  }

  /** The capacity once there is room for `size` more bytes. */
  function LengthFor(length: nat, processed: nat, size: nat): nat
    requires size < SIZE_LIMIT
  {
    if length - processed < size then Grown(length, size) else length
  }

  lemma {:induction false} SmallCovered(length: nat, processed: nat, size: nat)
    requires size < 0x8000_0000 && processed <= length
    ensures Covers(length, processed, size) && !Wraps(length, size)
    ensures processed + size > length ==> Grown(length, size) % BLOCK_SIZE == length % BLOCK_SIZE
  {
    GrowthCovers(size);
  }

  /** The memory of a loaded buffer: what was received, and zeros up to the capacity. */
  function Loaded(data: seq<byte>): (m: seq<byte>)
    requires |data| < 0x8000_0000
    ensures |m| == InitialLength(|data|) >= BLOCK_SIZE && data <= m
  {
    GrowthCovers(|data|);
    data + Zeros(InitialLength(|data|) - |data|)
  }

  method MemCpy(dst: array<byte>, at: nat, src: seq<byte>)
    requires at + |src| <= dst.Length
    modifies dst
    ensures dst[..at] == old(dst[..at]) && dst[at..at + |src|] == src && dst[at + |src|..] == old(dst[at + |src|..])
  {
    for i := 0 to |src|
      invariant dst[..at] == old(dst[..at]) && dst[at..at + i] == src[..i] && dst[at + i..] == old(dst[at + i..])
    {
      dst[at + i] := src[i];
      assert dst[at + i + 1..] == dst[at + i..][1..];
      assert old(dst[at + i + 1..]) == old(dst[at + i..])[1..];
    }
  }

  /** The cases of an expansion. */
  lemma {:induction false} ExpandCases(length: nat, processed: nat, size: nat)
    requires size < SIZE_LIMIT && processed <= length
    ensures var grown := length + BLOCK_SIZE * Quotient(CastInt(size), BLOCK_SIZE)
                       + if size % BLOCK_SIZE != 0 then BLOCK_SIZE else 0;
      && (Wraps(length, size) <==> grown < 0)
      && Grown(length, size) == (if grown >= 0 then grown else grown + SIZE_LIMIT)
    ensures length % BLOCK_SIZE == 0 && !Wraps(length, size) ==> Grown(length, size) % BLOCK_SIZE == 0
    ensures Covers(length, processed, size) && processed + size > length ==>
      !Wraps(length, size) && processed + size <= Grown(length, size)
  {
    hide CastInt, Quotient;
    GrowthCovers(size);
  }

  lemma {:induction false} CoversMeans(length: nat, processed: nat, size: nat)
    requires size < SIZE_LIMIT && processed <= length
    ensures Covers(length, processed, size) && processed + size > length ==>
      !Wraps(length, size) && length <= Grown(length, size) <= 2 * (processed + size) + 1022
    ensures !Covers(length, processed, size) ==> processed + size > length
  {
    GrowthCovers(size);
  }

  lemma {:induction false} InitLength(size: nat)
    requires size < SIZE_LIMIT
    ensures InitialLength(size) == if size > BLOCK_SIZE then Grown(BLOCK_SIZE, size) else BLOCK_SIZE
    ensures InitFails(size) <==> size > BLOCK_SIZE && Wraps(BLOCK_SIZE, size)
    ensures !InitFails(size) ==> InitialLength(size) % BLOCK_SIZE == 0
    ensures size < 0x8000_0000 ==> !InitFails(size) && size <= InitialLength(size)
  {
    hide Quotient, CastInt;
    GrowthCovers(size);
  }

  class Buffer {
    var data: array?<byte>
    var length: nat
    var processed: nat

    ghost predicate Valid() reads this, data {
      data != null && data.Length == length && processed <= length && length % BLOCK_SIZE == 0
    }

    /** The bytes packed so far. */
    ghost function Bytes(): (s: seq<byte>) reads this, data requires Valid() { data[..processed] }

    /** `auks_buffer_init`.  It leaves NULL behind when it fails. */
    constructor (size: nat)
      requires size < SIZE_LIMIT
      ensures processed == 0 && length == InitialLength(size)
      ensures if InitFails(size) then data == null else Valid() && fresh(data)
    {
      hide Growth, Grown, Quotient;
      data, length, processed := null, BLOCK_SIZE, 0;
      new;
      InitLength(size);
      var _ := Expand(size);
    }

    /** `auks_buffer_load`.  For a size at which the initialisation neither covers the data nor fails, the copy
        would leave the buffer. */
    constructor Load(src: seq<byte>)
      requires |src| < SIZE_LIMIT && (|src| < 0x8000_0000 || InitFails(|src|))
      ensures processed == 0 && length == InitialLength(|src|)
      ensures if |src| < 0x8000_0000 then Valid() && fresh(data) && data[..] == Loaded(src) else data == null
    {
      hide Growth, Grown, Quotient, Wraps, Covers, InitialLength;
      data, length, processed := null, BLOCK_SIZE, 0;
      new;
      InitLength(|src|);
      if |src| < 0x8000_0000 { SmallCovered(BLOCK_SIZE, 0, |src|); }
      var ok := Expand(|src|);
      if ok { CopyIn(src); }
    }

    /** The copies of `auks_buffer_load`. */
    method CopyIn(src: seq<byte>)
      requires Valid() && |src| <= length
      modifies data
      ensures data[..] == src + Zeros(length - |src|)
    {
      MemCpy(data, 0, src);
      MemCpy(data, |src|, Zeros(length - |src|));
      assert data[..] == data[..|src|] + data[|src|..];
    }

    /** `_auks_buffer_expand`.  The pointer is NULL only in a buffer that is being initialised. */
    method Expand(size: nat) returns (ok: bool)
      requires size < SIZE_LIMIT
      requires if data == null then processed == 0 && length == BLOCK_SIZE else Valid()
      modifies this
      ensures processed == old(processed)
      ensures var short := old(length) - processed < size;
        && length == (if short then Grown(old(length), size) else old(length))
        && (ok <==> !(short && Wraps(old(length), size)))
      ensures if ok then data != null && data.Length == length && (data == old(data) || fresh(data)) else data == null
      ensures Covers(old(length), processed, size) ==> ok && Valid() && length - processed >= size
      ensures ok && old(data) != null && old(length) <= length ==> data[..old(length)] == old(data[..])
    {
      hide Growth, Grown, Quotient, CastInt, Wraps, Covers;
      ghost var was := length;
      ExpandCases(length, processed, size);
      var alloc, possible := false, true;
      if length - processed < size {
        var nb := Quotient(CastInt(size), BLOCK_SIZE);
        var grown := length + BLOCK_SIZE * nb;
        if size % BLOCK_SIZE != 0 {
          grown := grown + BLOCK_SIZE;
        }
        possible := grown >= 0;
        length := if possible then grown else grown + SIZE_LIMIT;
        alloc := true;
      }
      if alloc && data != null {
        Realloc(possible);
        ok := data != null;
      } else if data == null {
        if possible {
          data := new byte[length];
        }
        ok := data != null;
      } else {
        ok := true;
      }
    }

    /** `realloc` to the new capacity. */
    method Realloc(possible: bool)
      requires data != null
      modifies `data
      ensures if possible then data != null && fresh(data) && data.Length == length else data == null
      ensures possible && old(data.Length) <= length ==> data[..old(data.Length)] == old(data[..])
    {
      if !possible {
        data := null;
        return;
      }
      var moved := new byte[length];
      MemCpy(moved, 0, if data.Length <= length then data[..] else data[..length]);
      assert data.Length <= length ==> moved[..data.Length] == moved[0..data.Length];
      data := moved;
    }

    /** `auks_buffer_pack_data`.  For a size at which the expansion neither covers the data nor fails, the copy
        would leave the buffer. */
    method PackData(src: seq<byte>) returns (ok: bool)
      requires Valid() && |src| < SIZE_LIMIT
      requires Covers(length, processed, |src|) || Wraps(length, |src|)
      modifies this, data
      ensures ok <==> Covers(old(length), old(processed), |src|)
      ensures |src| < 0x8000_0000 ==> ok
      ensures if ok then Valid() && (data == old(data) || fresh(data)) else data == null && processed == old(processed)
      ensures ok ==> Bytes() == old(Bytes()) + src && processed == old(processed) + |src|
      ensures ok ==> length == old(length) || length <= 2 * processed + 1022
      ensures ok ==> length == LengthFor(old(length), old(processed), |src|)
    {
      hide Growth, Covers, Grown, Wraps, Quotient;
      GrowthCovers(|src|);
      CoversMeans(length, processed, |src|);
      if |src| < 0x8000_0000 { SmallCovered(length, processed, |src|); }
      ok := Expand(|src|);
      if ok {
        assert data[..processed] == data[..old(length)][..processed];
        Append(src);
      }
    }

    /** The copy into a buffer with room for it. */
    method Append(src: seq<byte>)
      requires Valid() && processed + |src| <= length
      modifies this`processed, data
      ensures Valid() && Bytes() == old(Bytes()) + src && processed == old(processed) + |src|
    {
      MemCpy(data, processed, src);
      assert data[..processed + |src|] == data[..processed] + data[processed..processed + |src|];
      processed := processed + |src|;
    }

    /** `auks_buffer_pack_int` */
    method PackInt(i: Int32)
      requires Valid()
      modifies this, data
      ensures Valid() && (data == old(data) || fresh(data))
      ensures Bytes() == old(Bytes()) + IntBytes(i) && processed == old(processed) + 4
      ensures length == old(length) || length <= 2 * processed + 1022
      ensures length == LengthFor(old(length), old(processed), 4)
    {
      hide Covers, Grown, Wraps, Growth, SwapBytes, BigEndian, InMemory;
      SmallCovered(length, processed, 4);
      var ni := SwapBytes(ToUint32(i));
      HostBytes(ToUint32(i), [0, 0, 0, 0]);
      var _ := PackData(InMemory(ni));
    }

    /** `auks_buffer_pack_uid` */
    method PackUid(u: Uid)
      requires Valid()
      modifies this, data
      ensures Valid() && (data == old(data) || fresh(data))
      ensures Bytes() == old(Bytes()) + BigEndian(u) && processed == old(processed) + 4
      ensures length == old(length) || length <= 2 * processed + 1022
      ensures length == LengthFor(old(length), old(processed), 4)
    {
      PackInt(ToInt32(u));
    }

    /** `auks_buffer_unpack_data`; `None` is the failure.  A size that makes the sum of the test wrap around would
        pass it. */
    method UnpackData(size: nat) returns (r: Option<seq<byte>>)
      requires Valid() && (size < SIZE_LIMIT / 2 || processed + size < SIZE_LIMIT)
      modifies `processed
      ensures Valid()
      ensures if old(processed) + size <= length
        then r == Some(data[old(processed)..old(processed) + size]) && processed == old(processed) + size
        else r == None && processed == old(processed)
    {
      if processed + size <= length {
        r := Some(data[processed..processed + size]);
        processed := processed + size;
      } else {
        r := None;
      }
    }

    /** `auks_buffer_unpack_int` */
    method UnpackInt() returns (r: Option<Int32>)
      requires Valid()
      modifies `processed
      ensures Valid()
      ensures if old(processed) + 4 <= length
        then r == Some(BytesInt(data[old(processed)..old(processed) + 4])) && processed == old(processed) + 4
        else r == None && processed == old(processed)
    {
      hide FromMemory, FromBigEndian, SwapBytes, BigEndian, InMemory;
      if processed + 4 <= length {
        var ni := FromMemory(data[processed..processed + 4]);
        HostBytes(0, data[processed..processed + 4]);
        r := Some(ToInt32(SwapBytes(ni)));
        processed := processed + 4;
      } else {
        r := None;
      }
    }

    /** `auks_buffer_unpack_uid` */
    method UnpackUid() returns (r: Option<Uid>)
      requires Valid()
      modifies `processed
      ensures Valid()
      ensures if old(processed) + 4 <= length
        then r == Some(FromBigEndian(data[old(processed)..old(processed) + 4])) && processed == old(processed) + 4
        else r == None && processed == old(processed)
    {
      var i := UnpackInt();
      r := if i.Some? then Some(ToUint32(i.value)) else None;
    }

    /** `auks_buffer_free_contents` */
    method FreeContents()
      modifies this
      ensures data == null && length == 0 && processed == 0
    {
      length, processed, data := 0, 0, null;
    }
  }

  /** The bytes of a message: the type, then the length and the body unless the body is empty or missing. */
  function MessageBytes(ty: Int32, body: Option<seq<byte>>): seq<byte> {
    IntBytes(ty) + if body.Some? && body.value != [] then IntBytes(CastInt(|body.value|)) + body.value else []
  }

  class Message {
    var ty: Int32
    var buffer: Buffer

    ghost predicate Valid() reads this, buffer, buffer.data { buffer.Valid() }

    /** `auks_message_init`; `None` is a NULL body.  An empty body is not even given a length. */
    constructor (ty: Int32, body: Option<seq<byte>>)
      requires body.Some? ==> 4 + |body.value| < 0x8000_0000 || (4 + |body.value| < SIZE_LIMIT && InitFails(4 + |body.value|))
      ensures this.ty == ty && fresh(buffer)
      ensures if body.Some? && 4 + |body.value| >= 0x8000_0000 then buffer.data == null
              else Valid() && fresh(buffer.data) && buffer.Bytes() == MessageBytes(ty, body)
    {
      var size := if body.Some? then |body.value| else 0;
      this.ty := ty;
      buffer := new Buffer(4 + size);
      hide Covers, Grown, Wraps, Growth, InitialLength, InitFails, IntBytes, CastInt;
      new;
      InitLength(4 + size);
      if buffer.data != null { Fill(body); }
    }

    /** The packing half of `auks_message_init`. */
    method Fill(body: Option<seq<byte>>)
      requires Valid() && buffer.Bytes() == [] && (body.Some? ==> |body.value| < 0x8000_0000)
      modifies buffer, buffer.data
      ensures Valid() && (buffer.data == old(buffer.data) || fresh(buffer.data))
      ensures buffer.Bytes() == MessageBytes(ty, body)
    {
      hide Covers, Grown, Wraps, Growth, IntBytes, CastInt;
      buffer.PackInt(ty);
      if body.Some? && body.value != [] {
        buffer.PackInt(CastInt(|body.value|));
        SmallCovered(buffer.length, buffer.processed, |body.value|);
        var _ := buffer.PackData(body.value);
      }
    }

    /** `auks_message_load`.  Any buffer that was loaded holds at least a block, so there always is a type. */
    constructor Load(src: seq<byte>)
      requires |src| < SIZE_LIMIT && (|src| < 0x8000_0000 || InitFails(|src|))
      ensures fresh(buffer) && buffer.length == InitialLength(|src|)
      ensures |src| >= 0x8000_0000 ==> buffer.data == null
      ensures |src| < 0x8000_0000 ==>
        && Valid() && fresh(buffer.data) && buffer.processed == 4
        && buffer.data[..] == Loaded(src) && ty == BytesInt(Loaded(src)[..4])
    {
      ty := 0;
      buffer := new Buffer.Load(src);
      new;
      GrowthCovers(|src|);
      if buffer.data != null {
        var i := buffer.UnpackInt();
        assert buffer.data[0..4] == buffer.data[..][..4];
        if i.Some? {
          ty := i.value;
        }
      }
    }

    /** `auks_message_marshall` */
    method Marshall() returns (bytes: seq<byte>)
      requires Valid()
      ensures bytes == buffer.Bytes()
    {
      bytes := buffer.data[..buffer.processed];
    }

    /** `auks_message_free_contents` */
    method FreeContents()
      modifies this, buffer
      ensures ty == 0 && buffer.data == null && buffer.length == 0 && buffer.processed == 0
    {
      ty := 0;
      buffer.FreeContents();
    }
  }

  /** A message marshalled and loaded again: the same type, and everything packed after it, then zeros; or nothing,
      when the load fails because of the size. */
  method MarshallLoad(msg: Message) returns (copy: Message)
    requires msg.Valid() && 4 <= msg.buffer.processed < SIZE_LIMIT
    requires msg.buffer.processed < 0x8000_0000 || InitFails(msg.buffer.processed)
    ensures fresh(copy) && (copy.buffer.data == null <==> msg.buffer.processed >= 0x8000_0000)
    ensures copy.buffer.data != null ==>
      && copy.Valid() && copy.buffer.processed == 4 && IntBytes(copy.ty) == msg.buffer.Bytes()[..4]
      && msg.buffer.processed <= copy.buffer.length
      && copy.buffer.data[..] == msg.buffer.Bytes() + Zeros(copy.buffer.length - msg.buffer.processed)
  {
    hide BytesInt, IntBytes, InitFails;
    var bytes := msg.Marshall();
    copy := new Message.Load(bytes);
    IntRoundTrip(0, bytes[..4]);
    if |bytes| < 0x8000_0000 {
      assert Loaded(bytes)[..4] == bytes[..4];
    }
  }

  /** What a loaded message says of the one that was built: its type, its length (zero for a body that is
      empty or missing) and its body.  One of 2^31 bytes or more cannot be loaded whole. */
  lemma {:induction false} MessageRoundTrip(ty: Int32, body: Option<seq<byte>>)
    requires body.Some? ==> 8 + |body.value| < SIZE_LIMIT
    ensures var bytes, n := MessageBytes(ty, body), if body.Some? then |body.value| else 0;
      && |bytes| == (if n == 0 then 4 else 8 + n)
      && if |bytes| < 0x8000_0000 then
           var m := Loaded(bytes);
           && BytesInt(m[..4]) == ty && BytesInt(m[4..8]) == n
           && 8 + n <= |m| && (body.Some? ==> m[8..8 + n] == body.value)
         else InitFails(|bytes|) || InitialLength(|bytes|) < |bytes|
  {
    hide Growth, InitFails, InitialLength, BytesInt, IntBytes, Loaded;
    var bytes := MessageBytes(ty, body);
    if |bytes| < 0x8000_0000 { SmallRoundTrip(ty, body); } else { LargeInit(|bytes|); }
  }

  lemma {:induction false} SmallRoundTrip(ty: Int32, body: Option<seq<byte>>)
    requires |MessageBytes(ty, body)| < 0x8000_0000
    ensures var m, n := Loaded(MessageBytes(ty, body)), if body.Some? then |body.value| else 0;
      && BytesInt(m[..4]) == ty && BytesInt(m[4..8]) == n
      && 8 + n <= |m| && (body.Some? ==> m[8..8 + n] == body.value)
  {
    hide BytesInt, IntBytes, Growth;
    var bytes, n := MessageBytes(ty, body), if body.Some? then |body.value| else 0;
    GrowthCovers(|bytes|);
    var m := Loaded(bytes);
    IntRoundTrip(ty, IntBytes(ty));
    assert m[..4] == IntBytes(ty);
    if n > 0 {
      SmallCast(n);
      IntRoundTrip(n, IntBytes(n));
      assert m[4..8] == IntBytes(n) && m[8..8 + n] == body.value;
    } else {
      assert m[4..8] == Zeros(4);
      ZeroInt(m[4..8]);
      assert m[8..8] == [];
    }
  }

  // ---------- in numbers ----------

  /** The capacity of a new buffer for less than 2^31 bytes, and what a loaded one holds. */
  lemma {:induction false} InitMeaning(size: nat, data: seq<byte>)
    requires size < 2147483648 && |data| == size
    ensures !InitFails(size)
    ensures if size <= 1024 then InitialLength(size) == 1024
            else size + 1024 <= InitialLength(size) < size + 2048 && InitialLength(size) % 1024 == 0
    ensures |Loaded(data)| == InitialLength(size) && Loaded(data)[..size] == data
    ensures forall i :: size <= i < |Loaded(data)| ==> Loaded(data)[i] == 0
  {
    GrowthCovers(size);
  }

  /** When the initialisation for 2^31 bytes or more fails: the cast makes the size negative, by 2048 or by 3072 and
      more. */
  lemma {:induction false} InitFailsExactly(size: nat)
    requires 2147483648 <= size < 18446744073709551616
    ensures InitFails(size) <==> var back := 4294967296 - size % 4294967296; back <= 2147483648 && (back == 2048 || back >= 3072)
  {
    var low := size % 4294967296;
    assert size % 1024 == low % 1024 by {
      assert size == size / 4294967296 * 4194304 * 1024 + low;
      Rest(size / 4294967296 * 4194304, low);
    }
  }

  lemma {:induction false} Rest(q: nat, r: nat)
    ensures (q * 1024 + r) % 1024 == r % 1024
  {
  }

  lemma {:induction false} SmallCast(n: nat)
    requires n < 0x8000_0000
    ensures CastInt(n) == n
  {
  }

  lemma {:induction false} ZeroInt(s: seq<byte>)
    requires |s| == 4
    ensures BytesInt(s) == 0 <==> s == Zeros(4)
  {
    ZeroBytes();
    hide BytesInt, IntBytes;
    IntRoundTrip(0, s);
  }

  lemma {:induction false} ZeroBytes()
    ensures IntBytes(0) == Zeros(4)
  {
  }
}
