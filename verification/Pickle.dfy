/**
 `Pickle`: a growing byte buffer that starts with a header and holds the payload of
 typed writes behind it. The first four bytes of the buffer are the header's
 `payload_size`, little-endian; bytes behind the payload are whatever the allocator
 left there.
 */
module Pickle {
  import opened Bits
  import opened PickleFormat

  const HEADER_BYTES: nat := 4     // sizeof(Pickle::Header)
  const PAYLOAD_UNIT: nat := 64
  const HEAP_ALIGN: nat := 4096
  const CAPACITY_LIMIT: nat := 0x4_0000_0000  // no operation grows a buffer beyond 16 GiB

  function Max(a: int, b: nat): (m: nat)
    ensures m >= a && m >= b
  { if a >= b then a else b }

  /** The capacity a write that needs `newSize` payload bytes leaves behind. */
  function Grown(capacity: nat, newSize: nat): nat {
    if newSize <= capacity then capacity
    else
      var doubled := capacity * 2;
      var wanted := if doubled > HEAP_ALIGN then Align(doubled, HEAP_ALIGN) - PAYLOAD_UNIT else doubled;
      Align(Max(wanted, newSize), PAYLOAD_UNIT)
  }

  /** Growing suffices, never shrinks, keeps whole payload units and stays far from overflow. */
  lemma GrownIsEnough(capacity: nat, newSize: nat)
    requires capacity % PAYLOAD_UNIT == 0 && capacity < CAPACITY_LIMIT && newSize < UINT32_LIMIT
    ensures Max(capacity, newSize) <= Grown(capacity, newSize) < CAPACITY_LIMIT
    ensures Grown(capacity, newSize) % PAYLOAD_UNIT == 0
  {
    if newSize > capacity {
      AlignRoundsUp(capacity * 2, HEAP_ALIGN);
      var wanted := if capacity * 2 > HEAP_ALIGN then Align(capacity * 2, HEAP_ALIGN) - PAYLOAD_UNIT else capacity * 2;
      AlignRoundsUp(Max(wanted, newSize), PAYLOAD_UNIT);
    }
  }

  /**
   Growing doubles the capacity at least, but for one payload unit, so that appending takes amortised
   constant time; a large capacity leaves room for one unit in whole pages unless more was asked for.
   */
  lemma GrownDoubles(capacity: nat, newSize: nat)
    requires capacity % PAYLOAD_UNIT == 0 && capacity < CAPACITY_LIMIT && capacity < newSize < UINT32_LIMIT
    ensures Grown(capacity, newSize) >= 2 * capacity - PAYLOAD_UNIT
    ensures 2 * capacity <= HEAP_ALIGN ==> Grown(capacity, newSize) >= 2 * capacity
    ensures 2 * capacity > HEAP_ALIGN && newSize <= 2 * capacity - PAYLOAD_UNIT ==>
              (Grown(capacity, newSize) + PAYLOAD_UNIT) % HEAP_ALIGN == 0
    ensures Grown(capacity, newSize) < 2 * capacity + HEAP_ALIGN || Grown(capacity, newSize) < newSize + PAYLOAD_UNIT
  {
    AlignRoundsUp(capacity * 2, HEAP_ALIGN);
    var wanted := if capacity * 2 > HEAP_ALIGN then Align(capacity * 2, HEAP_ALIGN) - PAYLOAD_UNIT else capacity * 2;
    AlignRoundsUp(Max(wanted, newSize), PAYLOAD_UNIT);
    if wanted >= newSize {
      assert wanted % PAYLOAD_UNIT == 0;
      AlignedStays(wanted, Align(wanted, PAYLOAD_UNIT));
    }
  }

  lemma AlignedStays(x: nat, y: nat)
    requires x % PAYLOAD_UNIT == 0 && y % PAYLOAD_UNIT == 0 && x <= y < x + PAYLOAD_UNIT
    ensures x == y
  {}

  /** Bytes `lo` to `write`, then `data`, then zeros: the part of a buffer a write leaves behind. */
  lemma PaddedBehind(s: seq<Byte>, lo: nat, write: nat, data: seq<Byte>)
    requires lo <= write && write + Align4(|data|) <= |s|
    requires forall i :: 0 <= i < |data| ==> s[write + i] == data[i]
    requires forall i :: write + |data| <= i < write + Align4(|data|) ==> s[i] == 0
    ensures s[lo..write + Align4(|data|)] == s[lo..write] + Padded(data)
  {
    assert s[write..write + Align4(|data|)] == Padded(data);
  }

  lemma Associative(a: seq<Byte>, b: seq<Byte>, c: seq<Byte>)
    ensures a + b + c == a + (b + c)
  {}

  class Pickle {
    var headerSize: nat
    var capacity: nat       // capacity_after_header_
    var writeOffset: nat
    var buffer: array<Byte> // what header_ points to

    ghost predicate Shaped()
      reads this
    {
      && HEADER_BYTES <= headerSize <= PAYLOAD_UNIT && headerSize % 4 == 0
      && capacity % PAYLOAD_UNIT == 0 && capacity < CAPACITY_LIMIT
      && buffer.Length == headerSize + capacity
    }

    ghost predicate Valid()
      reads this, buffer
    {
      && Shaped()
      && writeOffset <= capacity && writeOffset < UINT32_LIMIT
      && buffer[..HEADER_BYTES] == ToBytes(writeOffset, HEADER_BYTES)
    }

    ghost function Contents(): seq<Byte>
      requires Valid()
      reads this, buffer
    { buffer[headerSize..headerSize + writeOffset] }

    /** What `data()` and `size()` show to a caller. */
    ghost function Image(): seq<Byte>
      requires Valid()
      reads this, buffer
    { buffer[..headerSize + writeOffset] }

    /** This operation appended `bytes` and kept everything before them. */
    twostate predicate Appended(bytes: seq<Byte>)
      requires old(Valid())
      reads this, buffer
    {
      && Valid()
      && headerSize == old(headerSize)
      && Contents() == old(Contents()) + bytes
      && old(capacity) <= capacity
      && (buffer == old(buffer) || fresh(buffer))
    }

    /** `payload_size()`: the header field as stored. */
    method PayloadSize() returns (n: nat)
      requires Valid()
      ensures n == writeOffset == |Contents()|
    {
      Widths();
      BytesRoundTrip(writeOffset, HEADER_BYTES);
      n := FromBytes(buffer[..HEADER_BYTES]);
    }

    method StorePayloadSize(n: nat)
      requires Shaped() && n < UINT32_LIMIT
      modifies buffer
      ensures buffer[..HEADER_BYTES] == ToBytes(n, HEADER_BYTES)
      ensures forall i :: HEADER_BYTES <= i < buffer.Length ==> buffer[i] == old(buffer[i])
    {
      var bytes := ToBytes(n, HEADER_BYTES);
      forall i | 0 <= i < HEADER_BYTES { buffer[i] := bytes[i]; }
    }

    /** `realloc`: a block of the new size that keeps the common prefix. */
    method Resize(newCapacity: nat)
      requires HEADER_BYTES <= headerSize <= PAYLOAD_UNIT && headerSize % 4 == 0
      requires newCapacity <= CAPACITY_LIMIT - PAYLOAD_UNIT
      modifies this
      ensures capacity == Align(newCapacity, PAYLOAD_UNIT)
      ensures newCapacity <= capacity && Shaped() && fresh(buffer)
      ensures headerSize == old(headerSize) && writeOffset == old(writeOffset)
      ensures forall i :: 0 <= i < old(buffer.Length) && i < buffer.Length ==> buffer[i] == old(buffer[i])
    {
      AlignRoundsUp(newCapacity, PAYLOAD_UNIT);
      capacity := Align(newCapacity, PAYLOAD_UNIT);
      var block := new Byte[headerSize + capacity];
      forall i | 0 <= i < buffer.Length && i < block.Length { block[i] := buffer[i]; }
      buffer := block;
    }

    constructor ()
      ensures Valid() && Contents() == [] && headerSize == HEADER_BYTES && capacity == PAYLOAD_UNIT && fresh(buffer)
    {
      headerSize, capacity, writeOffset := HEADER_BYTES, 0, 0;
      buffer := new Byte[0];
      new;
      AlignRoundsUp(PAYLOAD_UNIT, PAYLOAD_UNIT);
      Resize(PAYLOAD_UNIT);
      StorePayloadSize(0);
    }

    constructor WithHeader(size: nat)
      requires HEADER_BYTES <= size <= PAYLOAD_UNIT
      ensures Valid() && Contents() == [] && headerSize == Align4(size) && capacity == PAYLOAD_UNIT && fresh(buffer)
    {
      headerSize, capacity, writeOffset := Align(size, 4), 0, 0;
      buffer := new Byte[0];
      new;
      AlignRoundsUp(size, 4);
      AlignRoundsUp(PAYLOAD_UNIT, PAYLOAD_UNIT);
      Resize(PAYLOAD_UNIT);
      StorePayloadSize(0);
    }

    /** The growth rule of `ClaimUninitializedBytesInternal`. */
    method Grow(newSize: nat)
      requires Valid() && newSize < UINT32_LIMIT
      modifies this
      ensures Valid() && headerSize == old(headerSize) && writeOffset == old(writeOffset)
      ensures buffer == old(buffer) || fresh(buffer)
      ensures Max(old(capacity), newSize) <= capacity == Grown(old(capacity), newSize)
      ensures forall i :: 0 <= i < headerSize + writeOffset ==> buffer[i] == old(buffer[i])
    {
      GrownIsEnough(capacity, newSize);
      if newSize > capacity {
        var newCapacity := capacity * 2;
        if newCapacity > HEAP_ALIGN {
          AlignRoundsUp(newCapacity, HEAP_ALIGN);
          newCapacity := Align(newCapacity, HEAP_ALIGN) - PAYLOAD_UNIT;
        }
        AlignRoundsUp(Max(newCapacity, newSize), PAYLOAD_UNIT);
        Resize(Max(newCapacity, newSize));
        assert buffer[..HEADER_BYTES] == old(buffer[..HEADER_BYTES]);
      }
    }

    method ClaimUninitializedBytesInternal(length: nat) returns (write: nat)
      requires Valid() && writeOffset + Align4(length) < UINT32_LIMIT
      modifies this, buffer
      ensures Valid() && headerSize == old(headerSize) && (buffer == old(buffer) || fresh(buffer))
      ensures write == headerSize + old(writeOffset) && writeOffset == old(writeOffset) + Align4(length)
      ensures old(capacity) <= capacity
      ensures forall i :: HEADER_BYTES <= i < write ==> buffer[i] == old(buffer[i])
      ensures forall i :: write + length <= i < write + Align4(length) ==> buffer[i] == 0
    {
      var dataLen := Align(length, 4);
      assert dataLen == Align4(length) by { AlignRoundsUp(length, 4); }
      var newSize := writeOffset + dataLen;
      Grow(newSize);
      write := headerSize + writeOffset;
      forall i | write + length <= i < write + dataLen { buffer[i] := 0; }
      StorePayloadSize(newSize);
      writeOffset := newSize;
    }

    method WriteBytesCommon(data: seq<Byte>)
      requires Valid() && writeOffset + Align4(|data|) < UINT32_LIMIT
      modifies this, buffer
      ensures Appended(Padded(data))
    {
      var write := ClaimUninitializedBytesInternal(|data|);
      forall i | 0 <= i < |data| { buffer[write + i] := data[i]; }
      assert buffer[..HEADER_BYTES] == ToBytes(writeOffset, HEADER_BYTES);
      assert buffer[headerSize..write] == old(Contents());
      PaddedBehind(buffer[..], headerSize, write, data);
    }

    /** `ClaimBytes`: like a write of `n` zero bytes. */
    method ClaimBytes(n: nat) returns (write: nat)
      requires Valid() && writeOffset + Align4(n) < UINT32_LIMIT
      modifies this, buffer
      ensures Appended(Zeros(Align4(n))) && write == headerSize + old(writeOffset)
    {
      write := ClaimUninitializedBytesInternal(n);
      forall i | write <= i < write + n { buffer[i] := 0; }
      assert buffer[headerSize..write] == old(Contents());
      PaddedBehind(buffer[..], headerSize, write, Zeros(n));
      assert Padded(Zeros(n)) == Zeros(Align4(n));
    }

    /** The room the 32-bit size limit leaves for writing `v`. */
    ghost predicate Fits(v: Value)
      reads this
    { Writable(v) && writeOffset + |Encoded(v)| < UINT32_LIMIT }

    method WriteInt(value: Int32)
      requires Valid() && Fits(Int(value))
      modifies this, buffer
      ensures Appended(Encoded(Int(value)))
    { WriteBytesCommon(Signed32(value)); }

    method WriteBool(value: bool)
      requires Valid() && Fits(Bool(value))
      modifies this, buffer
      ensures Appended(Encoded(Bool(value)))
    { WriteInt(if value then 1 else 0); }

    method WriteInt64(value: Int64)
      requires Valid() && Fits(Int64(value))
      modifies this, buffer
      ensures Appended(Encoded(Int64(value)))
    { WriteBytesCommon(Signed64(value)); }

    /** A `long` travels as 64 bits on every host. */
    method WriteLong(value: Int64)
      requires Valid() && Fits(Long(value))
      modifies this, buffer
      ensures Appended(Encoded(Long(value)))
    { WriteInt64(value); }

    /** `WritePOD` of an unsigned integer or of the bits of a floating-point number. */
    method WritePod(value: nat, size: nat)
      requires Valid() && size in {2, 4, 8} && value < Pow256(size) && writeOffset + Align4(size) < UINT32_LIMIT
      modifies this, buffer
      ensures Appended(Padded(ToBytes(value, size)))
    { WriteBytesCommon(ToBytes(value, size)); }

    /** Answers false exactly when the caller passes a negative length. */
    method WriteData(data: seq<Byte>, length: int) returns (ok: bool)
      requires Valid() && (length >= 0 ==> length == |data| && Fits(Data(data)))
      modifies this, buffer
      ensures ok <==> length >= 0
      ensures ok ==> Appended(Encoded(Data(data)))
      ensures !ok ==> Appended([])
    {
      if length < 0 {
        assert Contents() + [] == Contents();
        return false;
      }
      WriteSized(length, data);
      return true;
    }

    method WriteString(value: seq<Byte>)
      requires Valid() && Fits(String(value))
      modifies this, buffer
      ensures Appended(Encoded(String(value)))
    { WriteSized(|value|, value); }

    method WriteString16(value: seq<Uint16>)
      requires Valid() && Fits(String16(value))
      modifies this, buffer
      ensures Appended(Encoded(String16(value)))
    { WriteSized(|value|, Units(value)); }

    /** `WriteInt(n)` followed by `WriteBytes(body)`. */
    method WriteSized(n: Int32, body: seq<Byte>)
      requires Valid() && writeOffset + |Padded(Signed32(n)) + Padded(body)| < UINT32_LIMIT
      modifies this, buffer
      ensures Appended(Padded(Signed32(n)) + Padded(body))
    {
      WriteBytesCommon(Signed32(n));
      WriteBytesCommon(body);
      Associative(old(Contents()), Padded(Signed32(n)), Padded(body));
    }

    method Write(v: Value)
      requires Valid() && Fits(v)
      modifies this, buffer
      ensures Appended(Encoded(v))
    {
      Widths();
      match v
      case Bool(b) => WriteBool(b);
      case Int(i) => WriteInt(i);
      case Long(l) => WriteLong(l);
      case UInt16(h) => WritePod(h, 2);
      case UInt32(w) => WritePod(w, 4);
      case Int64(q) => WriteInt64(q);
      case UInt64(u) => WritePod(u, 8);
      case Float(single) => WritePod(single, 4);
      case Double(double) => WritePod(double, 8);
      case String(s) => WriteString(s);
      case String16(u) => WriteString16(u);
      case Data(d) => var _ := WriteData(d, |d|);
      case Bytes(d) => WriteBytesCommon(d);
    }

    /** Any sequence of writes: the payload does not depend on how the buffer grew. */
    method WriteAll(vs: seq<Value>)
      requires Valid() && AllWritable(vs) && writeOffset + |Payload(vs)| < UINT32_LIMIT
      modifies this, buffer
      ensures Appended(Payload(vs))
      decreases |vs|
    {
      if vs == [] {
        assert Contents() + [] == Contents();
      } else {
        Write(vs[0]);
        WriteAll(vs[1..]);
        Associative(old(Contents()), Encoded(vs[0]), Payload(vs[1..]));
      }
    }

    method Reserve(length: nat)
      requires Valid() && writeOffset + Align4(length) < UINT32_LIMIT
      modifies this
      ensures Appended([])
      ensures old(capacity) <= capacity && writeOffset + Align4(length) <= capacity
      ensures writeOffset + Align4(length) <= old(capacity) ==> capacity == old(capacity)
      ensures writeOffset + Align4(length) > old(capacity) ==> capacity > 2 * old(capacity)
      ensures Image() == old(Image())
    {
      var dataLen := Align(length, 4);
      assert dataLen == Align4(length) by { AlignRoundsUp(length, 4); }
      var newSize := writeOffset + dataLen;
      if newSize > capacity {
        Resize(capacity * 2 + newSize);
        assert buffer[..HEADER_BYTES] == old(buffer[..HEADER_BYTES]);
      }
      assert Image() == old(Image());
      assert Contents() == Image()[headerSize..];
      assert Contents() + [] == Contents();
    }

    /** The copy constructor. */
    constructor Copy(other: Pickle)
      requires other.Valid()
      ensures Valid() && fresh(buffer) && headerSize == other.headerSize
      ensures Image() == other.Image() && Contents() == other.Contents()
    {
      headerSize, capacity, writeOffset := other.headerSize, 0, other.writeOffset;
      buffer := new Byte[0];
      new;
      CopyFrom(other);
    }

    /** `Resize` to the other payload and one `memcpy` of header and payload. */
    method CopyFrom(other: Pickle)
      requires other != this && other.Valid() && buffer != other.buffer
      requires headerSize == other.headerSize
      modifies this
      ensures Valid() && fresh(buffer) && headerSize == other.headerSize
      ensures Image() == other.Image() && Contents() == other.Contents()
    {
      var size := other.PayloadSize();
      Resize(size);
      forall i | 0 <= i < headerSize + size { buffer[i] := other.buffer[i]; }
      writeOffset := other.writeOffset;
      assert Image() == other.Image();
      assert buffer[..HEADER_BYTES] == Image()[..HEADER_BYTES];
      assert Contents() == Image()[headerSize..] && other.Contents() == other.Image()[headerSize..];
    }

    /** `operator=`: assigning an object to itself changes nothing. */
    method Assign(other: Pickle)
      requires Valid() && other.Valid() && (other == this || buffer != other.buffer)
      modifies this
      ensures Valid() && (buffer == old(buffer) || fresh(buffer)) && headerSize == old(other.headerSize)
      ensures Image() == old(other.Image()) && Contents() == old(other.Contents())
    {
      if this == other { return; }
      if headerSize != other.headerSize {
        buffer := new Byte[0];
        headerSize := other.headerSize;
      }
      CopyFrom(other);
    }
  }
}
