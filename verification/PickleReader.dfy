/**
 The reading side of `Pickle`: the read-only constructor over foreign bytes, the
 bounds-checked `PickleIterator`, the size predictor `PickleSizer` and the framing
 helpers `PeekNext` and `FindNext`.
 */
module PickleReader {
  import opened Bits
  import opened PickleFormat
  import opened Wrappers
  import Pickle

  // ---------------------------------------------------------------- read-only pickles

  /** Conversion of a size to the constructor's `int` parameter. */
  function AsInt(size: nat): Int32 {
    var low := size % UINT32_LIMIT;
    if low < INT32_LIMIT then low else low - UINT32_LIMIT
  }

  /**
   `Pickle(const char* data, int data_len)`: the deduced header size, or nothing when
   the data is refused. The subtraction is done in 32-bit unsigned arithmetic.
   */
  function Open(data: seq<Byte>, dataLen: Int32): (headerSize: Option<nat>)
    requires dataLen <= |data|
  {
    var deduced := if dataLen >= 4 then (dataLen - FromBytes(data[..4])) % UINT32_LIMIT else 0;
    var capped := if dataLen >= 0 && deduced > dataLen then 0 else deduced;
    var aligned := if capped != Align(capped, 4) then 0 else capped;
    if aligned == 0 then None else Some(aligned)
  }

  /** The iterator over such a pickle; a refused one has no payload at all. */
  function CursorOver(data: seq<Byte>, dataLen: Int32): (c: Cursor)
    requires dataLen <= |data|
    ensures InBounds(c)
  {
    OpenExactly(data, dataLen);
    match Open(data, dataLen)
    case None => Cursor([], 0, false)
    case Some(h) => Cursor(data[h..dataLen], 0, true)
  }

  /**
   Whatever the bytes are, the accepted ones are exactly those whose stored payload size
   leaves a whole number of header words in front of it, so that payload and header
   together are the data.
   */
  lemma OpenExactly(data: seq<Byte>, dataLen: Int32)
    requires dataLen <= |data|
    ensures Open(data, dataLen).Some? <==>
            dataLen >= 4 && FromBytes(data[..4]) < dataLen && (dataLen - FromBytes(data[..4])) % 4 == 0
    ensures forall h :: Open(data, dataLen) == Some(h) ==>
            4 <= h <= dataLen && h % 4 == 0 && h + FromBytes(data[..4]) == dataLen
  {
    Widths();
    if dataLen >= 4 {
      var size := FromBytes(data[..4]);
      assert size < UINT32_LIMIT;
      var deduced := (dataLen - size) % UINT32_LIMIT;
      AlignRoundsUp(deduced, 4);
      if size <= dataLen {
        assert deduced == dataLen - size;
      } else {
        assert deduced == dataLen - size + UINT32_LIMIT;
      }
    }
  }

  /** From refused data no read of any type gives anything, not even one of no bytes. */
  lemma RefusedGivesNothing(data: seq<Byte>, dataLen: Int32, k: Kind)
    requires dataLen <= |data| && Open(data, dataLen).None?
    ensures Read(k, CursorOver(data, dataLen)).result.None?
  {}

  /** A complete pickle image: header with the stored payload size, then the payload of `vs`. */
  ghost predicate IsImage(image: seq<Byte>, headerSize: nat, vs: seq<Value>) {
    && AllWritable(vs)
    && 4 <= headerSize && headerSize % 4 == 0 && headerSize <= |image|
    && |Payload(vs)| < UINT32_LIMIT
    && image[headerSize..] == Payload(vs)
    && image[..4] == ToBytes(|Payload(vs)|, 4)
  }

  lemma ImageOpens(image: seq<Byte>, headerSize: nat, payloadSize: nat)
    requires 4 <= headerSize <= 64 && headerSize % 4 == 0 && |image| == headerSize + payloadSize
    requires payloadSize < UINT32_LIMIT && image[..4] == ToBytes(payloadSize, 4)
    ensures AsInt(|image|) <= |image|
    ensures Open(image, AsInt(|image|)) == if |image| < INT32_LIMIT then Some(headerSize) else None
    ensures |image| < INT32_LIMIT ==> CursorOver(image, AsInt(|image|)) == Cursor(image[headerSize..], 0, true)
  {
    Widths();
    BytesRoundTrip(payloadSize, 4);
    AsIntOf(|image|);
    OpenExactly(image, AsInt(|image|));
  }

  /** Sizes up to a header beyond 2^32: negative, or wrapped to less than a header. */
  lemma AsIntOf(size: nat)
    requires size < UINT32_LIMIT + 64
    ensures AsInt(size) == if size < INT32_LIMIT then size else size - UINT32_LIMIT
  {
    assert size % UINT32_LIMIT == if size < UINT32_LIMIT then size else size - UINT32_LIMIT;
  }

  /**
   End to end. An image opened with its own size is accepted exactly when that size fits
   an `int`; then reading the written types in order succeeds each time, yields the
   written values and ends at the payload's end.
   */
  lemma ImageReadsBack(image: seq<Byte>, headerSize: nat, vs: seq<Value>)
    requires IsImage(image, headerSize, vs) && headerSize <= 64
    ensures AsInt(|image|) <= |image|
    ensures Open(image, AsInt(|image|)) == if |image| < INT32_LIMIT then Some(headerSize) else None
    ensures |image| < INT32_LIMIT ==>
              ReadAll(Kinds(vs), CursorOver(image, AsInt(|image|))) ==
              Taken(Some(vs), Cursor(Payload(vs), |Payload(vs)|, true))
  {
    ImageOpens(image, headerSize, |Payload(vs)|);
    var c := Cursor(Payload(vs), 0, true);
    assert c.payload[0..|Payload(vs)|] == Payload(vs);
    ReadAllUndoesWrites(vs, c);
  }

  // ---------------------------------------------------------------- the iterator

  class PickleIterator {
    const payload: seq<Byte>
    const mapped: bool
    const endIndex: nat
    var readIndex: nat

    ghost predicate Valid()
      reads this
    { endIndex == |payload| && readIndex <= endIndex }

    ghost function Here(): Cursor
      reads this
    { Cursor(payload, readIndex, mapped) }

    constructor (c: Cursor)
      requires InBounds(c)
      ensures Valid() && Here() == c
    {
      payload, mapped, endIndex, readIndex := c.payload, c.mapped, |c.payload|, c.index;
    }

    method Advance(size: nat)
      requires Valid() && size < INT32_LIMIT
      modifies this
      ensures Valid() && Here() == Advanced(old(Here()), size)
    {
      AlignRoundsUp(size, 4);
      var alignedSize := Align(size, 4);
      if endIndex - readIndex < alignedSize { readIndex := endIndex; } else { readIndex := readIndex + alignedSize; }
    }

    /** The bytes under the returned pointer, or nothing for a null pointer. */
    method GetReadPointerAndAdvance(numBytes: Int32) returns (bytes: Option<seq<Byte>>)
      requires Valid()
      modifies this
      ensures Valid() && Taken(bytes, Here()) == Take(old(Here()), numBytes)
    {
      if numBytes < 0 || endIndex - readIndex < numBytes {
        readIndex := endIndex;
        return None;
      }
      bytes := if mapped then Some(payload[readIndex..readIndex + numBytes]) else None;
      Advance(numBytes);
    }

    /** The overload that checks the product of count and element size. */
    method GetElementsAndAdvance(numElements: Int32, size: nat) returns (bytes: Option<seq<Byte>>)
      requires Valid()
      modifies this
      ensures Valid() && Taken(bytes, Here()) == TakeElements(old(Here()), numElements, size)
    {
      if numElements * size < 0 || INT32_LIMIT <= numElements * size { return None; }
      bytes := GetReadPointerAndAdvance(numElements * size);
    }

    method ReadInt() returns (value: Option<Int32>)
      requires Valid()
      modifies this
      ensures Valid() && Taken(value, Here()) == TakeInt(old(Here()))
    {
      var bytes := GetReadPointerAndAdvance(4);
      value := if bytes.None? then None else Some(Signed32Of(bytes.value));
    }

    /** `ReadBuiltinType` for the fixed-size types. */
    method ReadBuiltinType(k: Kind) returns (value: Option<Value>)
      requires Valid() && IsFixed(k)
      modifies this
      ensures Valid() && Taken(value, Here()) == ReadFixed(k, old(Here()))
    {
      var bytes := GetReadPointerAndAdvance(Width(k));
      value := if bytes.None? then None else Some(Decoded(k, bytes.value));
    }

    /** `ReadString`, `ReadString16` and `ReadData`: a length and then that many elements. */
    method ReadSizedType(k: Kind) returns (value: Option<Value>)
      requires Valid() && (k.AString? || k.AString16? || k.AData?)
      modifies this
      ensures Valid() && Taken(value, Here()) == ReadSized(k, old(Here()))
    {
      var length := ReadInt();
      if length.None? { return None; }
      var bytes;
      if k.AString16? {
        bytes := GetElementsAndAdvance(length.value, 2);
      } else {
        bytes := GetReadPointerAndAdvance(length.value);
      }
      if bytes.None? { return None; }
      match k
      case AString => value := Some(String(bytes.value));
      case AString16 => value := Some(String16(UnitsOf(bytes.value)));
      case AData => value := Some(Data(bytes.value));
    }

    method ReadBytes(length: Int32) returns (bytes: Option<seq<Byte>>)
      requires Valid()
      modifies this
      ensures Valid() && Taken(bytes, Here()) == Take(old(Here()), length)
    { bytes := GetReadPointerAndAdvance(length); }

    method Read(k: Kind) returns (value: Option<Value>)
      requires Valid() && (k.BytesOf? ==> -INT32_LIMIT <= k.length < INT32_LIMIT)
      modifies this
      ensures Valid() && Taken(value, Here()) == PickleFormat.Read(k, old(Here()))
    {
      if IsFixed(k) {
        value := ReadBuiltinType(k);
      } else if k.BytesOf? {
        var bytes := ReadBytes(k.length);
        value := if bytes.None? then None else Some(Bytes(bytes.value));
      } else {
        value := ReadSizedType(k);
      }
    }

    /** Typed reads one after the other, up to the first that fails. */
    method ReadTypes(ks: seq<Kind>) returns (values: Option<seq<Value>>)
      requires Valid() && forall k :: k in ks && k.BytesOf? ==> -INT32_LIMIT <= k.length < INT32_LIMIT
      modifies this
      ensures Valid() && Taken(values, Here()) == ReadAll(ks, old(Here()))
      decreases |ks|
    {
      if ks == [] { return Some([]); }
      var first := Read(ks[0]);
      if first.None? { return None; }
      values := ReadTypes(ks[1..]);
      if values.Some? { values := Some([first.value] + values.value); }
    }

    /** `ReadLength`: an int that is not negative. */
    method ReadLength() returns (length: Option<nat>)
      requires Valid()
      modifies this
      ensures Valid() && Here() == TakeInt(old(Here())).rest
      ensures length.Some? <==> TakeInt(old(Here())).result.Some? && TakeInt(old(Here())).result.value >= 0
      ensures length.Some? ==> length.value == TakeInt(old(Here())).result.value
    {
      var value := ReadInt();
      length := if value.Some? && value.value >= 0 then Some(value.value) else None;
    }
  }

  // ---------------------------------------------------------------- the sizer

  class PickleSizer {
    var payloadSize: nat

    constructor ()
      ensures payloadSize == 0
    { payloadSize := 0; }

    method AddBytes(length: nat)
      requires length < INT32_LIMIT
      modifies this
      ensures payloadSize == old(payloadSize) + Align4(length)
    {
      AlignRoundsUp(length, 4);
      payloadSize := payloadSize + Align(length, 4);
    }

    method AddInt()
      modifies this
      ensures payloadSize == old(payloadSize) + 4
    { AddBytes(4); }

    method AddSized(length: nat)
      requires length < INT32_LIMIT
      modifies this
      ensures payloadSize == old(payloadSize) + 4 + Align4(length)
    {
      AddInt();
      AddBytes(length);
    }

    /** The `Add…` call that matches the write of `v`; only lengths are looked at. */
    method Add(v: Value)
      requires Writable(v)
      modifies this
      ensures payloadSize == old(payloadSize) + |Encoded(v)|
    {
      match v
      case Bool(_) => AddInt();
      case Int(_) => AddInt();
      case Long(_) => AddBytes(8);
      case UInt16(_) => AddBytes(2);
      case UInt32(_) => AddBytes(4);
      case Int64(_) => AddBytes(8);
      case UInt64(_) => AddBytes(8);
      case Float(_) => AddBytes(4);
      case Double(_) => AddBytes(8);
      case String(s) => AddSized(|s|);
      case String16(u) => AddSized(|u| * 2);
      case Data(d) => AddSized(|d|);
      case Bytes(d) => AddBytes(|d|);
    }

    /** The prediction for a whole sequence of writes. */
    method AddAll(vs: seq<Value>)
      requires AllWritable(vs)
      modifies this
      ensures payloadSize == old(payloadSize) + |Payload(vs)|
      decreases |vs|
    {
      if vs != [] {
        Add(vs[0]);
        AddAll(vs[1..]);
      }
    }
  }

  // ---------------------------------------------------------------- framing

  /** `PeekNext`: the size of the pickle that starts the range, if its header is there. */
  function PeekNext(headerSize: nat, range: seq<Byte>): (size: Option<nat>)
    requires 4 <= headerSize <= 64 && headerSize % 4 == 0
  {
    if |range| < 4 || |range| < headerSize then None
    else Some(headerSize + FromBytes(range[..4]))
  }

  /** `FindNext`: the offset behind that pickle, if all of it is there. */
  function FindNext(headerSize: nat, range: seq<Byte>): (end: Option<nat>)
    requires 4 <= headerSize <= 64 && headerSize % 4 == 0
  {
    match PeekNext(headerSize, range)
    case None => None
    case Some(size) => if size > |range| then None else Some(size)
  }

  /** Of any bytes: a pickle is found exactly if the header is there and what it says is there too. */
  lemma FindNextExactly(headerSize: nat, range: seq<Byte>)
    requires 4 <= headerSize <= 64 && headerSize % 4 == 0
    ensures PeekNext(headerSize, range) ==
            if headerSize <= |range| then Some(headerSize + FromBytes(range[..4])) else None
    ensures forall e :: FindNext(headerSize, range) == Some(e) <==>
              headerSize <= |range| && e == headerSize + FromBytes(range[..4]) && e <= |range|
  {}

  /**
   Framing of a byte stream: for every prefix of a stream that begins with an image,
   `FindNext` answers the image's end exactly from the moment the image is complete.
   */
  lemma FindNextFindsImage(image: seq<Byte>, headerSize: nat, vs: seq<Value>, rest: seq<Byte>, k: nat)
    requires IsImage(image, headerSize, vs) && headerSize <= 64 && k <= |image + rest|
    ensures FindNext(headerSize, (image + rest)[..k]) == if k < |image| then None else Some(|image|)
  {
    Widths();
    BytesRoundTrip(|Payload(vs)|, 4);
    if 4 <= k { assert (image + rest)[..k][..4] == image[..4]; }
  }

  // ---------------------------------------------------------------- all together

  /** What may happen to a pickle that was started empty. */
  datatype Operation =
    | DoWrite(v: Value)
    | DoReserve(length: nat)
    | DoCopy                  // go on with a deep copy
    | DoAssign(header: nat, room: nat, own: seq<Value>)
      // go on with another pickle it was assigned to, which had contents of its own

  /** The operation keeps to the 32-bit size limit and to legal header sizes. */
  predicate Allowed(op: Operation, used: nat) {
    match op
    case DoWrite(v) => Writable(v) && used + |Encoded(v)| < UINT32_LIMIT
    case DoReserve(n) => used + Align4(n) < UINT32_LIMIT
    case DoCopy => true
    case DoAssign(h, room, own) =>
      4 <= h <= 64 && Align4(room) < UINT32_LIMIT && AllWritable(own) && |Payload(own)| < UINT32_LIMIT
  }

  function Added(op: Operation): seq<Byte>
    requires op.DoWrite? ==> Writable(op.v)
  { if op.DoWrite? then Encoded(op.v) else [] }

  ghost predicate AllAllowed(ops: seq<Operation>, used: nat) {
    ops == [] || (Allowed(ops[0], used) && AllAllowed(ops[1..], used + |Added(ops[0])|))
  }

  function Writes(ops: seq<Operation>): seq<Value> {
    if ops == [] then []
    else (if ops[0].DoWrite? then [ops[0].v] else []) + Writes(ops[1..])
  }

  lemma {:induction false} PayloadOfWrites(ops: seq<Operation>, used: nat)
    requires AllAllowed(ops, used)
    ensures AllWritable(Writes(ops))
    ensures ops != [] ==> AllWritable(Writes(ops[1..])) &&
                          Payload(Writes(ops)) == Added(ops[0]) + Payload(Writes(ops[1..]))
  {
    if ops != [] {
      PayloadOfWrites(ops[1..], used + |Added(ops[0])|);
      if ops[0].DoWrite? {
        assert Writes(ops)[0] == ops[0].v && Writes(ops)[1..] == Writes(ops[1..]);
      } else {
        assert Writes(ops) == Writes(ops[1..]);
      }
    }
  }

  method Perform(start: Pickle.Pickle, op: Operation) returns (next: Pickle.Pickle)
    requires start.Valid() && Allowed(op, start.writeOffset)
    modifies start, start.buffer
    ensures next.Valid() && next.Contents() == old(start.Contents()) + Added(op)
    ensures (next == start || fresh(next)) && (next.buffer == old(start.buffer) || fresh(next.buffer))
  {
    next := start;
    if op.DoWrite? {
      start.Write(op.v);
    } else if op.DoReserve? {
      start.Reserve(op.length);
    } else if op.DoCopy? {
      next := new Pickle.Pickle.Copy(start);
    } else {
      next := new Pickle.Pickle.WithHeader(op.header);
      next.Reserve(op.room);
      next.WriteAll(op.own);
      next.Assign(start);
    }
    assert !op.DoWrite? ==> next.Contents() + [] == next.Contents();
  }

  /**
   The payload is canonical: whatever mix of writes, reservations, copies and assignments
   a pickle went through, its payload is the one the writes alone determine.
   */
  method Replay(start: Pickle.Pickle, ops: seq<Operation>) returns (end: Pickle.Pickle)
    requires start.Valid() && AllAllowed(ops, start.writeOffset)
    modifies start, start.buffer
    ensures AllWritable(Writes(ops)) && end.Valid()
    ensures end.Contents() == old(start.Contents()) + Payload(Writes(ops))
    decreases |ops|
  {
    PayloadOfWrites(ops, start.writeOffset);
    if ops == [] {
      assert start.Contents() + [] == start.Contents();
      return start;
    }
    var next := Perform(start, ops[0]);
    end := Replay(next, ops[1..]);
    Pickle.Associative(old(start.Contents()), Added(ops[0]), Payload(Writes(ops[1..])));
  }

  lemma {:induction false} PayloadWords(vs: seq<Value>) returns (words: nat)
    requires AllWritable(vs)
    ensures |Payload(vs)| == 4 * words
    decreases |vs|
  {
    if vs == [] { return 0; }
    var first := EncodedWords(vs[0]);
    var rest := PayloadWords(vs[1..]);
    words := first + rest;
  }

  lemma EncodedWords(v: Value) returns (words: nat)
    requires Writable(v)
    ensures |Encoded(v)| == 4 * words
  {
    match v
    case String(s) => words := AlignedWords(|s|); words := words + 1;
    case String16(u) => words := AlignedWords(2 * |u|); words := words + 1;
    case Data(d) => words := AlignedWords(|d|); words := words + 1;
    case Bytes(d) => words := AlignedWords(|d|);
    case UInt16(_) => words := 1;
    case Bool(_) => words := 1;
    case Int(_) => words := 1;
    case UInt32(_) => words := 1;
    case Float(_) => words := 1;
    case _ => words := 2;
  }

  lemma AlignedWords(n: nat) returns (words: nat)
    ensures Align4(n) == 4 * words
  {
    words := (n + 3) / 4;
  }

  lemma WholeWords(size: nat, words: nat)
    requires size == 4 * words
    ensures Align4(size) == size
  {}

  /** The image of a pickle after the predicted room was reserved and `vs` was written. */
  method WriteImage(vs: seq<Value>) returns (image: seq<Byte>, predicted: nat)
    requires AllWritable(vs) && |Payload(vs)| < UINT32_LIMIT
    ensures IsImage(image, 4, vs) && |image| == 4 + predicted
  {
    ghost var words := PayloadWords(vs);
    WholeWords(|Payload(vs)|, words);
    var sizer := new PickleSizer();
    sizer.AddAll(vs);
    predicted := sizer.payloadSize;
    var pickle := new Pickle.Pickle();
    pickle.Reserve(predicted);
    pickle.WriteAll(vs);
    assert pickle.Contents() == Payload(vs);
    image := DataOf(pickle);
  }

  /** `data()` and `size()` of a pickle. */
  method DataOf(pickle: Pickle.Pickle) returns (image: seq<Byte>)
    requires pickle.Valid() && pickle.writeOffset < UINT32_LIMIT
    ensures |image| == pickle.headerSize + |pickle.Contents()| && image[pickle.headerSize..] == pickle.Contents()
    ensures image[..4] == ToBytes(|pickle.Contents()|, 4)
  {
    var size := pickle.PayloadSize();
    image := pickle.buffer[..pickle.headerSize + size];
    assert image[..4] == pickle.buffer[..4];
    assert image[pickle.headerSize..] == pickle.Contents();
  }

  /** There are writable values whose image does not fit. */
  lemma LargePayload() returns (vs: seq<Value>)
    ensures AllWritable(vs) && INT32_LIMIT <= 4 + |Payload(vs)| && |Payload(vs)| < UINT32_LIMIT
  {
    var half := Bytes(PickleFormat.Zeros(0x4000_0000));
    vs := [half, half];
    assert vs[1..] == [half] && [half][1..] == [];
    assert |Encoded(half)| == 0x4000_0000;
    assert Payload([half]) == Encoded(half) + [] && Payload(vs) == Encoded(half) + Payload([half]);
  }

  /** From a refused pickle not even the first value can be read. */
  lemma RefusedReadsNothing(ks: seq<Kind>)
    requires ks != []
    ensures ReadAll(ks, Cursor([], 0, false)).result.None?
  {
    assert Read(ks[0], Cursor([], 0, false)).result.None?;
  }

  /**
   Writing `vs`, up to the writer's own limit, and reading the same types from the image
   of the written pickle: the values come back, and the reader is at the end, exactly if
   there are none or the image's size fits an `int`.
   */
  method WriteThenRead(vs: seq<Value>) returns (values: Option<seq<Value>>, predicted: nat, atEnd: bool)
    requires AllWritable(vs) && |Payload(vs)| < UINT32_LIMIT
    ensures predicted == |Payload(vs)|
    ensures values == Some(vs) && atEnd <==> vs == [] || 4 + |Payload(vs)| < INT32_LIMIT
    ensures values.None? || values == Some(vs)
  {
    var image;
    image, predicted := WriteImage(vs);
    ImageReadsBack(image, 4, vs);
    var reader := new PickleIterator(CursorOver(image, AsInt(|image|)));
    KindsAreInts(vs);
    if vs != [] { RefusedReadsNothing(Kinds(vs)); }
    values := reader.ReadTypes(Kinds(vs));
    atEnd := reader.readIndex == reader.endIndex;
  }

  lemma KindsAreInts(vs: seq<Value>)
    requires AllWritable(vs)
    ensures forall k :: k in Kinds(vs) && k.BytesOf? ==> -INT32_LIMIT <= k.length < INT32_LIMIT
  {
    forall k | k in Kinds(vs) && k.BytesOf? ensures -INT32_LIMIT <= k.length < INT32_LIMIT {
      var i :| 0 <= i < |vs| && Kinds(vs)[i] == k;
      assert vs[i] in vs;
    }
  }
}
