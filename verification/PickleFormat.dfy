/**
 The byte format of a `Pickle` payload as values: what each typed write appends,
 what each typed read takes, and that the second undoes the first.
 */
module PickleFormat {
  import opened Bits
  import opened Wrappers

  // ---------------------------------------------------------------- writing

  /** One typed write with its argument. Floating-point values are given by their bits. */
  datatype Value =
    | Bool(b: bool)
    | Int(i: Int32)
    | Long(l: Int64)
    | UInt16(h: Uint16)
    | UInt32(w: Uint32)
    | Int64(q: Int64)
    | UInt64(u: Uint64)
    | Float(single: Uint32)
    | Double(double: Uint64)
    | String(text: seq<Byte>)
    | String16(units: seq<Uint16>)
    | Data(blob: seq<Byte>)
    | Bytes(raw: seq<Byte>)

  function Zeros(n: nat): (z: seq<Byte>)
    ensures |z| == n
  { seq(n, _ => 0) }

  function Align4(n: nat): nat { (n + 3) / 4 * 4 }

  /** A field as it lies in the payload: its bytes and zeros up to the next multiple of four. */
  function Padded(field: seq<Byte>): (p: seq<Byte>)
    ensures |p| == Align4(|field|)
  { field + Zeros(Align4(|field|) - |field|) }

  function Units(u: seq<Uint16>): (b: seq<Byte>)
    ensures |b| == 2 * |u|
  { if u == [] then [] else ToBytes(u[0], 2) + Units(u[1..]) }

  /** The length prefix and the pointed-to bytes fit an `int`. */
  predicate Writable(v: Value) {
    match v
    case String(s) => |s| < INT32_LIMIT
    case String16(u) => 2 * |u| < INT32_LIMIT
    case Data(d) => |d| < INT32_LIMIT
    case Bytes(d) => |d| < INT32_LIMIT
    case _ => true
  }

  // Two's complement.
  function Signed32(i: Int32): seq<Byte> { ToBytes(if i < 0 then i + UINT32_LIMIT else i, 4) }
  function Signed64(i: Int64): seq<Byte> { ToBytes(if i < 0 then i + SIZE_LIMIT else i, 8) }

  /** What a typed write appends to the payload. */
  function Encoded(v: Value): seq<Byte>
    requires Writable(v)
  {
    match v
    case Bool(b) => Padded(Signed32(if b then 1 else 0))
    case Int(i) => Padded(Signed32(i))
    case Long(l) => Padded(Signed64(l))
    case UInt16(h) => Padded(ToBytes(h, 2))
    case UInt32(w) => Padded(ToBytes(w, 4))
    case Int64(q) => Padded(Signed64(q))
    case UInt64(u) => Padded(ToBytes(u, 8))
    case Float(single) => Padded(ToBytes(single, 4))
    case Double(double) => Padded(ToBytes(double, 8))
    case String(s) => Padded(Signed32(|s|)) + Padded(s)
    case String16(u) => Padded(Signed32(|u|)) + Padded(Units(u))
    case Data(d) => Padded(Signed32(|d|)) + Padded(d)
    case Bytes(d) => Padded(d)
  }

  predicate AllWritable(vs: seq<Value>) { forall v :: v in vs ==> Writable(v) }

  /** The canonical payload of a sequence of writes. */
  function Payload(vs: seq<Value>): seq<Byte>
    requires AllWritable(vs)
  { if vs == [] then [] else Encoded(vs[0]) + Payload(vs[1..]) }

  // ---------------------------------------------------------------- reading

  /**
   A `PickleIterator`: the payload, the offset of the next byte to read, and whether the
   payload pointer is not null (it is null for a pickle whose data was refused).
   */
  datatype Cursor = Cursor(payload: seq<Byte>, index: nat, mapped: bool)

  ghost predicate InBounds(c: Cursor) { c.index <= |c.payload| }

  function AtEnd(c: Cursor): Cursor { c.(index := |c.payload|) }

  function Left(c: Cursor): nat
    requires InBounds(c)
  { |c.payload| - c.index }

  function Advanced(c: Cursor, size: nat): Cursor
    requires InBounds(c)
  { if Left(c) < Align4(size) then AtEnd(c) else c.(index := c.index + Align4(size)) }

  datatype Taken<T> = Taken(result: Option<T>, rest: Cursor)

  /** `GetReadPointerAndAdvance`: the next `n` bytes, or nothing and the cursor moves to the end. */
  function Take(c: Cursor, n: int): (t: Taken<seq<Byte>>)
    requires InBounds(c)
    ensures InBounds(t.rest) && t.rest.payload == c.payload
    ensures t.result.Some? <==> 0 <= n <= Left(c) && c.mapped
    ensures t.result.Some? ==> t.result.value == c.payload[c.index..c.index + n]
    ensures c.index <= t.rest.index && (n < 0 || Left(c) < n ==> t.rest.index == |c.payload|)
  {
    if n < 0 || Left(c) < n then Taken(None, AtEnd(c))
    else if !c.mapped then Taken(None, Advanced(c, n))
    else Taken(Some(c.payload[c.index..c.index + n]), Advanced(c, n))
  }

  /** The two-argument overload: a product that does not fit an `int` leaves the cursor alone. */
  function TakeElements(c: Cursor, n: int, size: nat): (t: Taken<seq<Byte>>)
    requires InBounds(c)
    ensures InBounds(t.rest) && t.rest.payload == c.payload && c.index <= t.rest.index
    ensures t.result.Some? <==> 0 <= n * size < INT32_LIMIT && n * size <= Left(c) && c.mapped
    ensures t.result.Some? ==> |t.result.value| == n * size && t.result.value <= c.payload[c.index..]
    ensures !(0 <= n * size < INT32_LIMIT) ==> t == Taken(None, c)
  {
    if 0 <= n * size < INT32_LIMIT then Take(c, n * size) else Taken(None, c)
  }

  /** The type a reader asks for; `BytesOf` carries the length the caller passes. */
  datatype Kind =
    | ABool | AnInt | ALong | AUInt16 | AUInt32 | AnInt64 | AUInt64 | AFloat | ADouble
    | AString | AString16 | AData | BytesOf(length: int)

  function KindOf(v: Value): Kind {
    match v
    case Bool(_) => ABool
    case Int(_) => AnInt
    case Long(_) => ALong
    case UInt16(_) => AUInt16
    case UInt32(_) => AUInt32
    case Int64(_) => AnInt64
    case UInt64(_) => AUInt64
    case Float(_) => AFloat
    case Double(_) => ADouble
    case String(_) => AString
    case String16(_) => AString16
    case Data(_) => AData
    case Bytes(d) => BytesOf(|d|)
  }

  function Signed32Of(b: seq<Byte>): Int32
    requires |b| == 4
  {
    Widths();
    var v := FromBytes(b);
    if v < INT32_LIMIT then v else v - UINT32_LIMIT
  }

  function Signed64Of(b: seq<Byte>): Int64
    requires |b| == 8
  {
    Widths();
    var v := FromBytes(b);
    if v < INT64_LIMIT then v else v - SIZE_LIMIT
  }

  function UnitsOf(b: seq<Byte>): (u: seq<Uint16>)
    requires |b| % 2 == 0
    ensures 2 * |u| == |b|
  {
    if b == [] then [] else Widths(); [FromBytes(b[..2])] + UnitsOf(b[2..])
  }

  /** `sizeof` of the fixed-size types; a bool is read as one byte although four were written. */
  function Width(k: Kind): nat {
    match k
    case ABool => 1
    case AUInt16 => 2
    case AnInt => 4
    case AUInt32 => 4
    case AFloat => 4
    case _ => 8
  }

  predicate IsFixed(k: Kind) {
    !k.AString? && !k.AString16? && !k.AData? && !k.BytesOf?
  }

  function Decoded(k: Kind, b: seq<Byte>): Value
    requires IsFixed(k) && |b| == Width(k)
  {
    Widths();
    match k
    case ABool => Bool(b[0] != 0)
    case AnInt => Int(Signed32Of(b))
    case ALong => Long(Signed64Of(b))
    case AUInt16 => UInt16(FromBytes(b))
    case AUInt32 => UInt32(FromBytes(b))
    case AnInt64 => Int64(Signed64Of(b))
    case AUInt64 => UInt64(FromBytes(b))
    case AFloat => Float(FromBytes(b))
    case ADouble => Double(FromBytes(b))
  }

  function TakeInt(c: Cursor): (t: Taken<Int32>)
    requires InBounds(c)
    ensures InBounds(t.rest) && t.rest.payload == c.payload
  {
    var t := Take(c, 4);
    if t.result.None? then Taken(None, t.rest) else Taken(Some(Signed32Of(t.result.value)), t.rest)
  }

  function ReadFixed(k: Kind, c: Cursor): (t: Taken<Value>)
    requires InBounds(c) && IsFixed(k)
    ensures InBounds(t.rest) && t.rest.payload == c.payload
  {
    var t := Take(c, Width(k));
    if t.result.None? then Taken(None, t.rest) else Taken(Some(Decoded(k, t.result.value)), t.rest)
  }

  lemma Even(n: int, m: int)
    requires m == n * 2
    ensures m % 2 == 0
  {}

  function ReadSized(k: Kind, c: Cursor): (t: Taken<Value>)
    requires InBounds(c) && (k.AString? || k.AString16? || k.AData?)
    ensures InBounds(t.rest) && t.rest.payload == c.payload
  {
    var length := TakeInt(c);
    if length.result.None? then Taken(None, length.rest)
    else
      var t := if k.AString16? then TakeElements(length.rest, length.result.value, 2)
               else Take(length.rest, length.result.value);
      if t.result.None? then Taken(None, t.rest)
      else
        Taken(Some(match k
                   case AString => String(t.result.value)
                   case AString16 => Even(length.result.value, |t.result.value|); String16(UnitsOf(t.result.value))
                   case AData => Data(t.result.value)), t.rest)
  }

  /** One typed read: `ReadBool` to `ReadBytes`. */
  function Read(k: Kind, c: Cursor): (t: Taken<Value>)
    requires InBounds(c)
    ensures InBounds(t.rest) && t.rest.payload == c.payload
  {
    if IsFixed(k) then ReadFixed(k, c)
    else if k.BytesOf? then
      var t := Take(c, k.length);
      if t.result.None? then Taken(None, t.rest) else Taken(Some(Bytes(t.result.value)), t.rest)
    else ReadSized(k, c)
  }

  // ---------------------------------------------------------------- where the bytes lie

  /** A field begins with its bytes, and the rest, less than a word of it, is zero. */
  lemma FieldLayout(field: seq<Byte>)
    ensures |Padded(field)| % 4 == 0 && |field| <= |Padded(field)| < |field| + 4
    ensures field <= Padded(field) && forall i :: |field| <= i < |Padded(field)| ==> Padded(field)[i] == 0
  {}

  /** The number a fixed-size value is written as, in two's complement if it is negative. */
  function NumberOf(v: Value): nat
    requires IsFixed(KindOf(v))
  {
    match v
    case Bool(b) => if b then 1 else 0
    case Int(i) => i % UINT32_LIMIT
    case Long(l) => l % SIZE_LIMIT
    case UInt16(h) => h
    case UInt32(w) => w
    case Int64(q) => q % SIZE_LIMIT
    case UInt64(u) => u
    case Float(single) => single
    case Double(double) => double
  }

  /** The bytes written for it; a bool is written as an int. */
  function WrittenWidth(v: Value): nat { if v.Bool? then 4 else Width(KindOf(v)) }

  /** A fixed-size value lies in the payload with its least significant byte first. */
  lemma FixedLayout(v: Value, i: nat)
    requires IsFixed(KindOf(v)) && i < |Encoded(v)|
    ensures |Encoded(v)| == Align4(WrittenWidth(v))
    ensures Encoded(v)[i] == if i < WrittenWidth(v) then ByteAt(NumberOf(v), i) else 0
  {
    match v
    case Int(n) => assert n % UINT32_LIMIT == if n < 0 then n + UINT32_LIMIT else n;
    case Long(n) => assert n % SIZE_LIMIT == if n < 0 then n + SIZE_LIMIT else n;
    case Int64(n) => assert n % SIZE_LIMIT == if n < 0 then n + SIZE_LIMIT else n;
    case _ =>
  }

  /** Texts and data lie behind a word that counts them: bytes, or 16-bit units. */
  lemma SizedLayout(v: Value, i: nat)
    requires Writable(v) && (v.String? || v.Data?) && i < |Encoded(v)|
    ensures var body := if v.String? then v.text else v.blob;
            && |Encoded(v)| == 4 + Align4(|body|)
            && Encoded(v)[i] == (if i < 4 then ByteAt(|body|, i) else if i < 4 + |body| then body[i - 4] else 0)
  {}

  lemma {:induction false} UnitsAt(u: seq<Uint16>, j: nat)
    requires j < |u|
    ensures Units(u)[2 * j] == ByteAt(u[j], 0) && Units(u)[2 * j + 1] == ByteAt(u[j], 1)
  {
    if j > 0 {
      UnitsAt(u[1..], j - 1);
      assert Units(u)[2 * j] == Units(u[1..])[2 * (j - 1)] && Units(u)[2 * j + 1] == Units(u[1..])[2 * (j - 1) + 1];
    }
  }

  lemma UnitsLayout(v: Value, j: nat)
    requires Writable(v) && v.String16?
    ensures |Encoded(v)| == 4 + Align4(2 * |v.units|)
    ensures j < 4 ==> Encoded(v)[j] == ByteAt(|v.units|, j)
    ensures j < |v.units| ==>
              Encoded(v)[4 + 2 * j] == ByteAt(v.units[j], 0) && Encoded(v)[4 + 2 * j + 1] == ByteAt(v.units[j], 1)
  {
    if j < |v.units| {
      UnitsAt(v.units, j);
      assert Encoded(v)[4 + 2 * j] == Units(v.units)[2 * j] && Encoded(v)[4 + 2 * j + 1] == Units(v.units)[2 * j + 1];
    }
  }

  /** Of any payload: a fixed-size read succeeds exactly if as many bytes are left as the type takes in memory. */
  lemma FixedReadExactly(k: Kind, c: Cursor)
    requires InBounds(c) && IsFixed(k)
    ensures var bytes := if k.ABool? then 1 else if k.AUInt16? then 2
                         else if k.AnInt? || k.AUInt32? || k.AFloat? then 4 else 8;
            && (Read(k, c).result.Some? <==> bytes <= Left(c) && c.mapped)
            && (k.ABool? && Read(k, c).result.Some? ==> Read(k, c).result.value == Bool(c.payload[c.index] != 0))
            && (Read(k, c).rest.index == if bytes <= Left(c) && Align4(bytes) <= Left(c) then c.index + Align4(bytes)
                                         else |c.payload|)
  {}

  // ---------------------------------------------------------------- round trip

  /** The bytes at the cursor begin with `bytes`. */
  ghost predicate Starts(c: Cursor, bytes: seq<Byte>) {
    c.mapped && c.index + |bytes| <= |c.payload| && c.payload[c.index..c.index + |bytes|] == bytes
  }

  lemma StartsConcat(c: Cursor, a: seq<Byte>, b: seq<Byte>)
    requires Starts(c, a + b)
    ensures Starts(c, a) && Starts(c.(index := c.index + |a|), b)
  {
    var s := c.payload[c.index..c.index + |a + b|];
    assert a == s[..|a|] && b == s[|a|..];
  }

  lemma TakePadded(c: Cursor, field: seq<Byte>, n: nat)
    requires Starts(c, Padded(field)) && n <= |field| && Align4(n) == Align4(|field|)
    ensures InBounds(c) && Take(c, n) == Taken(Some(field[..n]), c.(index := c.index + |Padded(field)|))
  {
    assert Padded(field)[..n] == field[..n];
    assert c.payload[c.index..c.index + n] == c.payload[c.index..c.index + |Padded(field)|][..n];
  }

  lemma SignedRoundTrip(i: Int32, j: Int64)
    ensures Signed32Of(Signed32(i)) == i && Signed64Of(Signed64(j)) == j
  {
    Widths();
    BytesRoundTrip(if i < 0 then i + UINT32_LIMIT else i, 4);
    BytesRoundTrip(if j < 0 then j + SIZE_LIMIT else j, 8);
  }

  lemma {:induction false} UnitsRoundTrip(u: seq<Uint16>)
    ensures UnitsOf(Units(u)) == u
  {
    if u != [] {
      UnitsRoundTrip(u[1..]);
      assert Units(u)[..2] == ToBytes(u[0], 2);
      assert Units(u)[2..] == Units(u[1..]);
      assert FromBytes(ToBytes(u[0], 2)) == u[0] by { Widths(); BytesRoundTrip(u[0], 2); }
    }
  }

  /** The bytes of a fixed-size value and their meaning. */
  lemma DecodeFixed(v: Value) returns (field: seq<Byte>)
    requires IsFixed(KindOf(v))
    ensures Encoded(v) == Padded(field) && Width(KindOf(v)) <= |field|
    ensures Align4(Width(KindOf(v))) == Align4(|field|)
    ensures Decoded(KindOf(v), field[..Width(KindOf(v))]) == v
  {
    Widths();
    var k := KindOf(v);
    field :=
      match v
      case Bool(b) => Signed32(if b then 1 else 0)
      case Int(i) => Signed32(i)
      case Long(l) => Signed64(l)
      case UInt16(h) => ToBytes(h, 2)
      case UInt32(w) => ToBytes(w, 4)
      case Int64(q) => Signed64(q)
      case UInt64(u) => ToBytes(u, 8)
      case Float(single) => ToBytes(single, 4)
      case Double(double) => ToBytes(double, 8);
    if !v.Bool? { assert field[..Width(k)] == field; }
    match v
    case Bool(b) => assert field[0] == ByteAt(if b then 1 else 0, 0);
    case Int(i) => SignedRoundTrip(i, 0);
    case Long(l) => SignedRoundTrip(0, l);
    case UInt16(h) => BytesRoundTrip(h, 2);
    case UInt32(w) => BytesRoundTrip(w, 4);
    case Int64(q) => SignedRoundTrip(0, q);
    case UInt64(u) => BytesRoundTrip(u, 8);
    case Float(single) => BytesRoundTrip(single, 4);
    case Double(double) => BytesRoundTrip(double, 8);
    assert Encoded(v) == Padded(field);
  }

  /** Reading the type of `v` where `v` was written yields `v` and stops right behind it. */
  lemma ReadUndoesWrite(v: Value, c: Cursor)
    requires Writable(v) && Starts(c, Encoded(v))
    ensures InBounds(c)
    ensures Read(KindOf(v), c) == Taken(Some(v), c.(index := c.index + |Encoded(v)|))
  {
    if IsFixed(KindOf(v)) {
      var field := DecodeFixed(v);
      TakePadded(c, field, Width(KindOf(v)));
    } else if v.Bytes? {
      TakePadded(c, v.raw, |v.raw|);
      assert v.raw[..|v.raw|] == v.raw;
    } else {
      ReadUndoesSizedWrite(v, c);
    }
  }

  lemma ReadUndoesSizedWrite(v: Value, c: Cursor)
    requires Writable(v) && Starts(c, Encoded(v)) && (v.String? || v.String16? || v.Data?)
    ensures InBounds(c)
    ensures ReadSized(KindOf(v), c) == Taken(Some(v), c.(index := c.index + |Encoded(v)|))
  {
    match v
    case String(text) =>
      TakeSized(c, |text|, text);
      assert |Encoded(v)| == 4 + Align4(|text|);
    case Data(blob) =>
      TakeSized(c, |blob|, blob);
      assert |Encoded(v)| == 4 + Align4(|blob|);
    case String16(units) => ReadUndoesUnits(units, c);
  }

  lemma ReadUndoesUnits(u: seq<Uint16>, c: Cursor)
    requires Writable(String16(u)) && Starts(c, Encoded(String16(u)))
    ensures InBounds(c)
    ensures ReadSized(AString16, c) == Taken(Some(String16(u)), c.(index := c.index + |Encoded(String16(u))|))
  {
    var body, rest := Units(u), c.(index := c.index + 4);
    TakeSized(c, |u|, body);
    TakeTwice(rest, |u|, |body|);
    UnitsRoundTrip(u);
    assert |Encoded(String16(u))| == 4 + Align4(|body|);
  }

  lemma TakeTwice(c: Cursor, n: int, bytes: int)
    requires InBounds(c) && bytes == 2 * n && 0 <= bytes < INT32_LIMIT
    ensures TakeElements(c, n, 2) == Take(c, bytes)
  {
    assert n * 2 == bytes;
  }

  /** A length prefix followed by a body. */
  lemma TakeSized(c: Cursor, n: Int32, body: seq<Byte>)
    requires Starts(c, Padded(Signed32(n)) + Padded(body))
    ensures InBounds(c) && TakeInt(c) == Taken(Some(n), c.(index := c.index + 4))
    ensures InBounds(c.(index := c.index + 4))
    ensures Take(c.(index := c.index + 4), |body|) ==
            Taken(Some(body), c.(index := c.index + 4 + Align4(|body|)))
  {
    StartsConcat(c, Padded(Signed32(n)), Padded(body));
    TakePadded(c, Signed32(n), 4);
    assert Signed32(n)[..4] == Signed32(n);
    SignedRoundTrip(n, 0);
    TakePadded(c.(index := c.index + 4), body, |body|);
    assert body[..|body|] == body;
  }

  function Kinds(vs: seq<Value>): seq<Kind> { seq(|vs|, i requires 0 <= i < |vs| => KindOf(vs[i])) }

  /** Typed reads one after the other; stops at the first that fails. */
  function ReadAll(ks: seq<Kind>, c: Cursor): (t: Taken<seq<Value>>)
    requires InBounds(c)
    ensures InBounds(t.rest) && t.rest.payload == c.payload
    decreases |ks|
  {
    if ks == [] then Taken(Some([]), c)
    else
      var first := Read(ks[0], c);
      if first.result.None? then Taken(None, first.rest)
      else
        var others := ReadAll(ks[1..], first.rest);
        if others.result.None? then Taken(None, others.rest)
        else Taken(Some([first.result.value] + others.result.value), others.rest)
  }

  lemma ReadFirst(v: Value, rest: seq<Byte>, c: Cursor) returns (mid: Cursor)
    requires Writable(v) && Starts(c, Encoded(v) + rest)
    ensures InBounds(c) && Read(KindOf(v), c) == Taken(Some(v), mid)
    ensures Starts(mid, rest) && mid == c.(index := c.index + |Encoded(v)|)
  {
    StartsConcat(c, Encoded(v), rest);
    ReadUndoesWrite(v, c);
    mid := c.(index := c.index + |Encoded(v)|);
  }

  lemma ReadOthers(vs: seq<Value>, c: Cursor, mid: Cursor, end: Cursor)
    requires vs != [] && InBounds(c) && Read(KindOf(vs[0]), c) == Taken(Some(vs[0]), mid)
    requires InBounds(mid) && ReadAll(Kinds(vs[1..]), mid) == Taken(Some(vs[1..]), end)
    ensures ReadAll(Kinds(vs), c) == Taken(Some(vs), end)
  {
    assert Kinds(vs)[1..] == Kinds(vs[1..]);
    assert [vs[0]] + vs[1..] == vs;
  }

  /**
   Round trip over operation sequences: reading the written types in order from the
   canonical payload gives back every value and ends at the payload's end.
   */
  lemma {:induction false} ReadAllUndoesWrites(vs: seq<Value>, c: Cursor)
    requires AllWritable(vs) && Starts(c, Payload(vs))
    ensures InBounds(c)
    ensures ReadAll(Kinds(vs), c) == Taken(Some(vs), c.(index := c.index + |Payload(vs)|))
    decreases |vs|
  {
    if vs == [] {
      assert Kinds(vs) == [];
    } else {
      var mid := ReadFirst(vs[0], Payload(vs[1..]), c);
      ReadAllUndoesWrites(vs[1..], mid);
      ReadOthers(vs, c, mid, mid.(index := mid.index + |Payload(vs[1..])|));
    }
  }
}
