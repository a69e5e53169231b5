/** The wire codec: integers, enumerations, DER-style variable lengths, octet and struct sequences,
    and messages, over a description of their field types. */
module Codec {
  import opened Bytes

  datatype ParseError =
    | InsufficientBytes | UndefinedEnum | UnexpectedFunction | TooManyBytes | ImplCapacityLimit | BadVLength

  datatype Result<+T> = Ok(value: T, rest: seq<Byte>) | Err(error: ParseError)

  const U32_LIMIT: nat := 0x1_0000_0000

  // ---- Variable lengths ----

  /** How many octets follow the first one. */
  function NumValueBytes(value: nat): (n: nat)
    ensures n <= 4
  {
    if value <= 127 then 0
    else if value <= 0xFF then 1
    else if value <= 0xFFFF then 2
    else if value <= 0xFF_FFFF then 3
    else 4
  }

  function EncodeVLength(value: nat): (s: seq<Byte>)
    requires value < U32_LIMIT
    ensures |s| == 1 + NumValueBytes(value)
  {
    var n := NumValueBytes(value);
    if n == 0 then [value] else [0x80 + n] + BigEndian(value, n)
  }

  function ReadVLength(s: seq<Byte>): Result<nat> {
    if s == [] then Err(InsufficientBytes)
    else if s[0] < 0x80 then Ok(s[0], s[1..])
    else
      var count := s[0] - 0x80;
      if count < 1 || count > 4 then Err(BadVLength)
      else if |s| < 1 + count then Err(InsufficientBytes)
      else
        var value := FromBigEndian(s[1..1 + count]);
        if NumValueBytes(value) != count then Err(BadVLength) else Ok(value, s[1 + count..])
  }

  /** The loop form of the reader: shift in one octet at a time. */
  method DecodeVLength(s: seq<Byte>) returns (r: Result<nat>)
    ensures r == ReadVLength(s)
  {
    if s == [] {
      return Err(InsufficientBytes);
    }
    var top := s[0];
    if top < 0x80 {
      return Ok(top, s[1..]);
    }
    var count := top - 0x80;
    if count < 1 || count > 4 {
      return Err(BadVLength);
    }
    var value: nat, i := 0, 0;
    while i < count
      invariant 0 <= i <= count && 1 + i <= |s|
      invariant value == FromBigEndian(s[1..1 + i])
    {
      if |s| == 1 + i {
        return Err(InsufficientBytes);
      }
      assert s[1..2 + i][..i] == s[1..1 + i];
      value := 256 * value + s[1 + i];
      i := i + 1;
    }
    if NumValueBytes(value) != count {
      return Err(BadVLength);
    }
    r := Ok(value, s[1 + count..]);
  }

  lemma Powers()
    ensures Pow256(1) == 0x100 && Pow256(2) == 0x1_0000 && Pow256(3) == 0x100_0000 && Pow256(4) == U32_LIMIT
  {
    assert Pow256(2) == 256 * Pow256(1);
    assert Pow256(3) == 256 * Pow256(2);
    assert Pow256(4) == 256 * Pow256(3);
  }

  lemma VLengthRoundTrip(value: nat, rest: seq<Byte>)
    requires value < U32_LIMIT
    ensures ReadVLength(EncodeVLength(value) + rest) == Ok(value, rest)
  {
    hide BigEndian, FromBigEndian, Pow256;
    var n := NumValueBytes(value);
    var s := EncodeVLength(value) + rest;
    if n > 0 {
      Powers();
      BigEndianRoundTrip(value, n);
      assert s[1..1 + n] == BigEndian(value, n);
    }
    assert s[1 + n..] == rest;
  }

  /** Only the shortest encoding of a length is accepted. */
  lemma VLengthCanonical(s: seq<Byte>)
    requires ReadVLength(s).Ok?
    ensures ReadVLength(s).value < U32_LIMIT
    ensures s == EncodeVLength(ReadVLength(s).value) + ReadVLength(s).rest
  {
    hide BigEndian, FromBigEndian, Pow256;
    if s[0] >= 0x80 {
      var count := s[0] - 0x80;
      Powers();
      BigEndianCanonical(s[1..1 + count]);
      assert s == [s[0]] + s[1..1 + count] + s[1 + count..];
    } else {
      assert s == [s[0]] + s[1..];
    }
  }

  // ---- Field types and values ----

  datatype FieldType =
    | UInt(width: nat)
    | Enum(defined: set<Byte>)
    | Octets
    | Struct(fields: seq<FieldType>)
    | StructSeq(item: FieldType, capacity: nat)

  datatype Value =
    | Num(n: nat)
    | Code(code: Byte)
    | Data(data: seq<Byte>)
    | Record(values: seq<Value>)
    | Items(items: seq<Value>)

  /** v is a value the field can hold: integers in range, enumerations defined, sequences that a
      32-bit length can count and the field has room for. */
  predicate HasType(t: FieldType, v: Value)
    decreases t, 0
  {
    match t
    case UInt(width) => v.Num? && v.n < Pow256(width)
    case Enum(defined) => v.Code? && v.code in defined
    case Octets => v.Data? && |v.data| < U32_LIMIT
    case Struct(fields) => v.Record? && HaveTypes(fields, v.values)
    case StructSeq(item, capacity) => v.Items? && |v.items| < U32_LIMIT && |v.items| <= capacity && AllHaveType(item, v.items)
  }

  predicate HaveTypes(ts: seq<FieldType>, vs: seq<Value>)
    decreases ts
  {
    if ts == [] then vs == [] else vs != [] && HasType(ts[0], vs[0]) && HaveTypes(ts[1..], vs[1..])
  }

  predicate AllHaveType(t: FieldType, vs: seq<Value>)
    decreases t, 1, |vs|
  {
    vs == [] || (HasType(t, vs[0]) && AllHaveType(t, vs[1..]))
  }

  // ---- Writing ----

  function Encode(t: FieldType, v: Value): seq<Byte>
    requires HasType(t, v)
    decreases t, 0
  {
    match t
    case UInt(width) => BigEndian(v.n, width)
    case Enum(_) => [v.code]
    case Octets => EncodeVLength(|v.data|) + v.data
    case Struct(fields) => EncodeFields(fields, v.values)
    case StructSeq(item, _) => EncodeVLength(|v.items|) + EncodeItems(item, v.items)
  }

  function EncodeFields(ts: seq<FieldType>, vs: seq<Value>): seq<Byte>
    requires HaveTypes(ts, vs)
    decreases ts
  {
    if ts == [] then [] else Encode(ts[0], vs[0]) + EncodeFields(ts[1..], vs[1..])
  }

  function EncodeItems(t: FieldType, vs: seq<Value>): seq<Byte>
    requires AllHaveType(t, vs)
    decreases t, 1, |vs|
  {
    if vs == [] then [] else Encode(t, vs[0]) + EncodeItems(t, vs[1..])
  }

  // ---- Reading ----

  function Read(t: FieldType, s: seq<Byte>): Result<Value>
    decreases t, 0
  {
    match t
    case UInt(width) =>
      if |s| < width then Err(InsufficientBytes) else Ok(Num(FromBigEndian(s[..width])), s[width..])
    case Enum(defined) =>
      if s == [] then Err(InsufficientBytes)
      else if s[0] !in defined then Err(UndefinedEnum)
      else Ok(Code(s[0]), s[1..])
    case Octets =>
      (match ReadVLength(s)
       case Err(e) => Err(e)
       case Ok(length, rest) =>
         if |rest| < length then Err(InsufficientBytes) else Ok(Data(rest[..length]), rest[length..]))
    case Struct(fields) =>
      (match ReadFields(fields, s)
       case Err(e) => Err(e)
       case Ok(vs, rest) => Ok(Record(vs), rest))
    case StructSeq(item, capacity) =>
      (match ReadVLength(s)
       case Err(e) => Err(e)
       case Ok(count, rest) =>
         match ReadItems(item, count, capacity, rest)
         case Err(e) => Err(e)
         case Ok(vs, rest') => Ok(Items(vs), rest'))
  }

  function ReadFields(ts: seq<FieldType>, s: seq<Byte>): Result<seq<Value>>
    decreases ts
  {
    if ts == [] then Ok([], s)
    else
      match Read(ts[0], s)
      case Err(e) => Err(e)
      case Ok(v, rest) =>
        match ReadFields(ts[1..], rest)
        case Err(e) => Err(e)
        case Ok(vs, rest') => Ok([v] + vs, rest')
  }

  /** Read `count` items into a field with room for `room` more. */
  function ReadItems(t: FieldType, count: nat, room: nat, s: seq<Byte>): Result<seq<Value>>
    decreases t, 1, count
  {
    if count == 0 then Ok([], s)
    else
      match Read(t, s)
      case Err(e) => Err(e)
      case Ok(v, rest) =>
        if room == 0 then Err(ImplCapacityLimit)
        else
          match ReadItems(t, count - 1, room - 1, rest)
          case Err(e) => Err(e)
          case Ok(vs, rest') => Ok([v] + vs, rest')
  }

  // ---- Reading undoes writing ----

  lemma {:induction false} RoundTrip(t: FieldType, v: Value, rest: seq<Byte>)
    requires HasType(t, v)
    ensures Read(t, Encode(t, v) + rest) == Ok(v, rest)
    decreases t, 0
  {
    hide EncodeVLength, ReadVLength;
    var s := Encode(t, v) + rest;
    match t
    case UInt(width) =>
      BigEndianRoundTrip(v.n, width);
      assert s[..width] == BigEndian(v.n, width) && s[width..] == rest;
    case Enum(_) =>
      assert s[1..] == rest;
    case Octets =>
      var more := v.data + rest;
      assert s == EncodeVLength(|v.data|) + more;
      VLengthRoundTrip(|v.data|, more);
      assert more[..|v.data|] == v.data && more[|v.data|..] == rest;
    case Struct(fields) =>
      RoundTripFields(fields, v.values, rest);
    case StructSeq(item, capacity) =>
      var more := EncodeItems(item, v.items) + rest;
      assert s == EncodeVLength(|v.items|) + more;
      VLengthRoundTrip(|v.items|, more);
      RoundTripItems(item, v.items, capacity, rest);
  }

  lemma {:induction false} RoundTripFields(ts: seq<FieldType>, vs: seq<Value>, rest: seq<Byte>)
    requires HaveTypes(ts, vs)
    ensures ReadFields(ts, EncodeFields(ts, vs) + rest) == Ok(vs, rest)
    decreases ts
  {
    hide Encode, Read;
    if ts == [] {
      assert EncodeFields(ts, vs) + rest == rest;
    } else {
      var more := EncodeFields(ts[1..], vs[1..]) + rest;
      assert EncodeFields(ts, vs) + rest == Encode(ts[0], vs[0]) + more;
      RoundTrip(ts[0], vs[0], more);
      RoundTripFields(ts[1..], vs[1..], rest);
      assert vs == [vs[0]] + vs[1..];
    }
  }

  lemma {:induction false} RoundTripItems(t: FieldType, vs: seq<Value>, room: nat, rest: seq<Byte>)
    requires AllHaveType(t, vs) && |vs| <= room
    ensures ReadItems(t, |vs|, room, EncodeItems(t, vs) + rest) == Ok(vs, rest)
    decreases t, 1, |vs|
  {
    hide Encode, Read;
    if vs == [] {
      assert EncodeItems(t, vs) + rest == rest;
    } else {
      var more := EncodeItems(t, vs[1..]) + rest;
      assert EncodeItems(t, vs) + rest == Encode(t, vs[0]) + more;
      RoundTrip(t, vs[0], more);
      RoundTripItems(t, vs[1..], room - 1, rest);
      assert vs == [vs[0]] + vs[1..];
    }
  }

  // ---- Whatever is accepted is the encoding of what was read ----

  lemma {:induction false} Canonical(t: FieldType, s: seq<Byte>)
    requires Read(t, s).Ok?
    ensures HasType(t, Read(t, s).value)
    ensures s == Encode(t, Read(t, s).value) + Read(t, s).rest
    decreases t, 0
  {
    hide EncodeVLength, ReadVLength;
    match t
    case UInt(width) =>
      BigEndianCanonical(s[..width]);
      assert s == s[..width] + s[width..];
    case Enum(_) =>
      assert s == [s[0]] + s[1..];
    case Octets =>
      VLengthCanonical(s);
      var length, rest := ReadVLength(s).value, ReadVLength(s).rest;
      assert rest == rest[..length] + rest[length..];
    case Struct(fields) =>
      CanonicalFields(fields, s);
    case StructSeq(item, capacity) =>
      VLengthCanonical(s);
      CanonicalItems(item, ReadVLength(s).value, capacity, ReadVLength(s).rest);
  }

  lemma {:induction false} CanonicalFields(ts: seq<FieldType>, s: seq<Byte>)
    requires ReadFields(ts, s).Ok?
    ensures HaveTypes(ts, ReadFields(ts, s).value)
    ensures s == EncodeFields(ts, ReadFields(ts, s).value) + ReadFields(ts, s).rest
    decreases ts
  {
    hide Encode, Read;
    if ts != [] {
      Canonical(ts[0], s);
      CanonicalFields(ts[1..], Read(ts[0], s).rest);
      var vs := ReadFields(ts, s).value;
      assert vs[1..] == ReadFields(ts[1..], Read(ts[0], s).rest).value;
    }
  }

  lemma {:induction false} CanonicalItems(t: FieldType, count: nat, room: nat, s: seq<Byte>)
    requires ReadItems(t, count, room, s).Ok?
    ensures var vs := ReadItems(t, count, room, s).value;
            && |vs| == count <= room && AllHaveType(t, vs)
            && s == EncodeItems(t, vs) + ReadItems(t, count, room, s).rest
    decreases t, 1, count
  {
    hide Encode, Read;
    if count > 0 {
      Canonical(t, s);
      CanonicalItems(t, count - 1, room - 1, Read(t, s).rest);
      var vs := ReadItems(t, count, room, s).value;
      assert vs[1..] == ReadItems(t, count - 1, room - 1, Read(t, s).rest).value;
    }
  }

  // ---- Sizes and writing into a buffer ----

  /** The declared size of a value. */
  function Size(t: FieldType, v: Value): nat
    requires HasType(t, v)
    decreases t, 0
  {
    match t
    case UInt(width) => width
    case Enum(_) => 1
    case Octets => 1 + NumValueBytes(|v.data|) + |v.data|
    case Struct(fields) => SizeOfFields(fields, v.values)
    case StructSeq(item, _) => 1 + NumValueBytes(|v.items|) + SizeOfItems(item, v.items)
  }

  function SizeOfFields(ts: seq<FieldType>, vs: seq<Value>): nat
    requires HaveTypes(ts, vs)
    decreases ts
  {
    if ts == [] then 0 else Size(ts[0], vs[0]) + SizeOfFields(ts[1..], vs[1..])
  }

  function SizeOfItems(t: FieldType, vs: seq<Value>): nat
    requires AllHaveType(t, vs)
    decreases t, 1, |vs|
  {
    if vs == [] then 0 else Size(t, vs[0]) + SizeOfItems(t, vs[1..])
  }

  lemma {:induction false} SizeIsLength(t: FieldType, v: Value)
    requires HasType(t, v)
    ensures Size(t, v) == |Encode(t, v)|
    decreases t, 0
  {
    match t
    case UInt(_) =>
    case Enum(_) =>
    case Octets =>
    case Struct(fields) => SizeOfFieldsIsLength(fields, v.values);
    case StructSeq(item, _) => SizeOfItemsIsLength(item, v.items);
  }

  lemma {:induction false} SizeOfFieldsIsLength(ts: seq<FieldType>, vs: seq<Value>)
    requires HaveTypes(ts, vs)
    ensures SizeOfFields(ts, vs) == |EncodeFields(ts, vs)|
    decreases ts
  {
    if ts != [] {
      SizeIsLength(ts[0], vs[0]);
      SizeOfFieldsIsLength(ts[1..], vs[1..]);
    }
  }

  lemma {:induction false} SizeOfItemsIsLength(t: FieldType, vs: seq<Value>)
    requires AllHaveType(t, vs)
    ensures SizeOfItems(t, vs) == |EncodeItems(t, vs)|
    decreases t, 1, |vs|
  {
    if vs != [] {
      SizeIsLength(t, vs[0]);
      SizeOfItemsIsLength(t, vs[1..]);
    }
  }

  /** What a writer that starts at `at` guarantees: it succeeds exactly when the octets fit, then they
      are in place, and everything before them is untouched. */
  twostate predicate Wrote(dest: array<Byte>, at: nat, octets: seq<Byte>, end: nat, ok: bool)
    reads dest
  {
    && at <= dest.Length
    && (ok <==> at + |octets| <= dest.Length)
    && (ok ==> end == at + |octets| && dest[at..end] == octets)
    && dest[..at] == old(dest[..at])
  }

  method Put(dest: array<Byte>, at: nat, octets: seq<Byte>) returns (end: nat, ok: bool)
    requires at <= dest.Length
    modifies dest
    ensures Wrote(dest, at, octets, end, ok)
  {
    ok := at + |octets| <= dest.Length;
    end := at;
    if ok {
      end := at + |octets|;
      forall k | 0 <= k < |octets| {
        dest[at + k] := octets[k];
      }
    }
  }

  method Write(dest: array<Byte>, at: nat, t: FieldType, v: Value) returns (end: nat, ok: bool)
    requires at <= dest.Length && HasType(t, v)
    modifies dest
    ensures Wrote(dest, at, Encode(t, v), end, ok)
    decreases t, 0
  {
    hide EncodeVLength;
    match t
    case UInt(width) => end, ok := Put(dest, at, BigEndian(v.n, width));
    case Enum(_) => end, ok := Put(dest, at, [v.code]);
    case Octets =>
      end, ok := Put(dest, at, EncodeVLength(|v.data|));
      if ok {
        ghost var mid, first := end, dest[at..end];
        end, ok := Put(dest, end, v.data);
        Joined(dest, at, mid, first);
      }
    case Struct(fields) => end, ok := WriteFields(dest, at, fields, v.values);
    case StructSeq(item, _) =>
      end, ok := Put(dest, at, EncodeVLength(|v.items|));
      if ok {
        ghost var mid, first := end, dest[at..end];
        end, ok := WriteItems(dest, end, item, v.items);
        Joined(dest, at, mid, first);
      }
  }

  /** Octets written earlier survive a write that starts behind them. */
  lemma Joined(dest: array<Byte>, at: nat, mid: nat, first: seq<Byte>)
    requires at <= mid <= dest.Length && dest[..mid][at..] == first
    ensures dest[at..mid] == first
    ensures forall end :: mid <= end <= dest.Length ==> dest[at..end] == first + dest[mid..end]
  {}

  method WriteFields(dest: array<Byte>, at: nat, ts: seq<FieldType>, vs: seq<Value>) returns (end: nat, ok: bool)
    requires at <= dest.Length && HaveTypes(ts, vs)
    modifies dest
    ensures Wrote(dest, at, EncodeFields(ts, vs), end, ok)
    decreases ts
  {
    hide Encode;
    if ts == [] {
      end, ok := at, true;
    } else {
      end, ok := Write(dest, at, ts[0], vs[0]);
      if ok {
        ghost var mid, first := end, dest[at..end];
        end, ok := WriteFields(dest, end, ts[1..], vs[1..]);
        Joined(dest, at, mid, first);
      }
    }
  }

  /** Write one more value behind the octets at..mid. */
  method WriteBehind(dest: array<Byte>, at: nat, mid: nat, t: FieldType, v: Value) returns (end: nat, ok: bool)
    requires at <= mid <= dest.Length && HasType(t, v)
    modifies dest
    ensures dest[..at] == old(dest[..at])
    ensures ok <==> mid + |Encode(t, v)| <= dest.Length
    ensures ok ==> end == mid + |Encode(t, v)| && dest[at..end] == old(dest[at..mid]) + Encode(t, v)
    decreases t, 1, 0
  {
    hide Encode, HasType;
    ghost var front, first := dest[..mid], dest[at..mid];
    assert front[at..] == first;
    end, ok := Write(dest, mid, t, v);
    assert dest[..at] == front[..at];
    if ok {
      Joined(dest, at, mid, first);
    }
  }

  method WriteItems(dest: array<Byte>, at: nat, t: FieldType, vs: seq<Value>) returns (end: nat, ok: bool)
    requires at <= dest.Length && AllHaveType(t, vs)
    modifies dest
    ensures Wrote(dest, at, EncodeItems(t, vs), end, ok)
    decreases t, 1
  {
    hide Encode;
    end, ok := at, true;
    var i := 0;
    while i < |vs|
      invariant 0 <= i <= |vs| && at <= end <= dest.Length
      invariant AllHaveType(t, vs[i..])
      invariant EncodeItems(t, vs) == dest[at..end] + EncodeItems(t, vs[i..])
      invariant dest[..at] == old(dest[..at])
    {
      assert vs[i..][1..] == vs[i + 1..];
      end, ok := WriteBehind(dest, at, end, t, vs[i]);
      if !ok {
        return;
      }
      i := i + 1;
    }
  }

  method CalcSizeOfItems(t: FieldType, vs: seq<Value>) returns (sum: nat)
    requires AllHaveType(t, vs)
    ensures sum == |EncodeItems(t, vs)|
  {
    hide Size, Encode;
    SizeOfItemsIsLength(t, vs);
    sum := 0;
    var i := 0;
    while i < |vs|
      invariant 0 <= i <= |vs| && AllHaveType(t, vs[i..])
      invariant SizeOfItems(t, vs) == sum + SizeOfItems(t, vs[i..])
    {
      assert vs[i..][1..] == vs[i + 1..];
      sum := sum + Size(t, vs[i]);
      i := i + 1;
    }
  }

  function Prepend(items: seq<Value>, r: Result<seq<Value>>): Result<seq<Value>> {
    match r
    case Err(e) => Err(e)
    case Ok(vs, rest) => Ok(items + vs, rest)
  }

  lemma ReadOneMore(t: FieldType, items: seq<Value>, count: nat, room: nat, s: seq<Byte>)
    requires count > 0 && room > 0 && Read(t, s).Ok?
    ensures Prepend(items, ReadItems(t, count, room, s))
         == Prepend(items + [Read(t, s).value], ReadItems(t, count - 1, room - 1, Read(t, s).rest))
  {
    hide Read;
    var more := ReadItems(t, count - 1, room - 1, Read(t, s).rest);
    if more.Ok? {
      assert items + ([Read(t, s).value] + more.value) == items + [Read(t, s).value] + more.value;
    }
  }

  /** The loop form of a struct sequence reader: count down, pushing each item that still fits. */
  method DecodeItems(item: FieldType, capacity: nat, s: seq<Byte>) returns (r: Result<seq<Value>>)
    ensures match r
            case Err(e) => Read(StructSeq(item, capacity), s) == Err(e)
            case Ok(items, rest) => Read(StructSeq(item, capacity), s) == Ok(Items(items), rest)
  {
    var header := DecodeVLength(s);
    if header.Err? {
      return Err(header.error);
    }
    hide ReadVLength;
    var count, rest, items := header.value, header.rest, [];
    ghost var goal := ReadItems(item, count, capacity, rest);
    assert goal.Ok? ==> [] + goal.value == goal.value;
    while count > 0
      invariant 0 <= count && |items| <= capacity
      invariant goal == Prepend(items, ReadItems(item, count, capacity - |items|, rest))
    {
      var one := Read(item, rest);
      if one.Err? {
        return Err(one.error);
      }
      if |items| == capacity {
        return Err(ImplCapacityLimit);
      }
      ReadOneMore(item, items, count, capacity - |items|, rest);
      items, rest, count := items + [one.value], one.rest, count - 1;
    }
    assert items + [] == items;
    r := Ok(items, rest);
  }

  /** Serialise into a buffer of exactly the declared size: the write never runs out of space and
      never leaves any over. */
  method ToBuffer(ts: seq<FieldType>, vs: seq<Value>) returns (buffer: array<Byte>)
    requires HaveTypes(ts, vs)
    ensures fresh(buffer) && buffer[..] == EncodeFields(ts, vs)
  {
    SizeOfFieldsIsLength(ts, vs);
    buffer := new Byte[SizeOfFields(ts, vs)](i => 0);
    var end, ok := WriteFields(buffer, 0, ts, vs);
    assert ok && end == buffer.Length;
    assert buffer[..] == buffer[0..end];
  }

  // ---- Messages ----

  const FUNCTIONS: FieldType := Enum({0x00, 0x01, 0x02, 0x03})

  predicate IsFunction(function_: Byte) { function_ < 4 }

  function EncodeMessage(function_: Byte, ts: seq<FieldType>, vs: seq<Value>): seq<Byte>
    requires HaveTypes(ts, vs)
  {
    [function_] + EncodeFields(ts, vs)
  }

  /** Write a message: it succeeds exactly when its declared size fits behind `at`. */
  method WriteMessage(dest: array<Byte>, at: nat, function_: Byte, ts: seq<FieldType>, vs: seq<Value>)
    returns (end: nat, ok: bool)
    requires at <= dest.Length && HaveTypes(ts, vs)
    modifies dest
    ensures Wrote(dest, at, EncodeMessage(function_, ts, vs), end, ok)
    ensures ok <==> at + 1 + SizeOfFields(ts, vs) <= dest.Length
  {
    hide EncodeFields, SizeOfFields;
    SizeOfFieldsIsLength(ts, vs);
    end, ok := Put(dest, at, [function_]);
    if ok {
      ghost var mid, first := end, dest[at..end];
      end, ok := WriteFields(dest, end, ts, vs);
      Joined(dest, at, mid, first);
    }
  }

  /** A message starts with its function octet and must be consumed to its last octet. */
  function ReadMessage(expected: Byte, ts: seq<FieldType>, s: seq<Byte>): Result<seq<Value>> {
    match Read(FUNCTIONS, s)
    case Err(e) => Err(e)
    case Ok(f, rest) =>
      if f != Code(expected) then Err(UnexpectedFunction)
      else
        match ReadFields(ts, rest)
        case Err(e) => Err(e)
        case Ok(vs, rest') => if rest' == [] then Ok(vs, []) else Err(TooManyBytes)
  }

  /** Read a struct that must fill its input. */
  function ReadAll(ts: seq<FieldType>, s: seq<Byte>): Result<seq<Value>> {
    match ReadFields(ts, s)
    case Err(e) => Err(e)
    case Ok(vs, rest) => if rest == [] then Ok(vs, []) else Err(TooManyBytes)
  }

  /** The codec is a bijection between well-typed messages and accepted octet strings. */
  lemma MessageBijection(function_: Byte, ts: seq<FieldType>, vs: seq<Value>, s: seq<Byte>)
    requires IsFunction(function_)
    ensures ReadMessage(function_, ts, s) == Ok(vs, []) <==> HaveTypes(ts, vs) && s == EncodeMessage(function_, ts, vs)
  {
    hide EncodeFields, ReadFields;
    if HaveTypes(ts, vs) && s == EncodeMessage(function_, ts, vs) {
      assert s[1..] == EncodeFields(ts, vs) + [];
      RoundTripFields(ts, vs, []);
    }
    if ReadMessage(function_, ts, s) == Ok(vs, []) {
      CanonicalFields(ts, s[1..]);
      assert s == [s[0]] + s[1..];
    }
  }

  lemma StructBijection(ts: seq<FieldType>, vs: seq<Value>, s: seq<Byte>)
    ensures ReadAll(ts, s) == Ok(vs, []) <==> HaveTypes(ts, vs) && s == EncodeFields(ts, vs)
  {
    hide EncodeFields, ReadFields;
    if HaveTypes(ts, vs) && s == EncodeFields(ts, vs) {
      assert s == s + [];
      RoundTripFields(ts, vs, []);
    }
    if ReadAll(ts, s) == Ok(vs, []) {
      CanonicalFields(ts, s);
    }
  }
}
