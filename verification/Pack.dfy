/** Writing a `@repr(C)` value out as the bytes its layout describes, and reading
    them back (interp/pack.py). */
module Pack {
  import opened Layout

  type byte = n: nat | n < 256
  type Bytes = seq<byte>

  /** A value as `pack_value` sees it, units and wrappers already taken off. */
  datatype Value =
    | IntV(n: int)
    | BoolV(b: bool)
    | EnumV(n: int)
    | ArrayV(items: seq<Value>)
    | ViewV(items: seq<Value>)   // an array that looks into another's storage and has no list of its own
    | StructV(st: StructType, fields: map<string, Value>)
    | BytesV(raw: Bytes)    // Python's own bytes, which no field holds
    | OtherV

  datatype PackError =
    | DoesNotFit
    | DimensionOpen
    | NotAnArray
    | WrongLength
    | NotATruthValue
    | NotAnInteger
    | NotAStruct
    | NoDefinedLayout
    | FieldMissing(name: string)
    | NotWritable
    | NothingToWalk            // the list a view does not have, which Python refuses to walk
    | LayoutFailed(why: LayoutError)

  datatype Packed = Packed(bytes: Bytes) | Unpackable(error: PackError)

  // ---- integers --------------------------------------------------------------------

  /** 256 to the power of a number of bytes. */
  function Range(size: nat): nat
  {
    if size == 0 then 1 else 256 * Range(size - 1)
  }

  predicate Fits(n: int, size: nat, signed: bool) {
    if signed then 0 - Range(size) <= 2 * n < Range(size) else 0 <= n < Range(size)
  }

  /** Little-endian digits. */
  function Digits(n: nat, size: nat): (r: Bytes)
    ensures |r| == size
  {
    if size == 0 then [] else [n % 256] + Digits(n / 256, size - 1)
  }

  /** `_int_bytes` */
  function IntBytes(n: int, size: nat, signed: bool): (r: Packed)
    ensures r.Packed? ==> |r.bytes| == size
  {
    if !Fits(n, size, signed) then Unpackable(DoesNotFit)
    else if n < 0 then
      assert n + Range(size) >= 0;
      Packed(Digits(n + Range(size), size))
    else Packed(Digits(n, size))
  }

  function Number(bs: Bytes): nat {
    if bs == [] then 0 else bs[0] + 256 * Number(bs[1..])
  }

  /** Reading an integer back: two's complement where it is signed. */
  function ReadInt(bs: Bytes, signed: bool): int {
    var m := Number(bs);
    if signed && 2 * m >= Range(|bs|) then m - Range(|bs|) else m
  }

  lemma {:induction false} NumberOfDigits(n: nat, size: nat)
    requires n < Range(size)
    ensures Number(Digits(n, size)) == n
  {
    if size > 0 {
      assert Digits(n, size)[1..] == Digits(n / 256, size - 1);
      NumberOfDigits(n / 256, size - 1);
    }
  }

  /** What fits is read back as what was written, and only what fits is written. */
  lemma IntRoundTrip(n: int, size: nat, signed: bool)
    ensures IntBytes(n, size, signed).Packed? <==> Fits(n, size, signed)
    ensures IntBytes(n, size, signed).Packed? ==> ReadInt(IntBytes(n, size, signed).bytes, signed) == n
  {
    if Fits(n, size, signed) {
      NumberOfDigits(if n < 0 then n + Range(size) else n, size);
    }
  }

  lemma {:induction false} DigitsOfNumber(bs: Bytes)
    ensures Number(bs) < Range(|bs|) && Digits(Number(bs), |bs|) == bs
  {
    if bs != [] {
      DigitsOfNumber(bs[1..]);
      assert Number(bs) % 256 == bs[0] && Number(bs) / 256 == Number(bs[1..]);
      assert bs == [bs[0]] + bs[1..];
    }
  }

  lemma {:induction false} RangeIsEven(size: nat)
    requires size > 0
    ensures Range(size) % 2 == 0
  {
    if size > 1 { RangeIsEven(size - 1); }
  }

  /** Every string of bytes is what one integer is written as, the one it is read
      back as: nothing that size can hold is refused. */
  lemma EveryBytesAreWritten(bs: Bytes, signed: bool)
    requires bs != []
    ensures IntBytes(ReadInt(bs, signed), |bs|, signed) == Packed(bs)
  {
    DigitsOfNumber(bs);
    RangeIsEven(|bs|);
  }

  /** So an integer is written exactly if some bytes of that size read back as it,
      and as those. */
  lemma WrittenExactly(n: int, size: nat, signed: bool)
    requires size > 0
    ensures IntBytes(n, size, signed).Packed? <==> exists bs: Bytes :: |bs| == size && ReadInt(bs, signed) == n
    ensures forall bs: Bytes :: |bs| == size && ReadInt(bs, signed) == n ==> IntBytes(n, size, signed) == Packed(bs)
  {
    IntRoundTrip(n, size, signed);
    forall bs: Bytes | |bs| == size && ReadInt(bs, signed) == n ensures IntBytes(n, size, signed) == Packed(bs) {
      EveryBytesAreWritten(bs, signed);
    }
    if IntBytes(n, size, signed).Packed? {
      assert ReadInt(IntBytes(n, size, signed).bytes, signed) == n;
    }
  }

  // ---- values -------------------------------------------------------------------------

  /** `_scalar_signed`: a name that starts with `i` and not with `is`. */
  predicate Signed(t: Type) {
    match t
    case Int(signed, _) => signed
    case Fast(signed, _) => signed
    case _ => false
  }

  /** `pack_value` */
  function PackValue(v: Value, t: Type, structs: Structs): Packed
    decreases v, 3
  {
    match t
    case Named(x) => if x in structs then PackStruct(v, structs) else Unpackable(LayoutFailed(NoRepresentation))
    case Array(element, dims) =>
      if exists i :: 0 <= i < |dims| && dims[i].None? then Unpackable(DimensionOpen)
      else if v.ViewV? then Unpackable(NothingToWalk)
      else if !v.ArrayV? then Unpackable(NotAnArray)
      else if |v.items| != Product(dims) then Unpackable(WrongLength)
      else PackItems(v.items, element, structs)
    case Enum(under) =>
      (match TypeLayout(under, structs, {})
       case Err(e) => Unpackable(LayoutFailed(e))
       case Ok(x) => if v.EnumV? || v.IntV? then IntBytes(v.n, x.size, Signed(under)) else Unpackable(NotAnInteger))
    case Bool => if v.BoolV? then Packed([if v.b then 1 else 0]) else Unpackable(NotATruthValue)
    case _ =>
      match TypeLayout(t, structs, {})
      case Err(e) => Unpackable(LayoutFailed(e))
      case Ok(x) => if v.IntV? then IntBytes(v.n, x.size, Signed(t)) else Unpackable(NotWritable)
  }

  lemma Ranges()
    ensures Range(1) == 0x100 && Range(2) == 0x1_0000 && Range(4) == 0x1_0000_0000
    ensures Range(8) == 0x1_0000_0000_0000_0000
  {
    assert Range(1) == 256 * Range(0) && Range(2) == 256 * Range(1);
    assert Range(3) == 256 * Range(2) && Range(4) == 256 * Range(3) && Range(5) == 256 * Range(4);
    assert Range(6) == 256 * Range(5) && Range(7) == 256 * Range(6) && Range(8) == 256 * Range(7);
  }

  /** The integers a type that takes so many bytes can hold. */
  predicate CanHold(n: int, bytes: nat, signed: bool) {
    match bytes
    case 1 => if signed then -0x80 <= n < 0x80 else 0 <= n < 0x100
    case 2 => if signed then -0x8000 <= n < 0x8000 else 0 <= n < 0x1_0000
    case 4 => if signed then -0x8000_0000 <= n < 0x8000_0000 else 0 <= n < 0x1_0000_0000
    case 8 =>
      if signed then -0x8000_0000_0000_0000 <= n < 0x8000_0000_0000_0000 else 0 <= n < 0x1_0000_0000_0000_0000
    case _ => false
  }

  /** What each integer type takes, by its name, and nothing but an integer. */
  lemma IntegersWritten(n: int, signed: bool, structs: Structs)
    ensures PackValue(IntV(n), Byte, structs).Packed? <==> CanHold(n, 1, false)
    ensures PackValue(IntV(n), USize, structs).Packed? <==> CanHold(n, 8, false)
    ensures PackValue(IntV(n), Int(signed, 8), structs).Packed? <==> CanHold(n, 1, signed)
    ensures PackValue(IntV(n), Int(signed, 16), structs).Packed? <==> CanHold(n, 2, signed)
    ensures PackValue(IntV(n), Int(signed, 32), structs).Packed? <==> CanHold(n, 4, signed)
    ensures PackValue(IntV(n), Int(signed, 64), structs).Packed? <==> CanHold(n, 8, signed)
    ensures PackValue(IntV(n), Fast(signed, 16), structs).Packed? <==> CanHold(n, 4, signed)
    ensures PackValue(IntV(n), Fast(signed, 32), structs).Packed? <==> CanHold(n, 8, signed)
    ensures PackValue(EnumV(n), Enum(Int(signed, 32)), structs).Packed? <==> CanHold(n, 4, signed)
    ensures PackValue(BoolV(true), Bool, structs) == Packed([1])
    ensures PackValue(BoolV(false), Bool, structs) == Packed([0])
    ensures forall b :: PackValue(BoolV(b), Int(signed, 8), structs).Unpackable?
    ensures PackValue(IntV(n), Bool, structs).Unpackable? && PackValue(IntV(n), Str, structs).Unpackable?
  {
    hide TypeLayout, Range;
    Ranges();
    ScalarsAsInC(structs, {});
    IntegerAsInC(signed, 8, structs, {});
    IntegerAsInC(signed, 16, structs, {});
    IntegerAsInC(signed, 32, structs, {});
    IntegerAsInC(signed, 64, structs, {});
    FastAsInC(signed, 16, structs, {});
    FastAsInC(signed, 32, structs, {});
  }

  /** One element after another. */
  function PackItems(vs: seq<Value>, element: Type, structs: Structs): Packed
    decreases vs, 0
  {
    if vs == [] then Packed([]) else
    match PackValue(vs[0], element, structs)
    case Unpackable(e) => Unpackable(e)
    case Packed(raw) =>
      match PackItems(vs[1..], element, structs)
      case Unpackable(e) => Unpackable(e)
      case Packed(rest) => Packed(raw + rest)
  }

  function Zeros(n: nat): (r: Bytes)
    ensures |r| == n && forall i :: 0 <= i < n ==> r[i] == 0
  {
    seq(n, i => 0)
  }

  function Min(a: nat, b: nat): nat { if a < b then a else b }

  /** `buf[at:at+len(raw)] = raw`, as a bytearray takes it. */
  function WriteAt(buf: Bytes, at: nat, raw: Bytes): Bytes {
    buf[..Min(at, |buf|)] + raw + buf[Min(at + |raw|, |buf|)..]
  }

  /** `pack_struct` */
  function PackStruct(v: Value, structs: Structs): Packed
    decreases v, 2
  {
    if !v.StructV? then Unpackable(NotAStruct)
    else if !v.st.reprC then Unpackable(NoDefinedLayout)
    else
      match LayOut(v.st, structs, {})
      case Err(e) => Unpackable(LayoutFailed(e))
      case Ok(l) => PackFields(v, l.fields, structs, Zeros(l.size))
  }

  function PackFields(v: Value, fs: seq<Placed>, structs: Structs, buf: Bytes): Packed
    requires v.StructV?
    decreases v, 1, fs
  {
    if fs == [] then Packed(buf)
    else if fs[0].name !in v.fields then Unpackable(FieldMissing(fs[0].name))
    else
      match PackValue(v.fields[fs[0].name], fs[0].ty, structs)
      case Unpackable(e) => Unpackable(e)
      case Packed(raw) => PackFields(v, fs[1..], structs, WriteAt(buf, fs[0].offset, raw))
  }

  // ---- which values a type says -------------------------------------------------------------

  predicate IsInt(t: Type) { t.Byte? || t.USize? || t.Int? || t.Fast? }

  function FieldNames(fields: seq<Field>): set<string> { set f | f in fields :: f.name }

  /** A value of a type made of integers, truth values, enums, arrays and structs. */
  predicate HasType(v: Value, t: Type, structs: Structs)
    decreases v
  {
    match t
    case Bool => v.BoolV?
    case Enum(under) => v.EnumV? && IsInt(under)
    case Array(element, dims) =>
      v.ArrayV? && (forall i :: 0 <= i < |dims| ==> dims[i].Some?) && |v.items| == Product(dims) &&
      forall i :: 0 <= i < |v.items| ==> HasType(v.items[i], element, structs)
    case Named(x) =>
      x in structs && v.StructV? && v.st == structs[x] && v.fields.Keys == FieldNames(v.st.fields) &&
      forall i :: 0 <= i < |v.st.fields| ==>
        v.st.fields[i].name in v.fields && HasType(v.fields[v.st.fields[i].name], v.st.fields[i].ty, structs)
    case _ => IsInt(t) && v.IntV?
  }

  function SizeOf(t: Type, structs: Structs): nat {
    var r := TypeLayout(t, structs, {}); if r.Ok? then r.value.size else 0
  }

  /** Every integer in a value fits the bytes its type gives it. */
  predicate InRange(v: Value, t: Type, structs: Structs)
    requires HasType(v, t, structs)
    decreases v
  {
    match t
    case Bool => true
    case Enum(under) => Fits(v.n, SizeOf(under, structs), Signed(under))
    case Array(element, _) => forall i :: 0 <= i < |v.items| ==> InRange(v.items[i], element, structs)
    case Named(_) =>
      forall i :: 0 <= i < |v.st.fields| ==> InRange(v.fields[v.st.fields[i].name], v.st.fields[i].ty, structs)
    case _ => Fits(v.n, SizeOf(t, structs), Signed(t))
  }

  // ---- reading back -------------------------------------------------------------------------

  lemma NotYetSeen(st: StructType, structs: Structs, seen: set<string>)
    requires LayOut(st, structs, seen).Ok? && st.name in Known(structs)
    ensures st.name !in seen && Known(structs) - (seen + {st.name}) < Known(structs) - seen
    ensures |LayOut(st, structs, seen).value.fields| == |st.fields|
  {
    StructIsTight(st, structs, seen);
    assert st.name in Known(structs) - seen;
  }

  lemma FieldIsThere(st: StructType, structs: Structs, seen: set<string>, i: nat)
    requires LayOut(st, structs, seen).Ok? && i < |st.fields| && st.name in Known(structs)
    ensures var l := LayOut(st, structs, seen).value;
            |l.fields| == |st.fields| && var f := l.fields[i];
            f.name == st.fields[i].name && f.ty == st.fields[i].ty && f.offset + f.size <= l.size &&
            TypeLayout(f.ty, structs, seen + {st.name}) == Ok(Extent(f.size, f.align))
    ensures Known(structs) - (seen + {st.name}) < Known(structs) - seen
  {
    NotYetSeen(st, structs, seen);
    FieldSits(st, structs, seen, i);
  }

  /** What a type's bytes say, read at its own offsets. */
  function Unpack(bs: Bytes, t: Type, structs: Structs, seen: set<string>): Value
    requires TypeLayout(t, structs, seen).Ok? && |bs| == TypeLayout(t, structs, seen).value.size
    decreases Known(structs) - seen, 1, t, 0
  {
    match t
    case Bool => BoolV(bs[0] != 0)
    case Enum(under) => EnumV(ReadInt(bs, Signed(under)))
    case Array(element, dims) => ArrayV(UnpackItems(bs, element, Product(dims), structs, seen))
    case Named(x) =>
      var st := structs[x];
      NotYetSeen(st, structs, seen);
      StructV(st, UnpackFields(bs, st, |st.fields|, structs, seen))
    case _ => if IsInt(t) then IntV(ReadInt(bs, Signed(t))) else OtherV
  }

  function UnpackItems(bs: Bytes, element: Type, count: nat, structs: Structs, seen: set<string>): (r: seq<Value>)
    requires TypeLayout(element, structs, seen).Ok? && |bs| == TypeLayout(element, structs, seen).value.size * count
    ensures |r| == count
    decreases Known(structs) - seen, 1, element, count + 1
  {
    if count == 0 then [] else
    var size := TypeLayout(element, structs, seen).value.size;
    Chunk(size, count);
    [Unpack(bs[..size], element, structs, seen)] + UnpackItems(bs[size..], element, count - 1, structs, seen)
  }

  lemma Chunk(size: nat, count: nat)
    requires count > 0
    ensures size * count == size + size * (count - 1)
  {}

  /** The first `k` fields of a struct. */
  function UnpackFields(bs: Bytes, st: StructType, k: nat, structs: Structs, seen: set<string>): map<string, Value>
    requires LayOut(st, structs, seen).Ok? && |bs| == LayOut(st, structs, seen).value.size
    requires k <= |st.fields| && st.name in Known(structs)
    decreases Known(structs) - seen, 0, k
  {
    if k == 0 then map[] else
    FieldIsThere(st, structs, seen, k - 1);
    var f := LayOut(st, structs, seen).value.fields[k - 1];
    var v := Unpack(bs[f.offset..f.offset + f.size], f.ty, structs, seen + {st.name});
    UnpackFields(bs, st, k - 1, structs, seen)[f.name := v]
  }

  // ---- writing fields into a buffer ------------------------------------------------------------

  /** Writing inside a buffer changes those bytes and no others. */
  lemma WriteAtExactly(buf: Bytes, at: nat, raw: Bytes)
    requires at + |raw| <= |buf|
    ensures var r := WriteAt(buf, at, raw);
            |r| == |buf| && r[at..at + |raw|] == raw &&
            forall k :: 0 <= k < |buf| && !(at <= k < at + |raw|) ==> r[k] == buf[k]
  {}

  predicate Covers(f: Placed, k: nat) { f.offset <= k < f.offset + f.size }

  /** The bytes of each field. */
  ghost predicate Holding(r: Bytes, f: Placed, v: Value, structs: Structs)
    requires v.StructV?
  {
    f.offset + f.size <= |r| && f.name in v.fields &&
    PackValue(v.fields[f.name], f.ty, structs) == Packed(r[f.offset..f.offset + f.size])
  }

  /** Fields that stand apart and inside a buffer, each packing to its size. */
  ghost predicate Packable(v: Value, fs: seq<Placed>, structs: Structs, size: nat)
    requires v.StructV?
  {
    (forall i, j :: 0 <= i < j < |fs| ==> fs[i].offset + fs[i].size <= fs[j].offset) &&
    forall i :: 0 <= i < |fs| ==>
      fs[i].offset + fs[i].size <= size && fs[i].name in v.fields &&
      var p := PackValue(v.fields[fs[i].name], fs[i].ty, structs); p.Packed? && |p.bytes| == fs[i].size
  }

  /** Every field's bytes are in the result, whichever fields were written after
      it; every byte no field covers is as it was. */
  lemma {:induction false} FieldsAreWritten(v: Value, fs: seq<Placed>, structs: Structs, buf: Bytes)
    requires v.StructV? && Packable(v, fs, structs, |buf|)
    ensures var r := PackFields(v, fs, structs, buf);
            r.Packed? && |r.bytes| == |buf| &&
            (forall i :: 0 <= i < |fs| ==> Holding(r.bytes, fs[i], v, structs)) &&
            forall k :: 0 <= k < |buf| && (forall i :: 0 <= i < |fs| ==> !Covers(fs[i], k)) ==> r.bytes[k] == buf[k]
    decreases |fs|
  {
    hide PackValue, WriteAt;
    if fs != [] {
      var raw := PackValue(v.fields[fs[0].name], fs[0].ty, structs).bytes;
      var at := fs[0].offset;
      WriteAtExactly(buf, at, raw);
      var buf1 := WriteAt(buf, at, raw);
      FieldsAreWritten(v, fs[1..], structs, buf1);
      var r := PackFields(v, fs, structs, buf).bytes;
      forall k | at <= k < at + |raw| ensures r[k] == buf1[k] {
        forall i | 0 <= i < |fs[1..]| ensures !Covers(fs[1..][i], k) { assert fs[1..][i] == fs[i + 1]; }
      }
      assert r[at..at + |raw|] == buf1[at..at + |raw|];
      forall i | 0 <= i < |fs| ensures Holding(r, fs[i], v, structs) {
        if i > 0 { assert fs[i] == fs[1..][i - 1]; }
      }
      forall k | 0 <= k < |buf| && forall i :: 0 <= i < |fs| ==> !Covers(fs[i], k) ensures r[k] == buf[k] {
        forall i | 0 <= i < |fs[1..]| ensures !Covers(fs[1..][i], k) { assert fs[1..][i] == fs[i + 1]; }
        assert !Covers(fs[0], k);
      }
    }
  }

  /** A run of fields is refused exactly where one of them is. */
  lemma {:induction false} FieldsRefused(v: Value, fs: seq<Placed>, structs: Structs, buf: Bytes)
    requires v.StructV? && forall i :: 0 <= i < |fs| ==> fs[i].name in v.fields
    ensures PackFields(v, fs, structs, buf).Packed? <==>
            forall i :: 0 <= i < |fs| ==> PackValue(v.fields[fs[i].name], fs[i].ty, structs).Packed?
    decreases |fs|
  {
    hide PackValue, WriteAt;
    if fs != [] {
      var p := PackValue(v.fields[fs[0].name], fs[0].ty, structs);
      if p.Packed? {
        FieldsRefused(v, fs[1..], structs, WriteAt(buf, fs[0].offset, p.bytes));
        assert forall i :: 0 <= i < |fs[1..]| ==> fs[1..][i] == fs[i + 1];
        assert forall i :: 1 <= i < |fs| ==> fs[i] == fs[1..][i - 1];
      }
    }
  }

  // ---- nothing is lost ---------------------------------------------------------------------------

  /** What packing a value comes to: bytes exactly where every integer in it
      fits, as many as its type lays out, and reading them gives it back. */
  ghost predicate Faithful(v: Value, t: Type, structs: Structs, seen: set<string>)
    requires TypeLayout(t, structs, seen).Ok? && HasType(v, t, structs)
  {
    var p := PackValue(v, t, structs);
    (p.Packed? <==> InRange(v, t, structs)) &&
    (p.Packed? ==> |p.bytes| == TypeLayout(t, structs, seen).value.size && Unpack(p.bytes, t, structs, seen) == v)
  }

  lemma ScalarFaithful(v: Value, t: Type, structs: Structs, seen: set<string>)
    requires TypeLayout(t, structs, seen).Ok? && HasType(v, t, structs) && IsScalar(t)
    ensures Faithful(v, t, structs, seen)
  {
    SeenOnlyRefusesType(t, structs, seen, {});
    if !t.Bool? {
      var under := if t.Enum? then t.underlying else t;
      IntRoundTrip(v.n, SizeOf(under, structs), Signed(under));
    }
  }

  ghost predicate AllFaithful(vs: seq<Value>, element: Type, structs: Structs, seen: set<string>)
    requires TypeLayout(element, structs, seen).Ok?
  {
    forall i :: 0 <= i < |vs| ==> HasType(vs[i], element, structs) && Faithful(vs[i], element, structs, seen)
  }

  predicate AllInRange(vs: seq<Value>, element: Type, structs: Structs)
    requires forall i :: 0 <= i < |vs| ==> HasType(vs[i], element, structs)
  {
    forall i :: 0 <= i < |vs| ==> InRange(vs[i], element, structs)
  }

  lemma RangeSplit(vs: seq<Value>, element: Type, structs: Structs)
    requires vs != [] && forall i :: 0 <= i < |vs| ==> HasType(vs[i], element, structs)
    ensures (forall i :: 0 <= i < |vs[1..]| ==> HasType(vs[1..][i], element, structs))
    ensures AllInRange(vs, element, structs)
            <==> InRange(vs[0], element, structs) && AllInRange(vs[1..], element, structs)
  {
    hide InRange, HasType;
    assert forall i :: 0 <= i < |vs[1..]| ==> vs[1..][i] == vs[i + 1];
    assert forall i :: 1 <= i < |vs| ==> vs[i] == vs[1..][i - 1];
  }

  /** The items read back, and where each one's bytes begin. */
  ghost predicate ItemsRead(bs: Bytes, vs: seq<Value>, element: Type, structs: Structs, seen: set<string>)
    requires TypeLayout(element, structs, seen).Ok?
  {
    |bs| == TypeLayout(element, structs, seen).value.size * |vs| && UnpackItems(bs, element, |vs|, structs, seen) == vs
  }

  lemma OneMoreItem(raw: Bytes, rest: Bytes, v: Value, vs: seq<Value>, element: Type, structs: Structs,
                    seen: set<string>)
    requires TypeLayout(element, structs, seen).Ok? && |raw| == TypeLayout(element, structs, seen).value.size
    requires Unpack(raw, element, structs, seen) == v && ItemsRead(rest, vs, element, structs, seen)
    ensures ItemsRead(raw + rest, [v] + vs, element, structs, seen)
  {
    hide Unpack, TypeLayout;
    var size := TypeLayout(element, structs, seen).value.size;
    Chunk(size, |vs| + 1);
    assert (raw + rest)[..size] == raw && (raw + rest)[size..] == rest;
  }

  lemma {:induction false} ItemsFaithful(vs: seq<Value>, element: Type, structs: Structs, seen: set<string>)
    requires TypeLayout(element, structs, seen).Ok? && AllFaithful(vs, element, structs, seen)
    ensures PackItems(vs, element, structs).Packed? <==> AllInRange(vs, element, structs)
    ensures var p := PackItems(vs, element, structs); p.Packed? ==> ItemsRead(p.bytes, vs, element, structs, seen)
    decreases |vs|
  {
    hide PackValue, InRange, HasType, Unpack, TypeLayout, AllInRange;
    if vs == [] {
      assert AllInRange(vs, element, structs) by { EmptyInRange(element, structs); }
    } else {
      RangeSplit(vs, element, structs);
      assert AllFaithful(vs[1..], element, structs, seen) by {
        assert forall i :: 0 <= i < |vs[1..]| ==> vs[1..][i] == vs[i + 1];
      }
      ItemsFaithful(vs[1..], element, structs, seen);
      assert Faithful(vs[0], element, structs, seen);
      var p, first := PackItems(vs, element, structs), PackValue(vs[0], element, structs);
      var rest := PackItems(vs[1..], element, structs);
      if p.Packed? {
        OneMoreItem(first.bytes, rest.bytes, vs[0], vs[1..], element, structs, seen);
        assert vs == [vs[0]] + vs[1..];
      }
    }
  }

  lemma EmptyInRange(element: Type, structs: Structs)
    ensures AllInRange([], element, structs)
  {}

  /** The fields read back are the fields written. */
  lemma {:induction false} FieldsReadBack(v: Value, bs: Bytes, k: nat, structs: Structs, seen: set<string>)
    requires v.StructV? && LayOut(v.st, structs, seen).Ok? && |bs| == LayOut(v.st, structs, seen).value.size
    requires k <= |v.st.fields| && v.st.name in Known(structs)
    requires forall i :: 0 <= i < k ==> FieldReadsBack(v, bs, i, structs, seen)
    ensures UnpackFields(bs, v.st, k, structs, seen).Keys == FieldNames(v.st.fields[..k])
    ensures forall x :: x in FieldNames(v.st.fields[..k]) ==>
              x in v.fields && UnpackFields(bs, v.st, k, structs, seen)[x] == v.fields[x]
    decreases k
  {
    hide Unpack, LayOut, TypeLayout;
    if k > 0 {
      FieldIsThere(v.st, structs, seen, k - 1);
      FieldsReadBack(v, bs, k - 1, structs, seen);
      assert v.st.fields[..k] == v.st.fields[..k - 1] + [v.st.fields[k - 1]];
      assert FieldReadsBack(v, bs, k - 1, structs, seen);
    }
  }

  ghost predicate FieldReadsBack(v: Value, bs: Bytes, i: nat, structs: Structs, seen: set<string>)
    requires v.StructV? && LayOut(v.st, structs, seen).Ok? && |bs| == LayOut(v.st, structs, seen).value.size
    requires v.st.name in Known(structs) && i < |v.st.fields|
  {
    FieldIsThere(v.st, structs, seen, i);
    var f := LayOut(v.st, structs, seen).value.fields[i];
    f.name in v.fields && Unpack(bs[f.offset..f.offset + f.size], f.ty, structs, seen + {v.st.name}) == v.fields[f.name]
  }

  ghost predicate FieldFaithful(v: Value, i: nat, structs: Structs, seen: set<string>)
    requires v.StructV? && LayOut(v.st, structs, seen).Ok? && v.st.name in Known(structs) && i < |v.st.fields|
  {
    FieldIsThere(v.st, structs, seen, i);
    var f := LayOut(v.st, structs, seen).value.fields[i];
    f.name in v.fields && HasType(v.fields[f.name], f.ty, structs) &&
    Faithful(v.fields[f.name], f.ty, structs, seen + {v.st.name})
  }

  /** The layout's fields stand ready to be written. */
  lemma FieldsPackable(v: Value, structs: Structs, seen: set<string>)
    requires v.StructV? && LayOut(v.st, structs, seen).Ok? && v.st.name in Known(structs)
    requires forall i :: 0 <= i < |v.st.fields| ==> FieldFaithful(v, i, structs, seen)
    requires var fs := LayOut(v.st, structs, seen).value.fields;
             forall i :: 0 <= i < |fs| ==>
               fs[i].name in v.fields && PackValue(v.fields[fs[i].name], fs[i].ty, structs).Packed?
    ensures var l := LayOut(v.st, structs, seen).value; Packable(v, l.fields, structs, l.size)
  {
    hide PackValue, Unpack, TypeLayout, LayOut, HasType, InRange;
    var l := LayOut(v.st, structs, seen).value;
    NotYetSeen(v.st, structs, seen);
    StructIsTight(v.st, structs, seen);
    forall i, j | 0 <= i < j < |l.fields| ensures l.fields[i].offset + l.fields[i].size <= l.fields[j].offset {
      FieldBefore(l.fields, i, j);
    }
    forall i | 0 <= i < |l.fields|
      ensures l.fields[i].offset + l.fields[i].size <= l.size
      ensures |PackValue(v.fields[l.fields[i].name], l.fields[i].ty, structs).bytes| == l.fields[i].size
    {
      FieldIsThere(v.st, structs, seen, i);
      assert FieldFaithful(v, i, structs, seen);
    }
  }

  lemma PackStructIs(v: Value, structs: Structs, seen: set<string>)
    requires v.StructV? && LayOut(v.st, structs, seen).Ok?
    ensures var l := LayOut(v.st, structs, seen).value;
            PackStruct(v, structs) == PackFields(v, l.fields, structs, Zeros(l.size))
  {
    SeenOnlyRefuses(v.st, structs, seen, {});
  }

  /** A struct's bytes hold each field's, and zeros wherever no field lies. */
  ghost predicate StructBytes(r: Bytes, v: Value, l: StructLayout, structs: Structs)
    requires v.StructV?
  {
    |r| == l.size && (forall i :: 0 <= i < |l.fields| ==> Holding(r, l.fields[i], v, structs)) &&
    forall k :: 0 <= k < l.size && (forall i :: 0 <= i < |l.fields| ==> !Covers(l.fields[i], k)) ==> r[k] == 0
  }

  /** A struct packs exactly where all its fields do. */
  lemma StructPacks(v: Value, structs: Structs, seen: set<string>)
    requires v.StructV? && LayOut(v.st, structs, seen).Ok? && v.st.name in Known(structs)
    requires forall i :: 0 <= i < |v.st.fields| ==> v.st.fields[i].name in v.fields
    requires forall i :: 0 <= i < |v.st.fields| ==> FieldFaithful(v, i, structs, seen)
    ensures var l := LayOut(v.st, structs, seen).value;
            var p := PackStruct(v, structs);
            var fs := v.st.fields;
            (p.Packed? <==>
               forall i :: 0 <= i < |fs| ==> PackValue(v.fields[fs[i].name], fs[i].ty, structs).Packed?) &&
            (p.Packed? ==> StructBytes(p.bytes, v, l, structs))
  {
    hide PackValue, Unpack, TypeLayout, LayOut, HasType, InRange;
    var l := LayOut(v.st, structs, seen).value;
    NotYetSeen(v.st, structs, seen);
    forall i | 0 <= i < |v.st.fields|
      ensures l.fields[i].name == v.st.fields[i].name && l.fields[i].ty == v.st.fields[i].ty
      ensures l.fields[i].name in v.fields
    {
      FieldIsThere(v.st, structs, seen, i);
      assert FieldFaithful(v, i, structs, seen);
    }
    PackStructIs(v, structs, seen);
    FieldsRefused(v, l.fields, structs, Zeros(l.size));
    if PackStruct(v, structs).Packed? {
      FieldsPackable(v, structs, seen);
      FieldsAreWritten(v, l.fields, structs, Zeros(l.size));
    }
  }

  lemma StructFaithful(v: Value, t: Type, structs: Structs, seen: set<string>)
    requires t.Named? && v.StructV? && TypeLayout(t, structs, seen).Ok? && HasType(v, t, structs)
    requires v.st.name in Known(structs)
    requires forall i :: 0 <= i < |v.st.fields| ==> FieldFaithful(v, i, structs, seen)
    ensures Faithful(v, t, structs, seen)
  {
    hide Unpack, UnpackFields, TypeLayout, LayOut, HasType, InRange, PackValue, PackStruct, FieldNames;
    StructInRange(v, t, structs, seen);
    var l := LayOut(v.st, structs, seen).value;
    StructPacks(v, structs, seen);
    NotYetSeen(v.st, structs, seen);
    var p := PackStruct(v, structs);
    if p.Packed? {
      forall i | 0 <= i < |v.st.fields| ensures FieldReadsBack(v, p.bytes, i, structs, seen) {
        FieldIsThere(v.st, structs, seen, i);
        assert FieldFaithful(v, i, structs, seen);
        assert Holding(p.bytes, l.fields[i], v, structs);
      }
      FieldsReadBack(v, p.bytes, |v.st.fields|, structs, seen);
      assert v.st.fields[..|v.st.fields|] == v.st.fields;
      assert UnpackFields(p.bytes, v.st, |v.st.fields|, structs, seen) == v.fields;
      UnpackStruct(p.bytes, v.st, t, structs, seen);
    }
  }

  /** What a struct's type says of it, spelt out. */
  lemma StructInRange(v: Value, t: Type, structs: Structs, seen: set<string>)
    requires t.Named? && v.StructV? && TypeLayout(t, structs, seen).Ok? && HasType(v, t, structs)
    requires v.st.name in Known(structs)
    requires forall i :: 0 <= i < |v.st.fields| ==> FieldFaithful(v, i, structs, seen)
    ensures LayOut(v.st, structs, seen).Ok?
    ensures TypeLayout(t, structs, seen).value.size == LayOut(v.st, structs, seen).value.size
    ensures PackValue(v, t, structs) == PackStruct(v, structs)
    ensures InRange(v, t, structs) <==>
            forall i :: 0 <= i < |v.st.fields| ==>
              PackValue(v.fields[v.st.fields[i].name], v.st.fields[i].ty, structs).Packed?
    ensures v.fields.Keys == FieldNames(v.st.fields)
    ensures structs[t.name] == v.st && forall i :: 0 <= i < |v.st.fields| ==> v.st.fields[i].name in v.fields
  {
    forall i | 0 <= i < |v.st.fields|
      ensures var x := v.fields[v.st.fields[i].name]; var ty := v.st.fields[i].ty;
              InRange(x, ty, structs) <==> PackValue(x, ty, structs).Packed?
    {
      FieldIsThere(v.st, structs, seen, i);
      assert FieldFaithful(v, i, structs, seen);
    }
  }

  lemma UnpackStruct(bs: Bytes, st: StructType, t: Type, structs: Structs, seen: set<string>)
    requires t.Named? && TypeLayout(t, structs, seen).Ok? && |bs| == TypeLayout(t, structs, seen).value.size
    requires structs[t.name] == st && st.name in Known(structs)
    ensures LayOut(st, structs, seen).Ok? && |bs| == LayOut(st, structs, seen).value.size
    ensures Unpack(bs, t, structs, seen) == StructV(st, UnpackFields(bs, st, |st.fields|, structs, seen))
  {}

  lemma {:induction false} IsFaithful(v: Value, t: Type, structs: Structs, seen: set<string>)
    requires TypeLayout(t, structs, seen).Ok? && HasType(v, t, structs)
    ensures Faithful(v, t, structs, seen)
    decreases v, 1
  {
    if IsScalar(t) {
      ScalarFaithful(v, t, structs, seen);
    } else if t.Array? {
      forall i | 0 <= i < |v.items| ensures Faithful(v.items[i], t.element, structs, seen) {
        IsFaithful(v.items[i], t.element, structs, seen);
      }
      ArrayFaithful(v, t, structs, seen);
    } else {
      NamedIsKnown(t, structs, seen);
      FieldsFaithful(v, t, structs, seen);
      StructFaithful(v, t, structs, seen);
    }
  }

  lemma {:induction false} FieldsFaithful(v: Value, t: Type, structs: Structs, seen: set<string>)
    requires t.Named? && v.StructV? && HasType(v, t, structs) && LayOut(v.st, structs, seen).Ok?
    requires v.st.name in Known(structs)
    ensures forall i :: 0 <= i < |v.st.fields| ==> v.st.fields[i].name in v.fields && FieldFaithful(v, i, structs, seen)
    decreases v, 0
  {
    hide LayOut, TypeLayout, Unpack, PackValue, InRange, Faithful;
    forall i | 0 <= i < |v.st.fields| ensures v.st.fields[i].name in v.fields && FieldFaithful(v, i, structs, seen) {
      FieldIsThere(v.st, structs, seen, i);
      var f := v.st.fields[i];
      IsFaithful(v.fields[f.name], f.ty, structs, seen + {v.st.name});
    }
  }

  lemma NamedIsKnown(t: Type, structs: Structs, seen: set<string>)
    requires t.Named? && TypeLayout(t, structs, seen).Ok?
    ensures structs[t.name].name in Known(structs) && LayOut(structs[t.name], structs, seen).Ok?
  {}

  lemma ArrayFaithful(v: Value, t: Type, structs: Structs, seen: set<string>)
    requires t.Array? && TypeLayout(t, structs, seen).Ok? && HasType(v, t, structs)
    requires AllFaithful(v.items, t.element, structs, seen)
    ensures Faithful(v, t, structs, seen)
  {
    ItemsFaithful(v.items, t.element, structs, seen);
  }

  /** Packing loses nothing: a value of its type is written exactly where every
      integer in it fits, in as many bytes as the type lays out, and reading
      those bytes at the layout's own offsets gives the value back. */
  lemma PackingLosesNothing(v: Value, t: Type, structs: Structs)
    requires TypeLayout(t, structs, {}).Ok? && HasType(v, t, structs)
    ensures PackValue(v, t, structs).Packed? <==> InRange(v, t, structs)
    ensures InRange(v, t, structs) ==>
              var bs := PackValue(v, t, structs).bytes;
              |bs| == TypeLayout(t, structs, {}).value.size && Unpack(bs, t, structs, {}) == v
  {
    IsFaithful(v, t, structs, {});
  }

  /** No field's bytes are disturbed by those written after it, and all padding
      is zero. */
  lemma PaddingIsZero(v: Value, t: Type, structs: Structs)
    requires t.Named? && TypeLayout(t, structs, {}).Ok? && HasType(v, t, structs) && v.StructV?
    requires PackStruct(v, structs).Packed?
    ensures LayOut(v.st, structs, {}).Ok?
    ensures StructBytes(PackStruct(v, structs).bytes, v, LayOut(v.st, structs, {}).value, structs)
  {
    NamedIsKnown(t, structs, {});
    FieldsFaithful(v, t, structs, {});
    hide LayOut, TypeLayout, PackStruct, StructBytes, FieldFaithful;
    StructPacks(v, structs, {});
  }

  lemma NextSlice(first: Bytes, rest: Bytes, k: nat)
    requires k > 0 && (k - 1) * |first| + |first| <= |rest|
    ensures var size := |first|;
            k * size == (k - 1) * size + size && k * size + size <= |first + rest| &&
            (first + rest)[k * size..k * size + size] == rest[(k - 1) * size..(k - 1) * size + size]
  {
    Chunk(|first|, k);
  }

  lemma FirstItem(vs: seq<Value>, element: Type, structs: Structs)
    requires vs != [] && PackItems(vs, element, structs).Packed?
    ensures PackValue(vs[0], element, structs).Packed? && PackItems(vs[1..], element, structs).Packed?
    ensures PackItems(vs, element, structs).bytes
            == PackValue(vs[0], element, structs).bytes + PackItems(vs[1..], element, structs).bytes
  {
    hide PackValue;
  }

  lemma PackedSize(v: Value, t: Type, structs: Structs)
    requires TypeLayout(t, structs, {}).Ok? && HasType(v, t, structs) && PackValue(v, t, structs).Packed?
    ensures |PackValue(v, t, structs).bytes| == TypeLayout(t, structs, {}).value.size
  {
    hide PackValue, TypeLayout, HasType, InRange, Unpack;
    IsFaithful(v, t, structs, {});
  }

  /** Element `k` of an array is written at `k` times the element's size. */
  lemma {:induction false} ElementAt(vs: seq<Value>, element: Type, structs: Structs, k: nat)
    requires TypeLayout(element, structs, {}).Ok? && (forall i :: 0 <= i < |vs| ==> HasType(vs[i], element, structs))
    requires PackItems(vs, element, structs).Packed? && k < |vs|
    ensures var size := TypeLayout(element, structs, {}).value.size;
            var bs := PackItems(vs, element, structs).bytes;
            k * size + size <= |bs| && PackValue(vs[k], element, structs) == Packed(bs[k * size..k * size + size])
    decreases |vs|
  {
    hide PackValue, PackItems, TypeLayout, HasType;
    FirstItem(vs, element, structs);
    PackedSize(vs[0], element, structs);
    var first, rest := PackValue(vs[0], element, structs).bytes, PackItems(vs[1..], element, structs).bytes;
    if k == 0 {
      assert (first + rest)[..|first|] == first;
    } else {
      assert forall i :: 0 <= i < |vs[1..]| ==> vs[1..][i] == vs[i + 1];
      ElementAt(vs[1..], element, structs, k - 1);
      NextSlice(first, rest, k);
    }
  }

  // ---- the loops as they are written -----------------------------------------------------------

  /** `pack_value` */
  method WriteValue(v: Value, t: Type, structs: Structs) returns (r: Packed)
    ensures r == PackValue(v, t, structs)
    decreases v, 3
  {
    match t
    case Named(x) =>
      if x !in structs { return Unpackable(LayoutFailed(NoRepresentation)); }
      r := WriteStruct(v, structs);
    case Array(element, dims) =>
      if exists i :: 0 <= i < |dims| && dims[i].None? { return Unpackable(DimensionOpen); }
      if v.ViewV? { return Unpackable(NothingToWalk); }
      if !v.ArrayV? { return Unpackable(NotAnArray); }
      if |v.items| != Product(dims) { return Unpackable(WrongLength); }
      r := WriteItems(v.items, element, structs);
    case _ => r := PackValue(v, t, structs);
  }

  function Joined(bs: Bytes, p: Packed): Packed {
    if p.Packed? then Packed(bs + p.bytes) else p
  }

  lemma JoinedTwice(a: Bytes, b: Bytes, p: Packed)
    ensures Joined(a + b, p) == Joined(a, Joined(b, p))
  {
    if p.Packed? { assert (a + b) + p.bytes == a + (b + p.bytes); }
  }

  method WriteItems(vs: seq<Value>, element: Type, structs: Structs) returns (r: Packed)
    ensures r == PackItems(vs, element, structs)
    decreases vs, 0
  {
    hide PackValue;
    var bytes: Bytes := [];
    for i := 0 to |vs|
      invariant Joined(bytes, PackItems(vs[i..], element, structs)) == PackItems(vs, element, structs)
    {
      assert vs[i..][0] == vs[i] && vs[i..][1..] == vs[i + 1..];
      var one := WriteValue(vs[i], element, structs);
      if one.Unpackable? { return one; }
      JoinedTwice(bytes, one.bytes, PackItems(vs[i + 1..], element, structs));
      bytes := bytes + one.bytes;
    }
    assert vs[|vs|..] == [];
    r := Packed(bytes);
  }

  /** `pack_struct`: a buffer of zeros, each field written into it in turn. */
  method WriteStruct(v: Value, structs: Structs) returns (r: Packed)
    ensures r == PackStruct(v, structs)
    decreases v, 2
  {
    if !v.StructV? { return Unpackable(NotAStruct); }
    if !v.st.reprC { return Unpackable(NoDefinedLayout); }
    var l := LayOutStruct(v.st, structs, {});
    if l.Err? { return Unpackable(LayoutFailed(l.error)); }
    hide PackValue;
    var buf, fs := Zeros(l.value.size), l.value.fields;
    for i := 0 to |fs|
      invariant PackFields(v, fs[i..], structs, buf) == PackFields(v, fs, structs, Zeros(l.value.size))
    {
      assert fs[i..][0] == fs[i] && fs[i..][1..] == fs[i + 1..];
      if fs[i].name !in v.fields { return Unpackable(FieldMissing(fs[i].name)); }
      var raw := WriteValue(v.fields[fs[i].name], fs[i].ty, structs);
      if raw.Unpackable? { return raw; }
      buf := WriteAt(buf, fs[i].offset, raw.bytes);
    }
    assert fs[|fs|..] == [];
    r := Packed(buf);
  }

  // ---- the runs of a `writev` ---------------------------------------------------------------------

  /** What one element of a run's array is written as. */
  function IovElement(v: Value, structs: Structs): Packed {
    match v
    case StructV(_, _) => PackStruct(v, structs)
    case IntV(n) => if 0 <= n < 256 then Packed([n]) else Unpackable(DoesNotFit)
    case _ => Unpackable(NotWritable)
  }

  function IovAll(vs: seq<Value>, structs: Structs): Packed {
    if vs == [] then Packed([]) else
    match IovElement(vs[0], structs)
    case Unpackable(e) => Unpackable(e)
    case Packed(raw) => Joined(raw, IovAll(vs[1..], structs))
  }

  method WriteElement(v: Value, structs: Structs) returns (r: Packed)
    ensures r == IovElement(v, structs)
  {
    if v.StructV? {
      r := WriteStruct(v, structs);
    } else {
      r := if v.IntV? then if 0 <= v.n < 256 then Packed([v.n]) else Unpackable(DoesNotFit)
           else Unpackable(NotWritable);
    }
  }

  /** What a run of a `writev` is written as. */
  function IovRun(part: Value, structs: Structs): Packed {
    match part
    case BytesV(raw) => Packed(raw)
    case StructV(_, _) => PackStruct(part, structs)
    case ArrayV(items) => IovAll(items, structs)
    case ViewV(_) => Unpackable(NothingToWalk)
    case _ => Unpackable(NotWritable)
  }

  /** `iov_bytes` */
  method IovBytes(part: Value, structs: Structs) returns (r: Packed)
    ensures r == IovRun(part, structs)
  {
    if part.BytesV? { return Packed(part.raw); }
    if part.StructV? {
      r := WriteStruct(part, structs);
      return;
    }
    if part.ViewV? { return Unpackable(NothingToWalk); }
    if !part.ArrayV? { return Unpackable(NotWritable); }
    hide IovElement;
    var bytes: Bytes, vs := [], part.items;
    for i := 0 to |vs|
      invariant Joined(bytes, IovAll(vs[i..], structs)) == IovAll(vs, structs)
    {
      assert vs[i..][0] == vs[i] && vs[i..][1..] == vs[i + 1..];
      var raw := WriteElement(vs[i], structs);
      if raw.Unpackable? { return raw; }
      JoinedTwice(bytes, raw.bytes, IovAll(vs[i + 1..], structs));
      bytes := bytes + raw.bytes;
    }
    assert vs[|vs|..] == [];
    r := Packed(bytes);
  }

  /** A byte, or a struct that can be written. */
  predicate ElementWritable(v: Value, structs: Structs) {
    (v.IntV? && 0 <= v.n < 256) || (v.StructV? && PackStruct(v, structs).Packed?)
  }

  /** A run is written exactly if it is bytes already, a struct that can be written,
      or an array that owns its elements and each of them can be; the bytes of an
      array are its elements' one after another. */
  lemma RunWrittenExactly(part: Value, structs: Structs)
    ensures IovRun(part, structs).Packed? <==>
              part.BytesV? || (part.StructV? && PackStruct(part, structs).Packed?) ||
              (part.ArrayV? && forall i :: 0 <= i < |part.items| ==> ElementWritable(part.items[i], structs))
    ensures part.ArrayV? && IovRun(part, structs).Packed? ==>
              forall i :: 0 <= i <= |part.items| ==>
                IovAll(part.items[..i], structs).Packed? && IovAll(part.items[i..], structs).Packed? &&
                IovRun(part, structs).bytes
                == IovAll(part.items[..i], structs).bytes + IovAll(part.items[i..], structs).bytes
  {
    hide PackStruct;
    if part.ArrayV? {
      AllWritten(part.items, structs);
      if IovRun(part, structs).Packed? {
        forall i | 0 <= i <= |part.items|
          ensures IovAll(part.items[..i], structs).Packed? && IovAll(part.items[i..], structs).Packed?
          ensures IovRun(part, structs).bytes
                  == IovAll(part.items[..i], structs).bytes + IovAll(part.items[i..], structs).bytes
        {
          assert part.items[..i] + part.items[i..] == part.items;
          AllSplit(part.items[..i], part.items[i..], structs);
        }
      }
    }
  }

  lemma {:induction false} AllWritten(vs: seq<Value>, structs: Structs)
    ensures IovAll(vs, structs).Packed? <==> forall i :: 0 <= i < |vs| ==> ElementWritable(vs[i], structs)
  {
    hide PackStruct;
    if vs != [] {
      AllWritten(vs[1..], structs);
      assert forall i :: 0 <= i < |vs[1..]| ==> vs[1..][i] == vs[i + 1];
      assert forall i :: 1 <= i < |vs| ==> vs[i] == vs[1..][i - 1];
    }
  }

  lemma {:induction false} AllSplit(vs: seq<Value>, ws: seq<Value>, structs: Structs)
    requires IovAll(vs + ws, structs).Packed?
    ensures IovAll(vs, structs).Packed? && IovAll(ws, structs).Packed?
    ensures IovAll(vs + ws, structs).bytes == IovAll(vs, structs).bytes + IovAll(ws, structs).bytes
    decreases vs
  {
    hide IovElement;
    if vs == [] {
      assert vs + ws == ws;
    } else {
      assert (vs + ws)[1..] == vs[1..] + ws;
      AllSplit(vs[1..], ws, structs);
      var raw := IovElement(vs[0], structs).bytes;
      assert raw + (IovAll(vs[1..], structs).bytes + IovAll(ws, structs).bytes)
             == (raw + IovAll(vs[1..], structs).bytes) + IovAll(ws, structs).bytes;
    }
  }

  /** The same elements, owned and as the row of a reshaped array: the first is
      written, the second is not. */
  lemma RowIsNotWritten(structs: Structs)
    ensures IovRun(ArrayV([IntV(1), IntV(2)]), structs) == Packed([1, 2])
    ensures IovRun(ViewV([IntV(1), IntV(2)]), structs) == Unpackable(NothingToWalk)
  {
    assert [IntV(1), IntV(2)][1..] == [IntV(2)] && [IntV(2)][1..] == [];
    assert IovAll([IntV(2)], structs) == Packed([2] + []);
    assert IovAll([IntV(1), IntV(2)], structs) == Packed([1] + ([2] + []));
  }

  /** A table of structs that owns them is written as C lays an array of them out. */
  lemma {:induction false} TableIsAnArray(vs: seq<Value>, x: string, structs: Structs)
    requires x in structs && forall i :: 0 <= i < |vs| ==> vs[i].StructV?
    ensures IovRun(ArrayV(vs), structs) == PackItems(vs, Named(x), structs)
  {
    hide PackStruct;
    if vs != [] { TableIsAnArray(vs[1..], x, structs); }
  }
}
