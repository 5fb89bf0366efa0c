/** Where the fields of a `@repr(C)` struct sit (interp/layout.py): the
    aggregate rules of the System V AMD64 psABI, section 3.1.2. */
module Layout {
  import opened Arithmetic
  import opened Syntax

  /** A field's type, its name already resolved to what it names. */
  datatype Type =
    | Bool
    | Byte
    | USize
    | Int(signed: bool, bits: nat)
    | Fast(signed: bool, bits: nat)
    | Float(kind: FloatKind)
    | Unsized
    | OptionalType
    | Str
    | Enum(underlying: Type)
    | Array(element: Type, dims: seq<Option<nat>>)
    | Named(name: string)

  datatype FloatKind = F16 | BFloat16 | F32 | F64

  datatype Field = Field(name: string, ty: Type)
  datatype StructType = StructType(name: string, fields: seq<Field>, reprC: bool)

  /** The structs a name stands for. */
  type Structs = map<string, StructType>

  datatype LayoutError =
    | NotC(of: string)
    | ContainsItself(of: string)
    | NoCWidth(bits: nat)
    | ArbitraryPrecision
    | IsOptional
    | IsStr
    | OpenDimension
    | NoRepresentation
    | InField(of: string, field: string, why: LayoutError)

  datatype Result<T> = Ok(value: T) | Err(error: LayoutError)

  datatype Extent = Extent(size: nat, align: nat)
  datatype Placed = Placed(name: string, ty: Type, offset: nat, size: nat, align: nat)
  datatype StructLayout = StructLayout(size: nat, align: nat, fields: seq<Placed>)

  /** `_align_up` */
  function AlignUp(value: nat, alignment: nat): nat
    requires alignment > 0
  {
    (value + alignment - 1) / alignment * alignment
  }

  /** Whether an integer type may state a width at all: a bit is left for the
      value, and the widest are i127 and u128. */
  predicate StatesWidth(signed: bool, bits: nat) {
    (if signed then bits >= 2 else bits >= 1) && bits <= (if signed then 127 else 128)
  }

  /** The alignment `_stated_width_layout` doubles its way to. */
  function Doubled(align: nat, size: nat): nat
    requires align > 0
    decreases 8 - align
  {
    if align * 2 <= size && align < 8 then Doubled(align * 2, size) else align
  }

  function StatedWidth(bits: nat): Result<Extent> {
    if bits !in {8, 16, 32, 64} then Err(NoCWidth(bits))
    else var size := (bits + 7) / 8; Ok(Extent(size, Doubled(1, size)))
  }

  function FastBits(bits: nat): Option<nat> {
    if bits == 8 || bits == 16 then Some(32) else if bits == 32 || bits == 64 then Some(64) else None
  }

  function FloatBytes(k: FloatKind): nat {
    match k case F16 => 2 case BFloat16 => 2 case F32 => 4 case F64 => 8
  }

  /** How many elements the dimensions make. */
  function Product(dims: seq<Option<nat>>): nat
    requires forall i :: 0 <= i < |dims| ==> dims[i].Some?
  {
    if dims == [] then 1 else dims[0].value * Product(dims[1..])
  }

  predicate IsAlign(n: nat) { n == 1 || n == 2 || n == 4 || n == 8 }

  /** A power of two no larger than the platform's own, and a size that keeps
      the next one of the kind aligned. */
  predicate Fitting(x: Extent) { IsAlign(x.align) && x.size % x.align == 0 }

  function Known(structs: Structs): set<string> { set x | x in structs :: structs[x].name }

  /** The next multiple ... */
  lemma AlignUpIsMultiple(n: nat, a: nat)
    requires a > 0
    ensures n <= AlignUp(n, a) < n + a && AlignUp(n, a) % a == 0
  {
    DivMod(n + a - 1, a);
    ModOfMultiple((n + a - 1) / a, a);
  }

  /** ... and the least there is. */
  lemma AlignUpIsLeast(n: nat, a: nat, m: nat)
    requires a > 0 && m >= n && m % a == 0
    ensures AlignUp(n, a) <= m
  {
    DivMod(n + a - 1, a);
    DivMod(m, a);
    NoMultipleBetween((n + a - 1) / a, m / a, n, a);
  }

  /** `type_layout` */
  function TypeLayout(t: Type, structs: Structs, seen: set<string>): (r: Result<Extent>)
    ensures r.Ok? ==> Fitting(r.value)
    decreases Known(structs) - seen, 1, t
  {
    match t
    case Bool => Ok(Extent(1, 1))
    case Byte => Ok(Extent(1, 1))
    case USize => Ok(Extent(8, 8))
    case Float(k) => Ok(Extent(FloatBytes(k), FloatBytes(k)))
    case Int(signed, bits) => if StatesWidth(signed, bits) then StatedWidth(bits) else Err(NoRepresentation)
    case Fast(_, bits) =>
      (match FastBits(bits) case None => Err(NoRepresentation) case Some(b) => Ok(Extent(b / 8, b / 8)))
    case Unsized => Err(ArbitraryPrecision)
    case OptionalType => Err(IsOptional)
    case Str => Err(IsStr)
    case Enum(under) => TypeLayout(under, structs, seen)
    case Array(element, dims) =>
      if exists i :: 0 <= i < |dims| && dims[i].None? then Err(OpenDimension) else
      (match TypeLayout(element, structs, seen)
       case Err(e) => Err(e)
       case Ok(x) => MultipleTimes(x.size, Product(dims), x.align); Ok(Extent(x.size * Product(dims), x.align)))
    case Named(x) =>
      if x !in structs then Err(NoRepresentation) else
      assert Known(structs) + {structs[x].name} == Known(structs);
      (match LayOut(structs[x], structs, seen)
       case Err(e) => Err(e)
       case Ok(l) => Ok(Extent(l.size, l.align)))
  }

  /** What a C compiler for this platform makes of the scalars whose names say
      nothing of width ... */
  lemma ScalarsAsInC(structs: Structs, seen: set<string>)
    ensures TypeLayout(Bool, structs, seen) == TypeLayout(Byte, structs, seen) == Ok(Extent(1, 1))
    ensures TypeLayout(USize, structs, seen) == TypeLayout(Float(F64), structs, seen) == Ok(Extent(8, 8))
    ensures TypeLayout(Float(F32), structs, seen) == Ok(Extent(4, 4))
    ensures TypeLayout(Float(F16), structs, seen) == TypeLayout(Float(BFloat16), structs, seen) == Ok(Extent(2, 2))
    ensures TypeLayout(Unsized, structs, seen) == Err(ArbitraryPrecision)
    ensures TypeLayout(OptionalType, structs, seen) == Err(IsOptional) && TypeLayout(Str, structs, seen) == Err(IsStr)
  {}

  /** ... of an integer that states its width ... */
  lemma IntegerAsInC(signed: bool, bits: nat, structs: Structs, seen: set<string>)
    ensures var r := TypeLayout(Int(signed, bits), structs, seen);
            if bits in {8, 16, 32, 64} then r.Ok? && 8 * r.value.size == bits && r.value.align == r.value.size
            else r.Err?
  {
    assert Doubled(1, 8) == 8 && Doubled(1, 4) == 4 by {
      assert Doubled(8, 8) == 8 && Doubled(4, 4) == 4 && Doubled(4, 8) == 8 && Doubled(2, 8) == 8 && Doubled(2, 4) == 4;
    }
    assert Doubled(1, 2) == 2 by { assert Doubled(2, 2) == 2; }
    hide Doubled;
  }

  /** ... and of a fast one, which is as wide as the machine does best. */
  lemma FastAsInC(signed: bool, bits: nat, structs: Structs, seen: set<string>)
    ensures var r := TypeLayout(Fast(signed, bits), structs, seen);
            (bits in {8, 16} ==> r == Ok(Extent(4, 4))) && (bits in {32, 64} ==> r == Ok(Extent(8, 8))) &&
            (bits !in {8, 16, 32, 64} ==> r.Err?)
  {}

  /** Fields placed so far, the first free byte and the largest alignment. */
  datatype Placing = Placing(fields: seq<Placed>, offset: nat, align: nat)

  function Place(p: Placing, f: Field, x: Extent): Placing
    requires x.align > 0
  {
    var at := AlignUp(p.offset, x.align);
    Placing(p.fields + [Placed(f.name, f.ty, at, x.size, x.align)], at + x.size,
            if x.align > p.align then x.align else p.align)
  }

  function PlaceAll(fields: seq<Field>, of: string, p: Placing, structs: Structs,
                    seen: set<string>): (r: Result<Placing>)
    requires IsAlign(p.align)
    ensures r.Ok? ==> IsAlign(r.value.align)
    decreases Known(structs) - seen, 2, fields
  {
    if fields == [] then Ok(p) else
    match TypeLayout(fields[0].ty, structs, seen)
    case Err(e) => Err(InField(of, fields[0].name, e))
    case Ok(x) =>
      PlaceAll(fields[1..], of, Place(p, fields[0], x), structs, seen)
  }

  /** `struct_layout` */
  function LayOut(st: StructType, structs: Structs, seen: set<string>): (r: Result<StructLayout>)
    ensures r.Ok? ==> Fitting(Extent(r.value.size, r.value.align))
    decreases Known(structs) + {st.name} - seen, 0
  {
    if !st.reprC then Err(NotC(st.name))
    else if st.name in seen then Err(ContainsItself(st.name))
    else
      assert Known(structs) - (seen + {st.name}) < Known(structs) + {st.name} - seen;
      match PlaceAll(st.fields, st.name, Placing([], 0, 1), structs, seen + {st.name})
      case Err(e) => Err(e)
      case Ok(p) =>
        AlignUpIsMultiple(p.offset, p.align);
        Ok(StructLayout(AlignUp(p.offset, p.align), p.align, p.fields))
  }

  // ---- how a struct's fields lie -----------------------------------------------------

  /** The first byte after field `i - 1`. */
  function End(fs: seq<Placed>, i: nat): nat
    requires i <= |fs|
  {
    if i == 0 then 0 else fs[i - 1].offset + fs[i - 1].size
  }

  /** Every field at the next byte its alignment allows. */
  predicate Tight(fs: seq<Placed>) {
    forall i :: 0 <= i < |fs| ==> IsAlign(fs[i].align) && fs[i].offset == AlignUp(End(fs, i), fs[i].align)
  }

  /** The largest alignment among the fields, one where there are none. */
  predicate Largest(align: nat, fs: seq<Placed>) {
    (forall i :: 0 <= i < |fs| ==> fs[i].align <= align) &&
    (align == 1 || exists i :: 0 <= i < |fs| && fs[i].align == align)
  }

  predicate WellPlaced(p: Placing) {
    p.offset == End(p.fields, |p.fields|) && Tight(p.fields) && Largest(p.align, p.fields) && IsAlign(p.align)
  }

  lemma PlaceStaysTight(p: Placing, f: Field, x: Extent)
    requires WellPlaced(p) && IsAlign(x.align)
    ensures WellPlaced(Place(p, f, x))
  {
    hide AlignUp, Largest;
    LargestGrows(p, f, x);
    var q := Place(p, f, x);
    var n := |p.fields|;
    forall i | 0 <= i < n + 1 ensures q.fields[i].offset == AlignUp(End(q.fields, i), q.fields[i].align) {
      assert i < n ==> End(q.fields, i) == End(p.fields, i);
    }
  }

  lemma LargestGrows(p: Placing, f: Field, x: Extent)
    requires Largest(p.align, p.fields) && IsAlign(x.align)
    ensures Largest(Place(p, f, x).align, Place(p, f, x).fields)
  {
    hide AlignUp;
    var q := Place(p, f, x);
    var n := |p.fields|;
    assert q.fields[n].align == x.align;
    if p.align != 1 {
      var i :| 0 <= i < n && p.fields[i].align == p.align;
      assert q.fields[i] == p.fields[i];
    }
  }

  /** What a placed field records of the one declared. */
  predicate Records(f: Placed, declared: Field, structs: Structs, seen: set<string>) {
    f.name == declared.name && f.ty == declared.ty &&
    TypeLayout(declared.ty, structs, seen) == Ok(Extent(f.size, f.align))
  }

  lemma RecordsPlaced(p: Placing, f: Field, x: Extent, structs: Structs, seen: set<string>)
    requires TypeLayout(f.ty, structs, seen) == Ok(x)
    ensures var q := Place(p, f, x).fields;
            |q| == |p.fields| + 1 && q[..|p.fields|] == p.fields && Records(q[|p.fields|], f, structs, seen)
  {
    hide TypeLayout;
  }

  lemma {:induction false} PlaceAllIsTight(fields: seq<Field>, of: string, p: Placing, structs: Structs,
                                           seen: set<string>)
    requires WellPlaced(p) && IsAlign(p.align) && PlaceAll(fields, of, p, structs, seen).Ok?
    ensures var q := PlaceAll(fields, of, p, structs, seen).value;
            WellPlaced(q) && |q.fields| == |p.fields| + |fields| && q.fields[..|p.fields|] == p.fields &&
            forall i :: 0 <= i < |fields| ==> Records(q.fields[|p.fields| + i], fields[i], structs, seen)
    decreases |fields|
  {
    hide WellPlaced;
    if fields != [] {
      var x := TypeLayout(fields[0].ty, structs, seen).value;
      PlaceStaysTight(p, fields[0], x);
      var p1 := Place(p, fields[0], x);
      PlaceAllIsTight(fields[1..], of, p1, structs, seen);
      var q := PlaceAll(fields, of, p, structs, seen).value;
      var n := |p.fields|;
      assert q.fields[..n] == q.fields[..n + 1][..n];
      assert q.fields[n] == q.fields[..n + 1][n];
      RecordsPlaced(p, fields[0], x, structs, seen);
      hide Records, Place, PlaceAll, TypeLayout;
      assert q.fields[n] == p1.fields[n];
      forall i | 0 <= i < |fields| ensures Records(q.fields[n + i], fields[i], structs, seen) {
        if i > 0 {
          assert fields[i] == fields[1..][i - 1];
          assert Records(q.fields[|p1.fields| + (i - 1)], fields[1..][i - 1], structs, seen);
        }
      }
    }
  }

  /** A struct's fields lie in the order declared, each as its type lays out, at
      the least offset its alignment allows; the struct aligns as the strictest
      of them and ends at the next multiple of that. */
  lemma StructIsTight(st: StructType, structs: Structs, seen: set<string>)
    requires LayOut(st, structs, seen).Ok?
    ensures var l := LayOut(st, structs, seen).value;
            |l.fields| == |st.fields| && Tight(l.fields) && Largest(l.align, l.fields) && IsAlign(l.align) &&
            l.size == AlignUp(End(l.fields, |l.fields|), l.align) &&
            forall i :: 0 <= i < |st.fields| ==> Records(l.fields[i], st.fields[i], structs, seen + {st.name})
  {
    PlaceAllIsTight(st.fields, st.name, Placing([], 0, 1), structs, seen + {st.name});
  }

  /** Fields never overlap, stand in order, and none reaches past the end. */
  lemma {:induction false} FieldsApart(fs: seq<Placed>, i: nat, j: nat)
    requires Tight(fs) && i < j <= |fs|
    ensures fs[i].offset % fs[i].align == 0
    ensures fs[i].offset + fs[i].size <= (if j == |fs| then End(fs, j) else fs[j].offset)
    decreases j
  {
    hide AlignUp;
    AlignUpIsMultiple(End(fs, i), fs[i].align);
    if j < |fs| { AlignUpIsMultiple(End(fs, j), fs[j].align); }
    if j > i + 1 { FieldsApart(fs, i, j - 1); }
  }

  /** Another way of placing the same fields: aligned, and in order. */
  predicate Admissible(fs: seq<Placed>, at: seq<nat>) {
    |at| == |fs| &&
    forall i :: 0 <= i < |fs| ==>
      fs[i].align > 0 && at[i] % fs[i].align == 0 && (i > 0 ==> at[i - 1] + fs[i - 1].size <= at[i])
  }

  /** No aligned placement in the declared order puts any field sooner ... */
  lemma {:induction false} NoFieldSooner(fs: seq<Placed>, at: seq<nat>, i: nat)
    requires Tight(fs) && Admissible(fs, at) && i < |fs|
    ensures fs[i].offset <= at[i]
  {
    hide AlignUp;
    if i > 0 { NoFieldSooner(fs, at, i - 1); }
    AlignUpIsLeast(End(fs, i), fs[i].align, at[i]);
  }

  /** ... nor makes a struct smaller that is to stand in an array. */
  lemma NoStructSmaller(st: StructType, structs: Structs, seen: set<string>, at: seq<nat>, size: nat)
    requires LayOut(st, structs, seen).Ok?
    requires var l := LayOut(st, structs, seen).value;
             Admissible(l.fields, at) && size % l.align == 0 &&
             forall i :: 0 <= i < |l.fields| ==> at[i] + l.fields[i].size <= size
    ensures LayOut(st, structs, seen).value.size <= size
  {
    hide AlignUp;
    hide LayOut, Admissible, Tight, Largest;
    var l := LayOut(st, structs, seen).value;
    StructIsTight(st, structs, seen);
    var n := |l.fields|;
    if n > 0 { NoFieldSooner(l.fields, at, n - 1); }
    AlignUpIsLeast(End(l.fields, n), l.align, size);
  }

  // ---- scalars at any depth -----------------------------------------------------------------

  predicate IsScalar(t: Type) { !t.Array? && !t.Named? }

  /** A scalar found inside a type: where, how large and how aligned. */
  datatype Leaf = Leaf(offset: nat, ty: Type, size: nat, align: nat)

  /** The scalar a path reaches, each step a field's or an element's number. */
  function LeafAt(t: Type, path: seq<nat>, structs: Structs, seen: set<string>): Option<Leaf>
    requires TypeLayout(t, structs, seen).Ok?
    decreases |path|
  {
    if IsScalar(t) then
      var x := TypeLayout(t, structs, seen).value;
      if path == [] then Some(Leaf(0, t, x.size, x.align)) else None
    else if path == [] then None
    else if t.Array? then
      if path[0] >= Product(t.dims) then None else
      var size := TypeLayout(t.element, structs, seen).value.size;
      Shifted(path[0] * size, LeafAt(t.element, path[1..], structs, seen))
    else
      var st := structs[t.name];
      StructIsTight(st, structs, seen);
      var l := LayOut(st, structs, seen).value;
      if path[0] >= |l.fields| then None else
      assert Records(l.fields[path[0]], st.fields[path[0]], structs, seen + {st.name});
      Shifted(l.fields[path[0]].offset, LeafAt(l.fields[path[0]].ty, path[1..], structs, seen + {st.name}))
  }

  function Shifted(n: nat, leaf: Option<Leaf>): Option<Leaf> {
    if leaf.None? then None else Some(leaf.value.(offset := n + leaf.value.offset))
  }

  /** Inside an extent, at a multiple of its own alignment. */
  predicate Sits(leaf: Leaf, x: Extent) {
    IsAlign(leaf.align) && leaf.align <= x.align && leaf.offset % leaf.align == 0 && leaf.offset + leaf.size <= x.size
  }

  /** Between alignments, the smaller divides the larger. */
  lemma AlignsDivide(n: nat, small: nat, large: nat)
    requires IsAlign(small) && IsAlign(large) && small <= large && n % large == 0
    ensures n % small == 0
  {
    DivMod(n, large);
    var q := n / large;
    var k := if small == large then 1 else if small * 2 == large then 2 else if small * 4 == large then 4 else 8;
    Split(q, k, small, large);
    ModOfMultiple(q * k, small);
  }

  lemma SumAligned(n: nat, m: nat, a: nat)
    requires IsAlign(a) && n % a == 0 && m % a == 0
    ensures (n + m) % a == 0
  {
    DivMod(n, a);
    DivMod(m, a);
    Distributed(n / a, m / a, a);
    ModOfMultiple(n / a + m / a, a);
  }

  lemma ScalarSits(t: Type, structs: Structs, seen: set<string>)
    requires IsScalar(t) && TypeLayout(t, structs, seen).Ok?
    ensures var x := TypeLayout(t, structs, seen).value; Sits(Leaf(0, t, x.size, x.align), x)
  {}

  lemma ShiftedSits(leaf: Leaf, x: Extent, at: nat, whole: Extent)
    requires Sits(leaf, x) && IsAlign(x.align) && IsAlign(whole.align) && x.align <= whole.align
    requires at % x.align == 0 && at + x.size <= whole.size
    ensures Sits(leaf.(offset := at + leaf.offset), whole)
  {
    AlignsDivide(at, leaf.align, x.align);
    SumAligned(at, leaf.offset, leaf.align);
  }

  /** Element `k` of an array lies within it, aligned as its type asks. */
  lemma ElementSits(x: Extent, k: nat, count: nat)
    requires Fitting(x) && k < count
    ensures k * x.size % x.align == 0 && k * x.size + x.size <= x.size * count
  {
    MultipleTimes(x.size, k, x.align);
    OneBefore(k, count, x.size);
  }

  lemma FieldSits(st: StructType, structs: Structs, seen: set<string>, i: nat)
    requires LayOut(st, structs, seen).Ok? && i < |LayOut(st, structs, seen).value.fields|
    ensures var l := LayOut(st, structs, seen).value;
            i < |st.fields| && var f := l.fields[i];
            Records(f, st.fields[i], structs, seen + {st.name}) && IsAlign(f.align) && IsAlign(l.align) &&
            f.align <= l.align && f.offset % f.align == 0 && f.offset + f.size <= l.size
  {
    StructIsTight(st, structs, seen);
    var l := LayOut(st, structs, seen).value;
    hide AlignUp;
    FieldsApart(l.fields, i, |l.fields|);
    AlignUpIsMultiple(End(l.fields, |l.fields|), l.align);
  }

  /** Every scalar, through any nesting of structs and arrays, lies inside the
      whole at a multiple of its own alignment. */
  lemma {:induction false} LeafSits(t: Type, path: seq<nat>, structs: Structs, seen: set<string>)
    requires TypeLayout(t, structs, seen).Ok? && LeafAt(t, path, structs, seen).Some?
    ensures Sits(LeafAt(t, path, structs, seen).value, TypeLayout(t, structs, seen).value)
    decreases |path|
  {
    hide LayOut, AlignUp, Tight, Largest, Sits, Product;
    var whole := TypeLayout(t, structs, seen).value;
    if IsScalar(t) {
      ScalarSits(t, structs, seen);
    } else if t.Array? {
      var x := TypeLayout(t.element, structs, seen).value;
      LeafSits(t.element, path[1..], structs, seen);
      ElementSits(x, path[0], Product(t.dims));
      ShiftedSits(LeafAt(t.element, path[1..], structs, seen).value, x, path[0] * x.size, whole);
    } else {
      var st := structs[t.name];
      FieldSits(st, structs, seen, path[0]);
      var f := LayOut(st, structs, seen).value.fields[path[0]];
      LeafSits(f.ty, path[1..], structs, seen + {st.name});
      ShiftedSits(LeafAt(f.ty, path[1..], structs, seen + {st.name}).value, Extent(f.size, f.align), f.offset, whole);
    }
  }

  /** ... so wherever the whole is put at a multiple of its alignment, so is
      every scalar in it. */
  lemma LeafAddressAligned(t: Type, path: seq<nat>, structs: Structs, seen: set<string>, base: nat)
    requires TypeLayout(t, structs, seen).Ok? && LeafAt(t, path, structs, seen).Some?
    requires base % TypeLayout(t, structs, seen).value.align == 0
    ensures var leaf := LeafAt(t, path, structs, seen).value; leaf.align > 0 && (base + leaf.offset) % leaf.align == 0
  {
    hide TypeLayout, LeafAt;
    LeafSits(t, path, structs, seen);
    var leaf := LeafAt(t, path, structs, seen).value;
    AlignsDivide(base, leaf.align, TypeLayout(t, structs, seen).value.align);
    SumAligned(base, leaf.offset, leaf.align);
  }

  predicate Apart(a: Leaf, b: Leaf) { a.offset + a.size <= b.offset || b.offset + b.size <= a.offset }

  predicate Inside(leaf: Leaf, size: nat) { leaf.offset + leaf.size <= size }

  lemma LeafInside(t: Type, path: seq<nat>, structs: Structs, seen: set<string>)
    requires TypeLayout(t, structs, seen).Ok? && LeafAt(t, path, structs, seen).Some?
    ensures Inside(LeafAt(t, path, structs, seen).value, TypeLayout(t, structs, seen).value.size)
  {
    LeafSits(t, path, structs, seen);
  }

  lemma ElementsApart(a: Leaf, b: Leaf, size: nat, i: nat, j: nat)
    requires Inside(a, size) && Inside(b, size) && i != j
    ensures Apart(a.(offset := i * size + a.offset), b.(offset := j * size + b.offset))
  {
    if i < j { OneBefore(i, j, size); } else { OneBefore(j, i, size); }
  }

  /** Two scalars reached by different paths share no byte. */
  lemma {:induction false} LeavesApart(t: Type, p: seq<nat>, q: seq<nat>, structs: Structs, seen: set<string>)
    requires TypeLayout(t, structs, seen).Ok? && p != q
    requires LeafAt(t, p, structs, seen).Some? && LeafAt(t, q, structs, seen).Some?
    ensures Apart(LeafAt(t, p, structs, seen).value, LeafAt(t, q, structs, seen).value)
    decreases |p|, 1
  {
    if t.Array? {
      hide LayOut, Sits, Inside;
      if p[0] == q[0] {
        assert p == [p[0]] + p[1..] && q == [q[0]] + q[1..];
        LeavesApart(t.element, p[1..], q[1..], structs, seen);
      } else {
        var x := TypeLayout(t.element, structs, seen).value;
        LeafInside(t.element, p[1..], structs, seen);
        LeafInside(t.element, q[1..], structs, seen);
        ElementsApart(LeafAt(t.element, p[1..], structs, seen).value, LeafAt(t.element, q[1..], structs, seen).value,
                      x.size, p[0], q[0]);
      }
    } else {
      StructLeavesApart(t, p, q, structs, seen);
    }
  }

  lemma {:induction false} StructLeavesApart(t: Type, p: seq<nat>, q: seq<nat>, structs: Structs, seen: set<string>)
    requires t.Named? && TypeLayout(t, structs, seen).Ok? && p != q
    requires LeafAt(t, p, structs, seen).Some? && LeafAt(t, q, structs, seen).Some?
    ensures Apart(LeafAt(t, p, structs, seen).value, LeafAt(t, q, structs, seen).value)
    decreases |p|, 0
  {
    hide LayOut, Sits, AlignUp, Largest, Tight;
    var st := structs[t.name];
    StructIsTight(st, structs, seen);
    var fs := LayOut(st, structs, seen).value.fields;
    var inner := seen + {st.name};
    assert Records(fs[p[0]], st.fields[p[0]], structs, inner) && Records(fs[q[0]], st.fields[q[0]], structs, inner);
    if p[0] == q[0] {
      assert p == [p[0]] + p[1..] && q == [q[0]] + q[1..];
      LeavesApart(fs[p[0]].ty, p[1..], q[1..], structs, inner);
    } else {
      LeafInside(fs[p[0]].ty, p[1..], structs, inner);
      LeafInside(fs[q[0]].ty, q[1..], structs, inner);
      if p[0] < q[0] { FieldBefore(fs, p[0], q[0]); } else { FieldBefore(fs, q[0], p[0]); }
    }
  }

  lemma FieldBefore(fs: seq<Placed>, i: nat, j: nat)
    requires Tight(fs) && i < j < |fs|
    ensures fs[i].offset + fs[i].size <= fs[j].offset
  {
    hide AlignUp;
    FieldsApart(fs, i, j);
  }

  // ---- what is on the way down only ever refuses -----------------------------------------

  /** A layout that is found is the same whatever structs it was asked for
      inside of: `seen` decides whether there is one, never which. */
  lemma {:induction false} SeenOnlyRefuses(st: StructType, structs: Structs, seen: set<string>, less: set<string>)
    requires LayOut(st, structs, seen).Ok? && less <= seen
    ensures LayOut(st, structs, less) == LayOut(st, structs, seen)
    decreases Known(structs) + {st.name} - seen, 0
  {
    assert Known(structs) - (seen + {st.name}) < Known(structs) + {st.name} - seen;
    SeenOnlyRefusesFields(st.fields, st.name, Placing([], 0, 1), structs, seen + {st.name}, less + {st.name});
  }

  lemma {:induction false} SeenOnlyRefusesFields(fields: seq<Field>, of: string, p: Placing, structs: Structs,
                                                 seen: set<string>, less: set<string>)
    requires IsAlign(p.align) && PlaceAll(fields, of, p, structs, seen).Ok? && less <= seen
    ensures PlaceAll(fields, of, p, structs, less) == PlaceAll(fields, of, p, structs, seen)
    decreases Known(structs) - seen, 2, fields
  {
    hide TypeLayout;
    if fields != [] {
      SeenOnlyRefusesType(fields[0].ty, structs, seen, less);
      var x := TypeLayout(fields[0].ty, structs, seen).value;
      SeenOnlyRefusesFields(fields[1..], of, Place(p, fields[0], x), structs, seen, less);
    }
  }

  lemma {:induction false} SeenOnlyRefusesType(t: Type, structs: Structs, seen: set<string>, less: set<string>)
    requires TypeLayout(t, structs, seen).Ok? && less <= seen
    ensures TypeLayout(t, structs, less) == TypeLayout(t, structs, seen)
    decreases Known(structs) - seen, 1, t
  {
    hide LayOut;
    match t
    case Enum(under) => SeenOnlyRefusesType(under, structs, seen, less);
    case Array(element, _) => SeenOnlyRefusesType(element, structs, seen, less);
    case Named(x) =>
      assert Known(structs) + {structs[x].name} == Known(structs);
      SeenOnlyRefuses(structs[x], structs, seen, less);
    case _ =>
  }

  // ---- which structs have a layout ---------------------------------------------------------

  /** The structs a type holds. */
  function Mentions(t: Type): set<string> {
    match t
    case Enum(under) => Mentions(under)
    case Array(element, _) => Mentions(element)
    case Named(x) => {x}
    case _ => {}
  }

  /** Whether everything about a type but what its structs hold is fit for C. */
  predicate Representable(t: Type, structs: Structs) {
    match t
    case Int(signed, bits) => StatesWidth(signed, bits) && bits in {8, 16, 32, 64}
    case Fast(_, bits) => FastBits(bits).Some?
    case Unsized => false
    case OptionalType => false
    case Str => false
    case Enum(under) => Representable(under, structs)
    case Array(element, dims) => (forall i :: 0 <= i < |dims| ==> dims[i].Some?) && Representable(element, structs)
    case Named(x) => x in structs
    case _ => true
  }

  predicate OtherwiseFit(structs: Structs) {
    forall x :: x in structs ==>
      structs[x].name == x && structs[x].reprC &&
      forall i :: 0 <= i < |structs[x].fields| ==> Representable(structs[x].fields[i].ty, structs)
  }

  /** A struct has a field that holds another, itself or in an array. */
  predicate Holds(structs: Structs, x: string, y: string) {
    x in structs && exists i :: 0 <= i < |structs[x].fields| && y in Mentions(structs[x].fields[i].ty)
  }

  predicate Path(structs: Structs, p: seq<string>) {
    |p| > 0 && p[0] in structs && forall i :: 0 <= i < |p| - 1 ==> Holds(structs, p[i], p[i + 1])
  }

  predicate Repeats(p: seq<string>) { exists i, j :: 0 <= i < j < |p| && p[i] == p[j] }

  lemma {:induction false} MentionedHasLayout(t: Type, structs: Structs, seen: set<string>, y: string)
    requires TypeLayout(t, structs, seen).Ok? && y in Mentions(t)
    ensures y in structs && LayOut(structs[y], structs, seen).Ok?
    decreases t
  {
    hide LayOut;
    match t
    case Enum(under) => MentionedHasLayout(under, structs, seen, y);
    case Array(element, _) => MentionedHasLayout(element, structs, seen, y);
    case _ =>
  }

  /** Where a struct has a layout, no path of structs holding structs comes back
      to one it has been through. */
  lemma {:induction false} LayoutHasNoRing(p: seq<string>, structs: Structs, seen: set<string>)
    requires OtherwiseFit(structs) && Path(structs, p) && LayOut(structs[p[0]], structs, seen).Ok?
    ensures !Repeats(p) && forall i :: 0 <= i < |p| ==> p[i] !in seen
    decreases |p|
  {
    if |p| > 1 {
      var st := structs[p[0]];
      assert Holds(structs, p[0], p[1]);
      var i :| 0 <= i < |st.fields| && p[1] in Mentions(st.fields[i].ty);
      StructIsTight(st, structs, seen);
      assert Records(LayOut(st, structs, seen).value.fields[i], st.fields[i], structs, seen + {st.name});
      MentionedHasLayout(st.fields[i].ty, structs, seen + {st.name}, p[1]);
      forall k | 0 <= k < |p[1..]| - 1 ensures Holds(structs, p[1..][k], p[1..][k + 1]) {
        assert p[1..][k] == p[k + 1] && p[1..][k + 1] == p[k + 2];
      }
      LayoutHasNoRing(p[1..], structs, seen + {st.name});
      Prepended(p, seen);
    }
  }

  lemma Prepended(p: seq<string>, seen: set<string>)
    requires |p| > 1 && !Repeats(p[1..]) && p[0] !in seen
    requires forall i :: 0 <= i < |p[1..]| ==> p[1..][i] !in seen + {p[0]}
    ensures !Repeats(p) && forall i :: 0 <= i < |p| ==> p[i] !in seen
  {
    forall i | 1 <= i < |p| ensures p[i] !in seen + {p[0]} { assert p[1..][i - 1] == p[i]; }
    forall i, j | 0 <= i < j < |p| ensures p[i] != p[j] {
      if i > 0 { assert p[1..][i - 1] == p[i] && p[1..][j - 1] == p[j]; }
    }
  }

  lemma {:induction false} RefusedField(fields: seq<Field>, of: string, p: Placing, structs: Structs,
                                        seen: set<string>) returns (i: nat)
    requires IsAlign(p.align) && PlaceAll(fields, of, p, structs, seen).Err?
    ensures i < |fields| && TypeLayout(fields[i].ty, structs, seen).Err?
    decreases |fields|
  {
    hide TypeLayout;
    var r := TypeLayout(fields[0].ty, structs, seen);
    if r.Err? {
      i := 0;
    } else {
      var j := RefusedField(fields[1..], of, Place(p, fields[0], r.value), structs, seen);
      i := j + 1;
    }
  }

  lemma {:induction false} RefusedType(t: Type, structs: Structs, seen: set<string>) returns (y: string)
    requires Representable(t, structs) && TypeLayout(t, structs, seen).Err?
    ensures y in Mentions(t) && y in structs && LayOut(structs[y], structs, seen).Err?
    decreases t
  {
    hide LayOut;
    match t
    case Enum(under) => y := RefusedType(under, structs, seen);
    case Array(element, _) => y := RefusedType(element, structs, seen);
    case Named(x) => y := x;
    case _ =>
  }

  /** Where a struct is refused, some path leads from it back onto itself or to
      one of those it was asked for inside of. */
  lemma {:induction false} RefusalHasRing(x: string, structs: Structs, seen: set<string>) returns (p: seq<string>)
    requires OtherwiseFit(structs) && x in structs && LayOut(structs[x], structs, seen).Err?
    ensures Path(structs, p) && p[0] == x && (p[|p| - 1] in seen || p[|p| - 1] in p[..|p| - 1])
    decreases Known(structs) + {x} - seen
  {
    if x in seen {
      p := [x];
    } else {
      var st := structs[x];
      var i := RefusedField(st.fields, x, Placing([], 0, 1), structs, seen + {x});
      var y := RefusedType(st.fields[i].ty, structs, seen + {x});
      assert structs[y].name in Known(structs) && structs[x].name in Known(structs);
      assert Known(structs) + {y} - (seen + {x}) < Known(structs) + {x} - seen;
      var q := RefusalHasRing(y, structs, seen + {x});
      p := [x] + q;
      assert Holds(structs, x, y);
      forall k | 0 <= k < |p| - 1 ensures Holds(structs, p[k], p[k + 1]) {
        if k > 0 { assert p[k] == q[k - 1] && p[k + 1] == q[k]; }
      }
      assert p[..|p| - 1] == [x] + q[..|q| - 1];
    }
  }

  /** Where the fields are otherwise fit for C, a struct has a layout exactly
      when no struct it reaches reaches itself. */
  lemma LaysOutExactly(x: string, structs: Structs)
    requires OtherwiseFit(structs) && x in structs
    ensures LayOut(structs[x], structs, {}).Ok? <==> !exists p :: Path(structs, p) && p[0] == x && Repeats(p)
  {
    if LayOut(structs[x], structs, {}).Ok? {
      forall p | Path(structs, p) && p[0] == x ensures !Repeats(p) { LayoutHasNoRing(p, structs, {}); }
    } else {
      var p := RefusalHasRing(x, structs, {});
      var i :| 0 <= i < |p| - 1 && p[..|p| - 1][i] == p[|p| - 1];
      assert p[i] == p[|p| - 1];
      assert Repeats(p);
    }
  }

  // ---- the loops as they are written ------------------------------------------------------

  lemma {:induction false} ProductAppend(dims: seq<Option<nat>>, n: nat)
    requires forall i :: 0 <= i < |dims| ==> dims[i].Some?
    ensures Product(dims + [Some(n)]) == Product(dims) * n
  {
    if dims == [] {
      assert Product([Some(n)]) == n * Product([]);
    } else {
      assert (dims + [Some(n)])[1..] == dims[1..] + [Some(n)];
      ProductAppend(dims[1..], n);
      Reassociated(dims[0].value, Product(dims[1..]), n);
    }
  }

  /** `_stated_width_layout`: doubling for as long as the bytes reach. */
  method StatedWidthLayout(bits: nat) returns (r: Result<Extent>)
    ensures r == StatedWidth(bits)
    ensures r.Ok? <==> bits in {8, 16, 32, 64}
    ensures r.Ok? ==> r.value == Extent(bits / 8, bits / 8)
  {
    if bits !in {8, 16, 32, 64} { return Err(NoCWidth(bits)); }
    var size := (bits + 7) / 8;
    var align := 1;
    while align * 2 <= size && align < 8
      invariant align > 0 && Doubled(align, size) == Doubled(1, size)
      decreases 8 - align
    {
      align := align * 2;
    }
    r := Ok(Extent(size, align));
  }

  /** `type_layout` */
  method LayOutType(t: Type, structs: Structs, seen: set<string>) returns (r: Result<Extent>)
    ensures r == TypeLayout(t, structs, seen)
    decreases Known(structs) - seen, 1, t
  {
    match t
    case Int(signed, bits) =>
      if StatesWidth(signed, bits) { r := StatedWidthLayout(bits); } else { r := Err(NoRepresentation); }
    case Enum(under) => r := LayOutType(under, structs, seen);
    case Array(element, dims) =>
      if exists i :: 0 <= i < |dims| && dims[i].None? { return Err(OpenDimension); }
      r := LayOutType(element, structs, seen);
      if r.Err? { return; }
      var size := r.value.size;
      for i := 0 to |dims|
        invariant size == r.value.size * Product(dims[..i])
      {
        ProductAppend(dims[..i], dims[i].value);
        assert dims[..i + 1] == dims[..i] + [dims[i]];
        Reassociated(r.value.size, Product(dims[..i]), dims[i].value);
        size := size * dims[i].value;
      }
      assert dims[..|dims|] == dims;
      r := Ok(Extent(size, r.value.align));
    case Named(x) =>
      if x !in structs { return Err(NoRepresentation); }
      assert Known(structs) + {structs[x].name} == Known(structs);
      var l := LayOutStruct(structs[x], structs, seen);
      r := if l.Err? then Err(l.error) else Ok(Extent(l.value.size, l.value.align));
    case _ => r := TypeLayout(t, structs, seen);
  }


  /** `struct_layout`: the offset, the alignment and the fields grow in one loop. */
  method LayOutStruct(st: StructType, structs: Structs, seen: set<string>) returns (r: Result<StructLayout>)
    ensures r == LayOut(st, structs, seen)
    decreases Known(structs) + {st.name} - seen, 0
  {
    hide TypeLayout, AlignUp;
    if !st.reprC { return Err(NotC(st.name)); }
    if st.name in seen { return Err(ContainsItself(st.name)); }
    var inner := seen + {st.name};
    assert Known(structs) - inner < Known(structs) + {st.name} - seen;
    var offset: nat, align: nat, fields: seq<Placed> := 0, 1, [];
    for i := 0 to |st.fields|
      invariant IsAlign(align)
      invariant PlaceAll(st.fields[i..], st.name, Placing(fields, offset, align), structs, inner)
             == PlaceAll(st.fields, st.name, Placing([], 0, 1), structs, inner)
    {
      var f := st.fields[i];
      assert st.fields[i..][0] == f && st.fields[i..][1..] == st.fields[i + 1..];
      var x := LayOutType(f.ty, structs, inner);
      if x.Err? { return Err(InField(st.name, f.name, x.error)); }
      offset := AlignUp(offset, x.value.align);
      fields := fields + [Placed(f.name, f.ty, offset, x.value.size, x.value.align)];
      offset := offset + x.value.size;
      align := if x.value.align > align then x.value.align else align;
    }
    assert st.fields[|st.fields|..] == [];
    r := Ok(StructLayout(AlignUp(offset, align), align, fields));
  }
}
