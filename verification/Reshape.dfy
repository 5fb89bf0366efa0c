/** Giving data a shape, by copying it or by looking into it where it is
    (interp/eval.py). */
module Reshape {
  import opened Arithmetic
  import opened Syntax

  /** A shaped array that owns its cells, and one that looks into a list others
      hold too. */
  datatype Shaped<T> = Row(cells: seq<T>) | Stack(rows: seq<Shaped<T>>)
  datatype View = RowView(offset: nat, length: nat) | StackView(rows: seq<View>)

  function Product(dims: seq<nat>): nat {
    if dims == [] then 1 else dims[0] * Product(dims[1..])
  }

  predicate InRange(dims: seq<nat>, idx: seq<nat>) {
    |idx| == |dims| && forall i :: 0 <= i < |dims| ==> idx[i] < dims[i]
  }

  /** The place of an index when the last dimension runs fastest. */
  function RowMajor(dims: seq<nat>, idx: seq<nat>): nat
    requires |idx| == |dims|
  {
    if dims == [] then 0 else idx[0] * Product(dims[1..]) + RowMajor(dims[1..], idx[1..])
  }

  /** `_build_shaped` */
  function BuildShaped<T>(dims: seq<nat>, source: seq<T>, offset: nat): Shaped<T>
    requires |dims| > 0 && |source| > 0
    decreases |dims|
  {
    if |dims| == 1 then Row(seq(dims[0], i requires 0 <= i < dims[0] => source[(offset + i) % |source|]))
    else
      var inner := Product(dims[1..]);
      Stack(seq(dims[0], i requires 0 <= i < dims[0] => BuildShaped(dims[1..], source, offset + i * inner)))
  }

  /** `_build_view` */
  function BuildView(dims: seq<nat>, offset: nat): View
    requires |dims| > 0
    decreases |dims|
  {
    if |dims| == 1 then RowView(offset, dims[0])
    else
      var inner := Product(dims[1..]);
      StackView(seq(dims[0], i requires 0 <= i < dims[0] => BuildView(dims[1..], offset + i * inner)))
  }

  /** Indexing one dimension after another. */
  function CellAt<T>(s: Shaped<T>, idx: seq<nat>): Option<T>
    decreases |idx|
  {
    match s
    case Row(cells) => if |idx| == 1 && idx[0] < |cells| then Some(cells[idx[0]]) else None
    case Stack(rows) => if |idx| > 1 && idx[0] < |rows| then CellAt(rows[idx[0]], idx[1..]) else None
  }

  /** The storage cell behind an index of a view. */
  function PlaceAt(v: View, idx: seq<nat>): Option<nat>
    decreases |idx|
  {
    match v
    case RowView(offset, length) => if |idx| == 1 && idx[0] < length then Some(offset + idx[0]) else None
    case StackView(rows) => if |idx| > 1 && idx[0] < |rows| then PlaceAt(rows[idx[0]], idx[1..]) else None
  }

  /** What is reshaped: values of its own, or a stretch of a list shared with
      others. */
  datatype Data<T> = Fresh(values: seq<T>) | Owned(elements: seq<T>) | Slice(backing: seq<T>, offset: nat, length: nat)

  predicate WellFormed<T>(d: Data<T>) { d.Slice? ==> d.offset + d.length <= |d.backing| }

  function Source<T>(d: Data<T>): seq<T>
    requires WellFormed(d)
  {
    match d
    case Fresh(vs) => vs
    case Owned(es) => es
    case Slice(b, k, n) => b[k..k + n]
  }

  /** The list a view would look into. */
  function Storage<T>(d: Data<T>): seq<T> {
    match d
    case Fresh(vs) => vs
    case Owned(es) => es
    case Slice(b, _, _) => b
  }

  datatype Reshaped<T> = CannotReshapeEmpty | Nothing | Copied(shaped: Shaped<T>) | Viewed(view: View)

  /** `_eval_reshape`, the dimensions already checked. */
  function Reshape<T>(dims: seq<nat>, d: Data<T>): Reshaped<T>
    requires |dims| > 0 && WellFormed(d)
  {
    var source := Source(d);
    if source == [] then CannotReshapeEmpty
    else if Product(dims) == 0 then Nothing
    else if !d.Fresh? && Product(dims) <= |source| && |dims| > 1 then Viewed(BuildView(dims, 0))
    else Copied(BuildShaped(dims, source, 0))
  }

  /** The element a reshaped array answers at an index. */
  function ElementAt<T>(r: Reshaped<T>, storage: seq<T>, idx: seq<nat>): Option<T> {
    match r
    case Copied(s) => CellAt(s, idx)
    case Viewed(v) =>
      var p := PlaceAt(v, idx);
      if p.Some? && p.value < |storage| then Some(storage[p.value]) else None
    case _ => None
  }

  // ---- row-major order -------------------------------------------------------------------

  lemma RowBelow(i: nat, d: nat, p: nat, r: nat)
    requires i < d && r < p
    ensures i * p + r < d * p
  {
    OneBefore(i, d, p);
  }

  lemma RowOf(m: nat, d: nat, p: nat)
    requires m < d * p
    ensures p > 0 && m / p < d && m == m / p * p + m % p && m % p < p
  {
    DivMod(m, p);
    if m / p >= d { TimesMonotone(d, m / p, p); }
  }

  lemma {:induction false} RowMajorBelow(dims: seq<nat>, idx: seq<nat>)
    requires InRange(dims, idx)
    ensures RowMajor(dims, idx) < Product(dims)
  {
    if dims != [] {
      RowMajorBelow(dims[1..], idx[1..]);
      RowBelow(idx[0], dims[0], Product(dims[1..]), RowMajor(dims[1..], idx[1..]));
    }
  }

  /** Different indices are at different places ... */
  lemma {:induction false} RowMajorInjective(dims: seq<nat>, a: seq<nat>, b: seq<nat>)
    requires InRange(dims, a) && InRange(dims, b) && RowMajor(dims, a) == RowMajor(dims, b)
    ensures a == b
  {
    if dims != [] {
      var rest := dims[1..];
      RowMajorBelow(rest, a[1..]);
      RowMajorBelow(rest, b[1..]);
      OneQuotient(a[0], RowMajor(rest, a[1..]), b[0], RowMajor(rest, b[1..]), Product(rest));
      RowMajorInjective(rest, a[1..], b[1..]);
      assert a == [a[0]] + a[1..] && b == [b[0]] + b[1..];
    }
  }

  /** ... and every place has its index. */
  lemma {:induction false} RowMajorOnto(dims: seq<nat>, m: nat) returns (idx: seq<nat>)
    requires m < Product(dims)
    ensures InRange(dims, idx) && RowMajor(dims, idx) == m
  {
    if dims == [] {
      idx := [];
    } else {
      var p := Product(dims[1..]);
      RowOf(m, dims[0], p);
      var rest := RowMajorOnto(dims[1..], m % p);
      idx := [m / p] + rest;
      assert idx[1..] == rest;
    }
  }

  /** A copy's element at an index is the source's at its place, going round. */
  lemma {:induction false} ShapedIsRowMajor<T>(dims: seq<nat>, source: seq<T>, offset: nat, idx: seq<nat>)
    requires |dims| > 0 && |source| > 0 && InRange(dims, idx)
    ensures CellAt(BuildShaped(dims, source, offset), idx) == Some(source[(offset + RowMajor(dims, idx)) % |source|])
    decreases |dims|
  {
    if |dims| == 1 {
      assert dims[1..] == [] && idx[1..] == [];
    } else {
      ShapedIsRowMajor(dims[1..], source, offset + idx[0] * Product(dims[1..]), idx[1..]);
    }
  }

  lemma {:induction false} ViewIsRowMajor(dims: seq<nat>, offset: nat, idx: seq<nat>)
    requires |dims| > 0 && InRange(dims, idx)
    ensures PlaceAt(BuildView(dims, offset), idx) == Some(offset + RowMajor(dims, idx))
    decreases |dims|
  {
    if |dims| == 1 {
      assert dims[1..] == [] && idx[1..] == [];
    } else {
      ViewIsRowMajor(dims[1..], offset + idx[0] * Product(dims[1..]), idx[1..]);
    }
  }

  /** No index answers that has a part its dimension does not reach. */
  lemma {:induction false} BeyondIsNothing<T>(dims: seq<nat>, source: seq<T>, offset: nat, idx: seq<nat>)
    requires |dims| > 0 && |source| > 0 && |idx| == |dims| && !InRange(dims, idx)
    ensures CellAt(BuildShaped(dims, source, offset), idx).None? && PlaceAt(BuildView(dims, offset), idx).None?
    decreases |dims|
  {
    if |dims| > 1 && idx[0] < dims[0] {
      assert exists i :: 1 <= i < |dims| && idx[i] >= dims[i];
      var i :| 1 <= i < |dims| && idx[i] >= dims[i];
      assert idx[1..][i - 1] >= dims[1..][i - 1];
      BeyondIsNothing(dims[1..], source, offset + idx[0] * Product(dims[1..]), idx[1..]);
    }
  }

  /** So a reshaped array answers exactly the indices its shape has. */
  lemma AnswersInRange<T>(dims: seq<nat>, d: Data<T>, idx: seq<nat>)
    requires |dims| > 0 && WellFormed(d) && |idx| == |dims| && Source(d) != []
    ensures ElementAt(Reshape(dims, d), Storage(d), idx).Some? <==> InRange(dims, idx)
  {
    if InRange(dims, idx) {
      RowMajorBelow(dims, idx);
      ShapedIsRowMajor(dims, Source(d), 0, idx);
      ViewIsRowMajor(dims, 0, idx);
    } else {
      BeyondIsNothing(dims, Source(d), 0, idx);
    }
  }

  /** What reshaping promises of every element: row by row, and round again from
      the start where the data runs out. */
  ghost predicate RowMajorCyclic<T(!new)>(dims: seq<nat>, d: Data<T>)
    requires |dims| > 0 && WellFormed(d) && Source(d) != []
  {
    forall idx :: InRange(dims, idx) ==>
      ElementAt(Reshape(dims, d), Storage(d), idx) == Some(Source(d)[RowMajor(dims, idx) % |Source(d)|])
  }

  lemma Small(m: nat, n: nat)
    requires m < n
    ensures m % n == m
  {}

  /** Data held in an array is looked at where it is, whenever there is enough of it
      and more than one dimension: every index stands on a cell of what holds it.
      Values of its own are never shared. */
  lemma SharesExactly<T>(dims: seq<nat>, d: Data<T>)
    requires |dims| > 0 && WellFormed(d) && Source(d) != [] && Product(dims) > 0
    ensures var r := Reshape(dims, d);
            if (d.Owned? || d.Slice?) && |dims| > 1 && Product(dims) <= |Source(d)| then
              r.Viewed? && forall idx :: InRange(dims, idx) ==> PlaceAt(r.view, idx) == Some(RowMajor(dims, idx))
            else r.Copied?
  {
    if (d.Owned? || d.Slice?) && |dims| > 1 && Product(dims) <= |Source(d)| {
      forall idx | InRange(dims, idx) ensures PlaceAt(BuildView(dims, 0), idx) == Some(RowMajor(dims, idx)) {
        ViewIsRowMajor(dims, 0, idx);
      }
    }
  }

  /** It is kept wherever the data does not start partway into a shared list ... */
  lemma ReshapeIsRowMajorCyclic<T(!new)>(dims: seq<nat>, d: Data<T>)
    requires |dims| > 0 && WellFormed(d) && Source(d) != [] && (d.Slice? ==> d.offset == 0)
    ensures RowMajorCyclic(dims, d)
  {
    var source := Source(d);
    forall idx | InRange(dims, idx)
      ensures ElementAt(Reshape(dims, d), Storage(d), idx) == Some(source[RowMajor(dims, idx) % |source|])
    {
      RowMajorBelow(dims, idx);
      ShapedIsRowMajor(dims, source, 0, idx);
      ViewIsRowMajor(dims, 0, idx);
      if Reshape(dims, d).Viewed? { Small(RowMajor(dims, idx), |source|); }
    }
  }

  /** What a view of sliced data answers, and what it should. */
  lemma SlicedView<T(!new)>(dims: seq<nat>, d: Data<T>, idx: seq<nat>)
    requires |dims| > 0 && WellFormed(d) && Source(d) != [] && d.Slice? && Reshape(dims, d).Viewed?
    requires InRange(dims, idx)
    ensures RowMajor(dims, idx) < Product(dims) <= d.length
    ensures ElementAt(Reshape(dims, d), Storage(d), idx) == Some(d.backing[RowMajor(dims, idx)])
    ensures Source(d)[RowMajor(dims, idx) % |Source(d)|] == d.backing[d.offset + RowMajor(dims, idx)]
  {
    RowMajorBelow(dims, idx);
    ViewIsRowMajor(dims, 0, idx);
    Small(RowMajor(dims, idx), |Source(d)|);
  }

  ghost predicate Repeats<T(!new)>(d: Data<T>, n: nat)
    requires d.Slice? && WellFormed(d) && n <= d.length
  {
    forall m :: 0 <= m < n ==> d.backing[m] == d.backing[d.offset + m]
  }

  /** ... or is copied.  A view of data that starts elsewhere is given the start
      of the list instead, so it keeps the promise exactly when the list repeats
      itself there. */
  lemma SlicedViewExactly<T(!new)>(dims: seq<nat>, d: Data<T>)
    requires |dims| > 0 && WellFormed(d) && Source(d) != [] && d.Slice? && Reshape(dims, d).Viewed?
    ensures Product(dims) <= d.length && (RowMajorCyclic(dims, d) <==> Repeats(d, Product(dims)))
  {
    if RowMajorCyclic(dims, d) {
      forall m | 0 <= m < Product(dims) ensures d.backing[m] == d.backing[d.offset + m] {
        var idx := RowMajorOnto(dims, m);
        SlicedView(dims, d, idx);
      }
    }
    if Repeats(d, Product(dims)) {
      hide Reshape, Source, Storage;
      forall idx | InRange(dims, idx)
        ensures ElementAt(Reshape(dims, d), Storage(d), idx) == Some(Source(d)[RowMajor(dims, idx) % |Source(d)|])
      {
        SlicedView(dims, d, idx);
      }
    }
  }

  /** The middle two of four, reshaped to two by one: the first element comes out
      as the list's first, which the slice does not hold. */
  lemma SlicedViewStrays(a: int, b: int, c: int, d: int)
    requires a != b
    ensures var s := Slice([a, b, c, d], 1, 2);
            Reshape([2, 1], s).Viewed? && Source(s) == [b, c] &&
            ElementAt(Reshape([2, 1], s), Storage(s), [0, 0]) == Some(a) && !RowMajorCyclic([2, 1], s)
  {
    var s := Slice([a, b, c, d], 1, 2);
    var dims: seq<nat>, first: seq<nat> := [2, 1], [0, 0];
    assert Product([]) == 1 && [1][1..] == [];
    assert dims[1..] == [1] && Product([1]) == 1 && Product(dims) == 2;
    assert [a, b, c, d][1..3] == [b, c];
    assert InRange(dims, first) && RowMajor(dims, first) == 0 by { assert first[1..] == [0] && first[1..][1..] == []; }
    SlicedView(dims, s, first);
    SlicedViewExactly(dims, s);
    assert s.backing[0] != s.backing[s.offset + 0];
  }

  lemma CopyIsRowMajorCyclic<T(!new)>(dims: seq<nat>, d: Data<T>)
    requires |dims| > 0 && WellFormed(d) && Source(d) != [] && !Reshape(dims, d).Viewed?
    ensures RowMajorCyclic(dims, d)
  {
    forall idx | InRange(dims, idx)
      ensures ElementAt(Reshape(dims, d), Storage(d), idx) == Some(Source(d)[RowMajor(dims, idx) % |Source(d)|])
    {
      RowMajorBelow(dims, idx);
      ShapedIsRowMajor(dims, Source(d), 0, idx);
    }
  }

  // ---- writing through a view ---------------------------------------------------------------

  /** Writing one cell of a view writes one cell of the list it shares, and is
      seen at no other index of the view. */
  method WriteThrough<T(==)>(dims: seq<nat>, backing: array<T>, idx: seq<nat>, x: T)
    requires |dims| > 1 && Product(dims) <= backing.Length && InRange(dims, idx)
    modifies backing
    ensures RowMajor(dims, idx) < backing.Length
    ensures backing[..] == old(backing[..])[RowMajor(dims, idx) := x]
    ensures PlaceAt(BuildView(dims, 0), idx) == Some(RowMajor(dims, idx))
    ensures forall other :: InRange(dims, other) && other != idx ==>
              PlaceAt(BuildView(dims, 0), other).Some? &&
              PlaceAt(BuildView(dims, 0), other) != PlaceAt(BuildView(dims, 0), idx)
  {
    RowMajorBelow(dims, idx);
    ViewIsRowMajor(dims, 0, idx);
    var p := PlaceAt(BuildView(dims, 0), idx).value;
    backing[p] := x;
    forall other | InRange(dims, other) && other != idx
      ensures PlaceAt(BuildView(dims, 0), other).Some? && PlaceAt(BuildView(dims, 0), other) != Some(p)
    {
      ViewIsRowMajor(dims, 0, other);
      if RowMajor(dims, other) == p { RowMajorInjective(dims, other, idx); }
    }
  }

  /** A write through a view changes the view's element there and no other. */
  lemma OneCellChanges<T(!new)>(dims: seq<nat>, before: seq<T>, idx: seq<nat>, other: seq<nat>, x: T)
    requires |dims| > 0 && Product(dims) <= |before| && InRange(dims, idx) && InRange(dims, other)
    ensures RowMajor(dims, idx) < |before|
    ensures var v := Viewed(BuildView(dims, 0));
            ElementAt(v, before[RowMajor(dims, idx) := x], other)
            == if other == idx then Some(x) else ElementAt(v, before, other)
  {
    RowMajorBelow(dims, idx);
    RowMajorBelow(dims, other);
    ViewIsRowMajor(dims, 0, idx);
    ViewIsRowMajor(dims, 0, other);
    if RowMajor(dims, idx) == RowMajor(dims, other) { RowMajorInjective(dims, idx, other); }
  }
}
