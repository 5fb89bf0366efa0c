/** Carrying an operator assignment out on the array it is assigned to
    (interp/eval.py). */
module InPlace {
  import opened Syntax

  /** An operator on two elements; refused where it fails. */
  type Operator<!V> = (V, V) -> Option<V>

  /** `_checked`: what an array of these elements keeps of a value stored into
      it -- the value, what it is coerced to, or nothing where it is refused. */
  type Store<!V> = (seq<V>, V) -> Option<V>

  /** What one element meets: the other array's, or one value throughout. */
  datatype Meets<V> = Each(values: seq<V>) | All(value: V)

  function Against<V>(w: Meets<V>, i: nat): V
    requires w.Each? ==> i < |w.values|
  {
    if w.Each? then w.values[i] else w.value
  }

  function Apply<V>(op: Operator<V>, mine: V, theirs: V, left: bool): Option<V> {
    if left then op(mine, theirs) else op(theirs, mine)
  }

  /** The ordinary form: threading the operator over the elements and collecting
      what it answers, the first failure being the whole one's. */
  function Thread<V>(op: Operator<V>, v: seq<V>, w: Meets<V>, left: bool): Option<seq<V>>
    requires w.Each? ==> |w.values| == |v|
  {
    if v == [] then Some([]) else
    match Apply(op, v[0], Against(w, 0), left)
    case None => None
    case Some(x) =>
      match Thread(op, v[1..], Rest(w), left)
      case None => None
      case Some(xs) => Some([x] + xs)
  }

  function Rest<V>(w: Meets<V>): Meets<V>
    requires w.Each? ==> |w.values| > 0
  {
    if w.Each? then Each(w.values[1..]) else w
  }

  /** Threading answers where the operator does at every element, each element
      being what it answers there. */
  lemma {:induction false} ThreadIs<V>(op: Operator<V>, v: seq<V>, w: Meets<V>, left: bool)
    requires w.Each? ==> |w.values| == |v|
    ensures Thread(op, v, w, left).Some? <==> forall i :: 0 <= i < |v| ==> Apply(op, v[i], Against(w, i), left).Some?
    ensures Thread(op, v, w, left).Some? ==>
              var r := Thread(op, v, w, left).value;
              |r| == |v| && forall i :: 0 <= i < |v| ==> Apply(op, v[i], Against(w, i), left) == Some(r[i])
  {
    if v != [] {
      ThreadIs(op, v[1..], Rest(w), left);
      assert forall i :: 0 <= i < |v| - 1 ==> v[1..][i] == v[i + 1] && Against(Rest(w), i) == Against(w, i + 1);
      if Thread(op, v, w, left).Some? {
        var r := Thread(op, v, w, left).value;
        forall i | 0 <= i < |v| ensures Apply(op, v[i], Against(w, i), left) == Some(r[i]) {
          if i > 0 { assert v[i] == v[1..][i - 1] && r[i] == r[1..][i - 1]; }
        }
      }
      if forall i :: 0 <= i < |v| ==> Apply(op, v[i], Against(w, i), left).Some? {
        forall i | 0 <= i < |v[1..]| ensures Apply(op, v[1..][i], Against(Rest(w), i), left).Some? {
          assert Apply(op, v[i + 1], Against(w, i + 1), left).Some?;
        }
      }
    }
  }

  /** The elements stand on the side their array is written on, the other operand's
      on the other, whichever side is assigned to. */
  lemma {:induction false} OperandsInOrder<V>(op: Operator<V>, v: seq<V>, w: seq<V>, x: V, left: bool, i: nat)
    requires |w| == |v| && i < |v|
    ensures Thread(op, v, Each(w), left).Some? ==>
              var r := Thread(op, v, Each(w), left).value;
              |r| == |v| && Some(r[i]) == if left then op(v[i], w[i]) else op(w[i], v[i])
    ensures Thread(op, v, All(x), left).Some? ==>
              var r := Thread(op, v, All(x), left).value;
              |r| == |v| && Some(r[i]) == if left then op(v[i], x) else op(x, v[i])
  {
    ThreadIs(op, v, Each(w), left);
    ThreadIs(op, v, All(x), left);
  }

  /** An array that owns its elements. */
  class ArrayValue<V> {
    var elements: seq<V>

    constructor (elements: seq<V>)
      ensures this.elements == elements
    {
      this.elements := elements;
    }
  }

  /** What stands on the other side: an array, which may be the very one being
      written, or a single value. */
  datatype Other<V> = Array(arr: ArrayValue<V>) | Value(value: V)

  /** `NotInPlace` leaves the assignment to the ordinary path, which says what
      is wrong; at an index the operator may fail, or the array refuse what it
      answered. */
  datatype Outcome = NotInPlace | Done | Fails(index: nat) | Refuses(index: nat)

  ghost function Met<V>(w: Other<V>): Meets<V>
    reads if w.Array? then {w.arr} else {}
  {
    if w.Array? then Each(w.arr.elements) else All(w.value)
  }

  /** In place, from element i on: each answer is stored before the next is asked for. */
  function Carry<V>(op: Operator<V>, store: Store<V>, now: seq<V>, w: Meets<V>, left: bool, i: nat): (Outcome, seq<V>)
    requires w.Each? ==> |w.values| == |now|
    decreases |now| - i
  {
    if i >= |now| then (Done, now) else
    match Apply(op, now[i], Against(w, i), left)
    case None => (Fails(i), now)
    case Some(x) =>
      match store(now, x)
      case None => (Refuses(i), now)
      case Some(y) => Carry(op, store, now[i := y], w, left, i + 1)
  }

  /** The element a value in hand leaves as it is, stored at i with r up to there
      and v from there on. */
  predicate StoresAsItself<V(==)>(store: Store<V>, r: seq<V>, v: seq<V>, i: nat)
    requires i < |r| == |v|
  {
    store(r[..i] + v[i..], r[i]) == Some(r[i])
  }

  /** In place leaves what threading builds if and only if every answer stores as
      itself; and it is done only where threading answers. */
  lemma InPlaceIsThreading<V>(op: Operator<V>, store: Store<V>, v: seq<V>, w: Meets<V>, left: bool)
    requires w.Each? ==> |w.values| == |v|
    ensures var r, c := Thread(op, v, w, left), Carry(op, store, v, w, left, 0);
            (c.0.Done? ==> r.Some?) && (c.0.Fails? ==> r.None?) &&
            (r.Some? ==>
              |r.value| == |v| &&
              (c == (Done, r.value) <==> forall i :: 0 <= i < |v| ==> StoresAsItself(store, r.value, v, i)))
  {
    ThreadIs(op, v, w, left);
    CarriedOn(op, store, v, v, w, left, 0);
    if Thread(op, v, w, left).Some? {
      var r := Thread(op, v, w, left).value;
      assert r[..0] + v[0..] == v;
      CarriesThreaded(op, store, r, v, w, left, 0);
    }
  }

  /** It stops at the operator's first failure or sooner, and is done only past the last element. */
  lemma {:induction false} CarriedOn<V>(op: Operator<V>, store: Store<V>, now: seq<V>, v: seq<V>, w: Meets<V>,
                                        left: bool, i: nat)
    requires (w.Each? ==> |w.values| == |v|) && |now| == |v| && i <= |v| && now[i..] == v[i..]
    ensures var c := Carry(op, store, now, w, left, i);
            (c.0.Done? ==> forall k :: i <= k < |v| ==> Apply(op, v[k], Against(w, k), left).Some?) &&
            (c.0.Fails? ==> c.0.index < |v| && Apply(op, v[c.0.index], Against(w, c.0.index), left).None?) &&
            (c.0.Refuses? ==> c.0.index < |v|) && !c.0.NotInPlace?
    decreases |v| - i
  {
    if i < |v| {
      assert now[i] == now[i..][0] == v[i..][0] == v[i];
      match Apply(op, v[i], Against(w, i), left)
      case None =>
      case Some(x) =>
        match store(now, x)
        case None =>
        case Some(y) =>
          assert now[i := y][i + 1..] == now[i..][1..] == v[i..][1..] == v[i + 1..];
          CarriedOn(op, store, now[i := y], v, w, left, i + 1);
    }
  }

  /** Where threading answers r, from what stands once r is written up to i. */
  lemma {:induction false} CarriesThreaded<V>(op: Operator<V>, store: Store<V>, r: seq<V>, v: seq<V>, w: Meets<V>,
                                              left: bool, i: nat)
    requires (w.Each? ==> |w.values| == |v|) && |r| == |v| && i <= |v|
    requires forall k :: 0 <= k < |v| ==> Apply(op, v[k], Against(w, k), left) == Some(r[k])
    ensures Carry(op, store, r[..i] + v[i..], w, left, i) == (Done, r)
            <==> forall k :: i <= k < |v| ==> StoresAsItself(store, r, v, k)
    decreases |v| - i
  {
    var now := r[..i] + v[i..];
    if i == |v| {
      assert now == r;
    } else {
      var s := store(now, r[i]);
      if s == Some(r[i]) {
        assert now[i := r[i]] == r[..i + 1] + v[i + 1..];
        CarriesThreaded(op, store, r, v, w, left, i + 1);
        assert StoresAsItself(store, r, v, i);
      } else {
        assert !StoresAsItself(store, r, v, i);
        if s.Some? { WrittenStays(op, store, now[i := s.value], w, left, i + 1); }
      }
    }
  }

  /** What is written is not written again. */
  lemma {:induction false} WrittenStays<V>(op: Operator<V>, store: Store<V>, now: seq<V>, w: Meets<V>, left: bool,
                                           i: nat)
    requires (w.Each? ==> |w.values| == |now|) && i <= |now|
    ensures var c := Carry(op, store, now, w, left, i); |c.1| == |now| && c.1[..i] == now[..i]
    decreases |now| - i
  {
    if i < |now| {
      var x := Apply(op, now[i], Against(w, i), left);
      if x.Some? && store(now, x.value).Some? {
        var next := now[i := store(now, x.value).value];
        WrittenStays(op, store, next, w, left, i + 1);
        assert Carry(op, store, next, w, left, i + 1).1[..i] == next[..i + 1][..i] == now[..i];
      }
    }
  }

  /** What storing its own answer would make of element i, nothing else written. */
  function Written<V>(op: Operator<V>, store: Store<V>, v: seq<V>, w: Meets<V>, left: bool, i: nat): Option<V>
    requires (w.Each? ==> |w.values| == |v|) && i < |v|
  {
    match Apply(op, v[i], Against(w, i), left)
    case None => None
    case Some(x) => store(v, x)
  }

  /** The ordinary form leaves the array as it was where an element fails; in
      place leaves what was done.  They leave the same exactly where every
      element reached would have been written as it stood, and the first that
      would not decides. */
  lemma {:induction false} HaltedAsItWas<V>(op: Operator<V>, store: Store<V>, v: seq<V>, w: Meets<V>, left: bool,
                                            i: nat)
    requires (w.Each? ==> |w.values| == |v|) && i <= |v|
    requires !Carry(op, store, v, w, left, i).0.Done?
    ensures var c := Carry(op, store, v, w, left, i);
            !c.0.NotInPlace? && i <= c.0.index < |v| &&
            (c.1 == v <==> forall k :: i <= k < c.0.index ==> Written(op, store, v, w, left, k) == Some(v[k]))
    decreases |v| - i
  {
    CarriedOn(op, store, v, v, w, left, i);
    var y := Written(op, store, v, w, left, i);
    if y == Some(v[i]) {
      assert v[i := v[i]] == v;
      HaltedAsItWas(op, store, v, w, left, i + 1);
    } else if y.Some? {
      var next := v[i := y.value];
      WrittenStays(op, store, next, w, left, i + 1);
      assert Carry(op, store, next, w, left, i + 1).1[..i + 1][i] == y.value;
      HaltsLater(op, store, next, w, left, i + 1);
    }
  }

  lemma {:induction false} HaltsLater<V>(op: Operator<V>, store: Store<V>, now: seq<V>, w: Meets<V>, left: bool, i: nat)
    requires (w.Each? ==> |w.values| == |now|) && i <= |now|
    ensures var c := Carry(op, store, now, w, left, i); !c.0.Done? ==> !c.0.NotInPlace? && i <= c.0.index < |now|
    decreases |now| - i
  {
    if i < |now| {
      var x := Apply(op, now[i], Against(w, i), left);
      if x.Some? && store(now, x.value).Some? {
        HaltsLater(op, store, now[i := store(now, x.value).value], w, left, i + 1);
      }
    }
  }

  /** `_c_assign_in_place`, though the other operand be the same array. */
  method AssignInPlace<V>(arr: ArrayValue<V>, op: Operator<V>, store: Store<V>, other: Other<V>,
                          left: bool) returns (r: Outcome)
    modifies arr
    ensures r.NotInPlace? <==> other.Array? && |old(other.arr.elements)| != |old(arr.elements)|
    ensures if r.NotInPlace? then arr.elements == old(arr.elements)
            else (r, arr.elements) == Carry(op, store, old(arr.elements), old(Met(other)), left, 0)
  {
    if other.Array? && |other.arr.elements| != |arr.elements| { return NotInPlace; }
    ghost var v, w := arr.elements, Met(other);
    var n := |arr.elements|;
    for i := 0 to n
      invariant |arr.elements| == n && arr.elements[i..] == v[i..]
      invariant other.Array? && other.arr != arr ==> other.arr.elements == w.values
      invariant Carry(op, store, arr.elements, w, left, i) == Carry(op, store, v, w, left, 0)
    {
      var mine := arr.elements[i];
      var theirs := if other.Array? then other.arr.elements[i] else other.value;
      assert theirs == Against(w, i) by { assert arr.elements[i] == arr.elements[i..][0] == v[i..][0] == v[i]; }
      var x := if left then op(mine, theirs) else op(theirs, mine);
      if x.None? { return Fails(i); }
      var y := store(arr.elements, x.value);
      if y.None? { return Refuses(i); }
      assert arr.elements[i := y.value][i + 1..] == arr.elements[i..][1..] == v[i..][1..] == v[i + 1..];
      arr.elements := arr.elements[i := y.value];
    }
    r := Done;
  }

  // ---- growing an array by another ---------------------------------------------

  /** What an array says it holds: a type, and a unit by its dimension. */
  datatype Label<K> = Label(kind: Option<K>, unit: Option<K>)

  predicate MayJoin<K(==)>(a: Label<K>, b: Label<K>) {
    (a.kind.Some? && b.kind.Some? ==> a.kind == b.kind) && a.unit == b.unit
  }

  /** The ordinary form: two arrays that may join, one after the other. */
  function Join<V, K(==)>(v: seq<V>, a: Label<K>, w: seq<V>, b: Label<K>): Option<seq<V>> {
    if MayJoin(a, b) then Some(v + w) else None
  }

  /** In place, from the other's element i on. */
  function Grow<V>(store: Store<V>, now: seq<V>, w: seq<V>, i: nat): (Outcome, seq<V>)
    decreases |w| - i
  {
    if i >= |w| then (Done, now) else
    match store(now, w[i])
    case None => (Refuses(i), now)
    case Some(y) => Grow(store, now + [y], w, i + 1)
  }

  /** Growing in place leaves what joining builds if and only if the two may join
      and every element stores as itself after those before it; where they may
      not join, in place still grows unless an element is refused. */
  lemma {:induction false} GrowingIsJoining<V, K>(store: Store<V>, v: seq<V>, a: Label<K>, w: seq<V>, b: Label<K>)
    ensures var g := Grow(store, v, w, 0);
            (g.0.Done? && Join(v, a, w, b) == Some(g.1)
             <==> MayJoin(a, b) && forall i :: 0 <= i < |w| ==> store(v + w[..i], w[i]) == Some(w[i])) &&
            v <= g.1
  {
    assert v + w[..0] == v;
    GrowsJoined(store, v, w, 0);
    GrowsBy(store, v, w, 0);
  }

  lemma {:induction false} GrowsBy<V>(store: Store<V>, now: seq<V>, w: seq<V>, i: nat)
    requires i <= |w|
    ensures var g := Grow(store, now, w, i);
            now <= g.1 && !g.0.NotInPlace? && (g.0.Done? ==> |g.1| == |now| + |w| - i)
    decreases |w| - i
  {
    if i < |w| && store(now, w[i]).Some? { GrowsBy(store, now + [store(now, w[i]).value], w, i + 1); }
  }

  lemma {:induction false} GrowsJoined<V>(store: Store<V>, v: seq<V>, w: seq<V>, i: nat)
    requires i <= |w|
    ensures Grow(store, v + w[..i], w, i) == (Done, v + w)
            <==> forall k :: i <= k < |w| ==> store(v + w[..k], w[k]) == Some(w[k])
    decreases |w| - i
  {
    var now := v + w[..i];
    if i == |w| {
      assert w[..i] == w;
    } else {
      var s := store(now, w[i]);
      if s == Some(w[i]) {
        assert now + [w[i]] == v + w[..i + 1];
        GrowsJoined(store, v, w, i + 1);
      } else if s.Some? {
        GrowsBy(store, now + [s.value], w, i + 1);
        var g := Grow(store, now + [s.value], w, i + 1);
        assert g.1[|now|] == s.value && (v + w)[|now|] == w[i];
      }
    }
  }

  /** `_c_extend_in_place`, though the array added be the same and grow as it is read. */
  method ExtendInPlace<V>(arr: ArrayValue<V>, add: ArrayValue<V>, store: Store<V>) returns (r: Outcome)
    modifies arr
    ensures (r, arr.elements) == Grow(store, old(arr.elements), old(add.elements), 0)
  {
    ghost var v, w := arr.elements, add.elements;
    var n := |add.elements|;
    for i := 0 to n
      invariant w <= add.elements && (add != arr ==> add.elements == w)
      invariant Grow(store, arr.elements, w, i) == Grow(store, v, w, 0)
    {
      var x := add.elements[i];
      assert x == w[i];
      var y := store(arr.elements, x);
      if y.None? { return Refuses(i); }
      arr.elements := arr.elements + [y.value];
    }
    r := Done;
  }

  // ---- where the forms part ----------------------------------------------------

  /** Numbers, and the truth values comparing them answers. */
  datatype Scalar = Number(n: int) | Truth(b: bool)

  /** An array that states no type measures what comes in against its first element. */
  function LikeFirst(now: seq<Scalar>, x: Scalar): Option<Scalar> {
    if now == [] || now[0].Number? == x.Number? then Some(x) else None
  }

  function Equal(a: Scalar, b: Scalar): Option<Scalar> { Some(Truth(a == b)) }

  function Quotient(a: Scalar, b: Scalar): Option<Scalar> {
    if a.Number? && b.Number? && b.n != 0 then Some(Number(a.n / b.n)) else None
  }

  /** `v ← v = w` on numbers: every comparison answers and the ordinary form binds
      the truth values; in place the array of numbers refuses the first. */
  lemma ComparisonRefused(v: seq<Scalar>, w: Meets<Scalar>)
    requires v != [] && v[0].Number? && (w.Each? ==> |w.values| == |v|)
    ensures Thread(Equal, v, w, true).Some?
    ensures Carry(Equal, LikeFirst, v, w, true, 0) == (Refuses(0), v)
  {
    ThreadIs(Equal, v, w, true);
  }

  /** `v ← 7 ÷ v` and `v ← v ÷ 7` on `[14]`. */
  lemma SidesDiffer()
    ensures Carry(Quotient, LikeFirst, [Number(14)], All(Number(7)), true, 0) == (Done, [Number(2)])
    ensures Carry(Quotient, LikeFirst, [Number(14)], All(Number(7)), false, 0) == (Done, [Number(0)])
  {
    assert [Number(14)][0 := Number(2)] == [Number(2)] && [Number(14)][0 := Number(0)] == [Number(0)];
  }

  /** `v ← v / w` where the second divisor is zero: the ordinary form leaves the
      array alone, in place its first element is already divided. */
  lemma HalfDivided()
    ensures var v, w := [Number(6), Number(1)], Each([Number(2), Number(0)]);
            Thread(Quotient, v, w, true).None? &&
            Carry(Quotient, LikeFirst, v, w, true, 0) == (Fails(1), [Number(3), Number(1)])
  {
    var v, w := [Number(6), Number(1)], Each([Number(2), Number(0)]);
    var v1 := [Number(3), Number(1)];
    assert v[0 := Number(3)] == v1;
    assert Carry(Quotient, LikeFirst, v1, w, true, 1) == (Fails(1), v1);
    ThreadIs(Quotient, v, w, true);
    assert Apply(Quotient, v[1], Against(w, 1), true).None?;
  }
}
