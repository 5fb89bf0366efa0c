/** What a measure may stand in for (interp/units.py, interp/__main__.py). */
module Units {
  /** A unit object. */
  type Id = nat

  /** The nonzero exponents of a unit, in a fixed order. */
  type Dimension = seq<(string, int)>

  datatype Step = End | At(unit: Id)

  /** Every unit there is: its dimension, what it is shown as, and, for a user's
      own, what it was declared to stand in for. */
  datatype Measures = Measures(dim: map<Id, Dimension>, display: map<Id, string>, user: set<Id>, decay: map<Id, Id>)

  /** Only a user's unit decays, to some unit there is, and no two of a user's
      units are shown alike, being registered under the name they show. */
  predicate WellFormed(m: Measures) {
    m.user <= m.dim.Keys && m.dim.Keys == m.display.Keys && m.decay.Keys <= m.user &&
    (forall u :: u in m.decay ==> m.decay[u] in m.dim) &&
    forall u, v :: u in m.user && v in m.user && m.display[u] == m.display[v] ==> u == v
  }

  /** The unit `j` steps along a decay chain. */
  function Walk(m: Measures, u: Id, j: nat): Step {
    if j == 0 then At(u)
    else match Walk(m, u, j - 1)
      case End => End
      case At(v) => if v in m.decay then At(m.decay[v]) else End
  }

  lemma {:induction false} WalkOn(m: Measures, u: Id, i: nat, j: nat)
    requires Walk(m, u, i).At?
    ensures Walk(m, u, i + j) == Walk(m, Walk(m, u, i).unit, j)
    decreases j
  {
    if j > 0 { WalkOn(m, u, i, j - 1); }
  }

  lemma {:induction false} WalkKnown(m: Measures, u: Id, j: nat)
    requires WellFormed(m) && u in m.dim && Walk(m, u, j).At?
    ensures Walk(m, u, j).unit in m.dim
    ensures forall i :: 0 <= i < j ==> Walk(m, u, i).At? && Walk(m, u, i).unit in m.decay
    decreases j
  {
    if j > 0 { WalkKnown(m, u, j - 1); }
  }

  // ---- the check that there is no ring ----------------------------------------------------

  /** Whether the walk from a unit comes, in at most `n` steps, to one shown by
      the same name. */
  ghost predicate MeetsItself(m: Measures, u: Id, n: nat)
    requires WellFormed(m) && u in m.dim
  {
    exists j :: 1 <= j <= n && Walk(m, u, j).At? && ShownAs(m, u, Walk(m, u, j).unit)
  }

  predicate ShownAs(m: Measures, u: Id, v: Id) { u in m.display && v in m.display && m.display[v] == m.display[u] }

  /** The walk of one declaration, given up once longer than any chain of the
      user's units can be. */
  method RingFrom(m: Measures, u: Id) returns (ring: bool)
    requires WellFormed(m) && u in m.decay
    ensures ring <==> MeetsItself(m, u, |m.user| + 2)
  {
    var length, step := 1, At(m.decay[u]);
    assert Walk(m, u, 1) == step by { assert Walk(m, u, 0) == At(u); }
    while step.At?
      invariant 1 <= length <= |m.user| + 2
      invariant step == Walk(m, u, length)
      invariant forall j :: 1 <= j < length && Walk(m, u, j).At? ==> !ShownAs(m, u, Walk(m, u, j).unit)
      decreases |m.user| + 3 - length
    {
      WalkKnown(m, u, length);
      if m.display[step.unit] == m.display[u] {
        assert ShownAs(m, u, Walk(m, u, length).unit);
        return true;
      }
      length := length + 1;
      if length > |m.user| + 2 { return false; }
      step := if step.unit in m.decay then At(m.decay[step.unit]) else End;
    }
    EndsForGood(m, u, length);
    return false;
  }

  lemma EndsForGood(m: Measures, u: Id, n: nat)
    requires Walk(m, u, n).End?
    ensures forall j :: j >= n ==> Walk(m, u, j).End?
  {
    forall j | j >= n ensures Walk(m, u, j).End? { EndedStays(m, u, n, j); }
  }

  lemma {:induction false} EndedStays(m: Measures, u: Id, n: nat, j: nat)
    requires Walk(m, u, n).End? && n <= j
    ensures Walk(m, u, j).End?
    decreases j
  {
    if n < j { EndedStays(m, u, n, j - 1); }
  }

  /** What the install-time check accepts. */
  ghost predicate Accepted(m: Measures)
    requires WellFormed(m)
  {
    forall u :: u in m.decay ==> !MeetsItself(m, u, |m.user| + 2)
  }

  /** The check, one declaration after another. */
  method Check(m: Measures, declared: seq<Id>) returns (ok: bool)
    requires WellFormed(m) && forall u :: u in declared <==> u in m.decay
    ensures ok <==> Accepted(m)
  {
    for i := 0 to |declared|
      invariant forall j :: 0 <= j < i ==> !MeetsItself(m, declared[j], |m.user| + 2)
    {
      var ring := RingFrom(m, declared[i]);
      if ring { return false; }
    }
    return true;
  }

  /** More things than a set has members are not all different. */
  lemma {:induction false} Pigeonhole(s: seq<Id>, of: set<Id>)
    requires |s| > |of| && forall i :: 0 <= i < |s| ==> s[i] in of
    ensures exists i, j :: 0 <= i < j < |s| && s[i] == s[j]
    decreases |s|
  {
    var last := s[|s| - 1];
    var rest := s[..|s| - 1];
    if last in rest {
      var i :| 0 <= i < |rest| && rest[i] == last;
      assert s[i] == s[|s| - 1];
    } else {
      Pigeonhole(rest, of - {last});
      var i, j :| 0 <= i < j < |rest| && rest[i] == rest[j];
      assert s[i] == s[j];
    }
  }

  function Nodes(m: Measures, u: Id, n: nat): (r: seq<Id>)
    requires forall i :: 0 <= i < n ==> Walk(m, u, i).At?
    ensures |r| == n && forall i :: 0 <= i < n ==> r[i] == Walk(m, u, i).unit
  {
    if n == 0 then [] else Nodes(m, u, n - 1) + [Walk(m, u, n - 1).unit]
  }

  /** A walk as long as this has been somewhere twice, and who is met twice meets
      itself. */
  lemma LongWalkMeets(m: Measures, u: Id) returns (v: Id)
    requires WellFormed(m) && u in m.dim && Walk(m, u, |m.user| + 1).At?
    ensures v in m.decay && MeetsItself(m, v, |m.user| + 2)
  {
    hide WellFormed, MeetsItself, Walk;
    var n := |m.user|;
    WalkKnown(m, u, n + 1);
    var s := Nodes(m, u, n + 1);
    FewDecay(m);
    var i, j := Twice(s, m.decay.Keys);
    v := s[i];
    WalkOn(m, u, i, j - i);
    RoundIsMet(m, v, j - i);
  }

  lemma FewDecay(m: Measures)
    requires WellFormed(m)
    ensures |m.decay.Keys| <= |m.user| && m.decay.Keys <= m.dim.Keys
  {
    Subset(m.decay.Keys, m.user);
  }

  lemma Twice(s: seq<Id>, of: set<Id>) returns (i: nat, j: nat)
    requires |s| > |of| && forall i :: 0 <= i < |s| ==> s[i] in of
    ensures i < j < |s| && s[i] == s[j]
  {
    Pigeonhole(s, of);
    i, j :| 0 <= i < j < |s| && s[i] == s[j];
  }

  lemma RoundIsMet(m: Measures, u: Id, j: nat)
    requires WellFormed(m) && u in m.dim && 1 <= j <= |m.user| + 2 && Walk(m, u, j) == At(u)
    ensures u in m.decay && MeetsItself(m, u, |m.user| + 2)
  {
    WalkKnown(m, u, j);
    assert Walk(m, u, 0) == At(u);
    assert ShownAs(m, u, Walk(m, u, j).unit);
  }

  /** Where the check accepts, every chain ends within as many steps as there are
      user's units. */
  lemma ChainsAreShort(m: Measures, u: Id)
    requires WellFormed(m) && Accepted(m) && u in m.dim
    ensures Walk(m, u, |m.user| + 1).End?
  {
    if Walk(m, u, |m.user| + 1).At? { var v := LongWalkMeets(m, u); }
  }

  lemma {:induction false} Subset(a: set<Id>, b: set<Id>)
    requires a <= b
    ensures |a| <= |b|
    decreases |a|
  {
    if a != {} {
      var x :| x in a;
      Subset(a - {x}, b - {x});
    }
  }

  /** ... and no unit stands in for itself round any ring. */
  lemma NoRings(m: Measures, u: Id, j: nat)
    requires WellFormed(m) && Accepted(m) && u in m.dim && j > 0
    ensures Walk(m, u, j) != At(u)
  {
    ChainsAreShort(m, u);
    EndsForGood(m, u, |m.user| + 1);
    if Walk(m, u, j) == At(u) { RoundIsMet(m, u, j); }
  }

  /** No unit's chain comes back to it. */
  ghost predicate Ringless(m: Measures) {
    forall u, j: nat :: u in m.dim && j > 0 ==> Walk(m, u, j) != At(u)
  }

  /** No declared unit's chain comes to another unit shown by its name. */
  ghost predicate NamesApart(m: Measures) {
    forall u, j: nat :: u in m.decay && Walk(m, u, j).At? && ShownAs(m, u, Walk(m, u, j).unit) ==>
      Walk(m, u, j) == At(u)
  }

  /** The check goes by names, and gives up after a bound: it accepts exactly
      where no chain of any length comes back to its start or to another unit
      shown by its start's name. */
  lemma AcceptedExactly(m: Measures)
    requires WellFormed(m)
    ensures Accepted(m) <==> Ringless(m) && NamesApart(m)
  {
    if Accepted(m) {
      forall u, j: nat | u in m.dim && j > 0 ensures Walk(m, u, j) != At(u) { NoRings(m, u, j); }
      forall u, j: nat | u in m.decay && Walk(m, u, j).At? && ShownAs(m, u, Walk(m, u, j).unit)
        ensures Walk(m, u, j) == At(u)
      {
        ChainsAreShort(m, u);
        EndsForGood(m, u, |m.user| + 1);
      }
    }
    if Ringless(m) && NamesApart(m) {
      forall u | u in m.decay ensures !MeetsItself(m, u, |m.user| + 2) {
        forall j | 1 <= j <= |m.user| + 2 && Walk(m, u, j).At? ensures !ShownAs(m, u, Walk(m, u, j).unit) {}
      }
    }
  }

  /** So where no unit of the user's is shown as another, it accepts exactly where
      there is no ring. */
  lemma AcceptedIsRingless(m: Measures)
    requires WellFormed(m)
    requires forall u, v :: u in m.user && v in m.dim && ShownAs(m, u, v) ==> u == v
    ensures Accepted(m) <==> Ringless(m)
  {
    AcceptedExactly(m);
    forall u, j: nat | u in m.decay && Walk(m, u, j).At? && ShownAs(m, u, Walk(m, u, j).unit)
      ensures Walk(m, u, j) == At(u)
    {
      WalkKnown(m, u, j);
    }
  }

  /** The check goes by names: a unit shown as the builtin it stands in for is
      refused, and there is no ring. */
  lemma NameAloneIsRefused(name: string)
    ensures var m := Measures(map[0 := [], 1 := []], map[0 := name, 1 := name], {0}, map[0 := 1]);
            WellFormed(m) && !Accepted(m) && forall j: nat :: j > 0 ==> Walk(m, 0, j) != At(0)
  {
    var m := Measures(map[0 := [], 1 := []], map[0 := name, 1 := name], {0}, map[0 := 1]);
    assert Walk(m, 0, 0) == At(0);
    assert Walk(m, 0, 1) == At(1);
    assert ShownAs(m, 0, Walk(m, 0, 1).unit);
    assert MeetsItself(m, 0, |m.user| + 2);
    assert Walk(m, 0, 2).End?;
    EndsForGood(m, 0, 2);
  }

  // ---- standing in -------------------------------------------------------------------------

  /** The farthest `stands_in_for` looks. */
  const REACH: nat := 64

  predicate Alike(m: Measures, v: Id, wanted: Id) { v in m.dim && wanted in m.dim && m.dim[v] == m.dim[wanted] }

  /** Some unit within `n` steps shares the wanted dimension. */
  ghost predicate StandsWithin(m: Measures, u: Id, wanted: Id, n: nat) {
    exists j :: 0 <= j <= n && Walk(m, u, j).At? && Alike(m, Walk(m, u, j).unit, wanted)
  }

  /** Some unit on the chain shares the wanted dimension. */
  ghost predicate StandsIn(m: Measures, u: Id, wanted: Id) {
    exists j: nat :: Walk(m, u, j).At? && Alike(m, Walk(m, u, j).unit, wanted)
  }

  /** With no more than 64 units of the user's own, nothing on a chain is out of
      reach. */
  lemma ReachIsEnough(m: Measures, u: Id, wanted: Id)
    requires WellFormed(m) && Accepted(m) && u in m.dim && |m.user| <= REACH
    ensures StandsWithin(m, u, wanted, REACH) <==> StandsIn(m, u, wanted)
  {
    if StandsIn(m, u, wanted) {
      var j: nat :| Walk(m, u, j).At? && Alike(m, Walk(m, u, j).unit, wanted);
      ChainsAreShort(m, u);
      EndsForGood(m, u, |m.user| + 1);
    }
  }

  /** `n` units of the user's, each standing in for the next and the last for a
      builtin, all of different dimensions. */
  function Ladder(n: nat): (m: Measures)
    requires n > 0
    ensures |m.user| == n
  {
    var units, rungs := UpTo(n), UpTo(n - 1);
    Measures(map i | i in units :: [("", i as int)], map i | i in units :: Bars(i), rungs, map i | i in rungs :: i + 1)
  }

  function UpTo(n: nat): (r: set<nat>)
    ensures |r| == n + 1 && forall i: nat :: i in r <==> i <= n
  {
    if n == 0 then {0} else UpTo(n - 1) + {n}
  }

  function Bars(n: nat): (r: string)
    ensures |r| == n
  {
    if n == 0 then "" else Bars(n - 1) + "|"
  }

  lemma {:induction false} LadderWalk(n: nat, u: Id, j: nat)
    requires u <= n && n > 0
    ensures Walk(Ladder(n), u, j) == if u + j <= n then At(u + j) else End
    decreases j
  {
    if j > 0 { LadderWalk(n, u, j - 1); }
  }

  lemma LadderAccepted(n: nat)
    requires n > 0
    ensures WellFormed(Ladder(n)) && Accepted(Ladder(n))
  {
    hide UpTo, Bars;
    var m := Ladder(n);
    forall u | u in m.decay ensures !MeetsItself(m, u, |m.user| + 2) {
      forall j | 1 <= j <= |m.user| + 2 && Walk(m, u, j).At? ensures !ShownAs(m, u, Walk(m, u, j).unit) {
        LadderWalk(n, u, j);
        assert |m.display[u]| == u && |m.display[u + j]| == u + j;
      }
    }
  }

  /** A ladder longer than the walk is accepted, its foot stands in for its top,
      and the walk gives up short of it. */
  lemma LongChainIsMissed(n: nat)
    requires n > REACH
    ensures var m := Ladder(n);
            WellFormed(m) && Accepted(m) && 0 in m.dim && StandsIn(m, 0, n) && !StandsWithin(m, 0, n, REACH)
  {
    LadderAccepted(n);
    var m := Ladder(n);
    hide UpTo, Bars;
    LadderWalk(n, 0, n);
    assert Alike(m, Walk(m, 0, n).unit, n);
    forall j | 0 <= j <= REACH && Walk(m, 0, j).At? ensures !Alike(m, Walk(m, 0, j).unit, n) {
      LadderWalk(n, 0, j);
      assert m.dim[j] == [("", j)] && m.dim[n] == [("", n)];
    }
  }

  /** Nothing on any chain is out of reach. */
  ghost predicate Complete(m: Measures) {
    forall u, wanted :: u in m.dim ==> Found(m, u, wanted)
  }

  /** What is on the chain is found. */
  ghost predicate Found(m: Measures, u: Id, wanted: Id) {
    StandsWithin(m, u, wanted, REACH) <==> StandsIn(m, u, wanted)
  }

  /** The bound loses nothing for as many as 64 units of the user's, and for no
      more than that. */
  lemma ReachExactly(n: nat)
    ensures (forall m :: WellFormed(m) && Accepted(m) && |m.user| == n ==> Complete(m)) <==> n <= REACH
  {
    hide WellFormed, Accepted, StandsWithin, StandsIn, Ladder;
    if n <= REACH {
      forall m | WellFormed(m) && Accepted(m) && |m.user| == n ensures Complete(m) {
        forall u, wanted | u in m.dim ensures Found(m, u, wanted) {
          ReachIsEnough(m, u, wanted);
        }
      }
    } else {
      LongChainIsMissed(n);
      assert !Found(Ladder(n), 0, n);
    }
  }

  /** The walk along a chain, no farther than it reaches. */
  method Search(m: Measures, u: Id, wanted: Id) returns (answer: bool)
    requires WellFormed(m) && u in m.dim && wanted in m.dim
    ensures answer <==> StandsWithin(m, u, wanted, REACH)
  {
    assert Walk(m, u, 0) == At(u);
    if m.dim[u] == m.dim[wanted] {
      assert Alike(m, Walk(m, u, 0).unit, wanted);
      return true;
    }
    var seen := 0;
    var step := if u in m.decay then At(m.decay[u]) else End;
    while step.At? && seen < REACH
      invariant 0 <= seen <= REACH && step == Walk(m, u, seen + 1)
      invariant forall j :: 0 <= j <= seen && Walk(m, u, j).At? ==> !Alike(m, Walk(m, u, j).unit, wanted)
      decreases REACH - seen
    {
      WalkKnown(m, u, seen + 1);
      if m.dim[step.unit] == m.dim[wanted] {
        assert Alike(m, Walk(m, u, seen + 1).unit, wanted);
        return true;
      }
      step := if step.unit in m.decay then At(m.decay[step.unit]) else End;
      seen := seen + 1;
    }
    if step.End? { EndsForGood(m, u, seen + 1); }
    return false;
  }

  /** The units of a session, each remembering what it was asked. */
  class Memory {
    const m: Measures
    var stands: map<(Id, Id), bool>

    constructor (m: Measures)
      requires WellFormed(m)
      ensures this.m == m && Valid()
    {
      this.m := m;
      stands := map[];
    }

    ghost predicate Valid()
      reads this
    {
      WellFormed(m) && forall u, w :: (u, w) in stands ==>
        u in m.dim && w in m.dim && (stands[(u, w)] <==> StandsWithin(m, u, w, REACH))
    }

    /** `stands_in_for` */
    method StandsInFor(u: Id, wanted: Id) returns (answer: bool)
      requires Valid() && u in m.dim && wanted in m.dim
      modifies this
      ensures Valid()
      ensures answer <==> StandsWithin(m, u, wanted, REACH)
    {
      hide WellFormed, StandsWithin;
      if (u, wanted) in stands { return stands[(u, wanted)]; }
      answer := Search(m, u, wanted);
      stands := stands[(u, wanted) := answer];
    }

    /** Whatever was asked before, the answer is that of the uncached walk; and
        with at most 64 user's units the check has accepted, it is whether the
        wanted dimension is anywhere on the chain. */
    method Ask(queries: seq<(Id, Id)>) returns (answers: seq<bool>)
      requires Valid() && forall i :: 0 <= i < |queries| ==> queries[i].0 in m.dim && queries[i].1 in m.dim
      modifies this
      ensures Valid() && |answers| == |queries|
      ensures forall i :: 0 <= i < |queries| ==> (answers[i] <==> StandsWithin(m, queries[i].0, queries[i].1, REACH))
      ensures Accepted(m) && |m.user| <= REACH ==>
                forall i :: 0 <= i < |queries| ==> (answers[i] <==> StandsIn(m, queries[i].0, queries[i].1))
    {
      answers := [];
      for i := 0 to |queries|
        invariant Valid() && |answers| == i
        invariant forall j :: 0 <= j < i ==> (answers[j] <==> StandsWithin(m, queries[j].0, queries[j].1, REACH))
      {
        var one := StandsInFor(queries[i].0, queries[i].1);
        answers := answers + [one];
      }
      if Accepted(m) && |m.user| <= REACH {
        forall i | 0 <= i < |queries| ensures answers[i] <==> StandsIn(m, queries[i].0, queries[i].1) {
          ReachIsEnough(m, queries[i].0, queries[i].1);
        }
      }
    }
  }
}
