/** A match over an enumeration: its dispatch table and the walk (interp/eval.py). */
module EnumMatch {
  datatype Kind = Wildcard | Enumerator | OtherKind

  datatype Arm = Arm(kind: Kind, typeName: string, member: string)

  /** An enumeration: what each member is worth, and a name for each value.  One
      object is one enumeration; two of a name may be told apart. */
  class EnumType {
    const name: string
    const members: map<string, int>
    const names: map<int, string>

    constructor (name: string, members: map<string, int>, names: map<int, string>)
      ensures this.name == name && this.members == members && this.names == names
    {
      this.name, this.members, this.names := name, members, names;
    }
  }

  datatype Subject = NotAnEnum | Of(et: EnumType, value: int)

  /** Which arm a match runs, or how it is refused. */
  datatype Choice = Runs(arm: nat) | RefusesSubject | RefusesArm(arm: nat) | NoArmFor(value: int)

  datatype Found = NoneYet | First(arm: nat)

  // ---- the walk ------------------------------------------------------------------

  predicate Misnamed(a: Arm, et: EnumType) { a.kind.Enumerator? && a.typeName != et.name }

  predicate Names(a: Arm, et: EnumType, value: int) {
    a.kind.Enumerator? && a.typeName == et.name && a.member in et.members && et.members[a.member] == value
  }

  /** `_eval_match_by_enum_walk` from arm `i` on, with the first `_` met so far. */
  function WalkFrom(arms: seq<Arm>, i: nat, wildcard: Found, et: EnumType, value: int): Choice
    requires i <= |arms|
    decreases |arms| - i
  {
    if i == |arms| then (match wildcard case First(k) => Runs(k) case NoneYet => NoArmFor(value))
    else if arms[i].kind.Wildcard? then
      WalkFrom(arms, i + 1, if wildcard.First? then wildcard else First(i), et, value)
    else if Misnamed(arms[i], et) then RefusesArm(i)
    else if Names(arms[i], et, value) then Runs(i)
    else WalkFrom(arms, i + 1, wildcard, et, value)
  }

  function Walk(arms: seq<Arm>, s: Subject): Choice {
    if s.NotAnEnum? then RefusesSubject else WalkFrom(arms, 0, NoneYet, s.et, s.value)
  }

  // ---- what the walk comes to -------------------------------------------------------

  predicate IsFirst(arms: seq<Arm>, i: nat, et: EnumType, value: int) {
    i < |arms| && Names(arms[i], et, value) && forall j :: 0 <= j < i ==> !Names(arms[j], et, value)
  }

  predicate IsFirstMisnamed(arms: seq<Arm>, i: nat, et: EnumType) {
    i < |arms| && Misnamed(arms[i], et) && forall j :: 0 <= j < i ==> !Misnamed(arms[j], et)
  }

  /** The first `_` among the first `n` arms. */
  predicate IsWildcard(arms: seq<Arm>, n: nat, w: Found) {
    n <= |arms| && match w
      case NoneYet => forall j :: 0 <= j < n ==> !arms[j].kind.Wildcard?
      case First(k) => k < n && arms[k].kind.Wildcard? && forall j :: 0 <= j < k ==> !arms[j].kind.Wildcard?
  }

  /** The walk says one thing only: the first arm that names the value, unless one
      that names another enumeration stands before it; else the first `_`. */
  predicate Decides(arms: seq<Arm>, et: EnumType, value: int, c: Choice) {
    match c
    case RefusesSubject => false
    case RefusesArm(i) => IsFirstMisnamed(arms, i, et) && forall j :: 0 <= j < i ==> !Names(arms[j], et, value)
    case Runs(i) =>
      (IsFirst(arms, i, et, value) && forall j :: 0 <= j < i ==> !Misnamed(arms[j], et)) ||
      (IsWildcard(arms, |arms|, First(i)) &&
       forall j :: 0 <= j < |arms| ==> !Names(arms[j], et, value) && !Misnamed(arms[j], et))
    case NoArmFor(v) =>
      v == value && IsWildcard(arms, |arms|, NoneYet) &&
      forall j :: 0 <= j < |arms| ==> !Names(arms[j], et, value) && !Misnamed(arms[j], et)
  }

  lemma {:induction false} WalkDecides(arms: seq<Arm>, i: nat, w: Found, et: EnumType, value: int)
    requires i <= |arms| && IsWildcard(arms, i, w)
    requires forall j :: 0 <= j < i ==> !Names(arms[j], et, value) && !Misnamed(arms[j], et)
    ensures Decides(arms, et, value, WalkFrom(arms, i, w, et, value))
    decreases |arms| - i
  {
    if i < |arms| {
      if arms[i].kind.Wildcard? {
        WalkDecides(arms, i + 1, if w.First? then w else First(i), et, value);
      } else if !Misnamed(arms[i], et) && !Names(arms[i], et, value) {
        WalkDecides(arms, i + 1, w, et, value);
      }
    }
  }

  /** No two choices fit. */
  lemma OneDecision(arms: seq<Arm>, et: EnumType, value: int, a: Choice, b: Choice)
    requires Decides(arms, et, value, a) && Decides(arms, et, value, b)
    ensures a == b
  {
    match a
    case RefusesArm(i) => match b { case RefusesArm(j) => assert !(i < j) && !(j < i); case _ => }
    case Runs(i) => match b { case Runs(j) => assert !(i < j) && !(j < i); case _ => }
    case _ =>
  }

  /** The walk's choice is the one that fits, and no other does. */
  lemma WalkIsTheDecision(arms: seq<Arm>, et: EnumType, value: int, c: Choice)
    ensures Decides(arms, et, value, c) <==> c == Walk(arms, Of(et, value))
  {
    WalkDecides(arms, 0, NoneYet, et, value);
    if Decides(arms, et, value, c) { OneDecision(arms, et, value, c, Walk(arms, Of(et, value))); }
  }

  // ---- the table -------------------------------------------------------------------------

  /** The table for one enumeration: the first arm naming each value, and the
      first `_`. */
  datatype Plan = Plan(et: EnumType, table: map<int, nat>, wildcard: Found)
  datatype Built = Plans(plan: Plan) | Refuses(arm: nat)

  /** What a table over the first `n` arms holds. */
  ghost predicate Tabulates(p: Plan, arms: seq<Arm>, n: nat) {
    n <= |arms| && IsWildcard(arms, n, p.wildcard) &&
    (forall v :: v in p.table ==> p.table[v] < n && IsFirst(arms, p.table[v], p.et, v)) &&
    (forall j, v :: 0 <= j < n && Names(arms[j], p.et, v) ==> v in p.table) &&
    forall j :: 0 <= j < n ==> !Misnamed(arms[j], p.et)
  }

  /** Probing the table. */
  function Probe(p: Plan, value: int): Choice {
    if value in p.table then Runs(p.table[value])
    else match p.wildcard case First(k) => Runs(k) case NoneYet => NoArmFor(value)
  }

  lemma ProbeDecides(p: Plan, arms: seq<Arm>, value: int)
    requires Tabulates(p, arms, |arms|)
    ensures Decides(arms, p.et, value, Probe(p, value))
  {}

  /** `_enum_match_plan` */
  method BuildPlan(arms: seq<Arm>, et: EnumType) returns (b: Built)
    ensures b.Plans? ==> b.plan.et == et && Tabulates(b.plan, arms, |arms|)
    ensures b.Refuses? ==> IsFirstMisnamed(arms, b.arm, et)
  {
    var table: map<int, nat>, wildcard := map[], NoneYet;
    for i := 0 to |arms|
      invariant Tabulates(Plan(et, table, wildcard), arms, i)
    {
      var a := arms[i];
      if a.kind.Wildcard? {
        wildcard := if wildcard.First? then wildcard else First(i);
        continue;
      }
      if !a.kind.Enumerator? { continue; }
      if a.typeName != et.name { return Refuses(i); }
      if a.member in et.members && et.members[a.member] !in table {
        table := table[et.members[a.member] := i];
      }
    }
    b := Plans(Plan(et, table, wildcard));
  }

  /** What the static check demands: every arm that names an enumeration names
      the same one. */
  predicate OneEnumeration(arms: seq<Arm>) {
    forall i, j :: 0 <= i < |arms| && 0 <= j < |arms| && arms[i].kind.Enumerator? && arms[j].kind.Enumerator? ==>
      arms[i].typeName == arms[j].typeName
  }

  /** An arm that names another enumeration stands behind one the subject
      reaches: the walk stops before it, building the table does not. */
  ghost predicate MisnamedBehind(arms: seq<Arm>, et: EnumType, value: int) {
    exists i, j :: 0 <= i < j < |arms| && Names(arms[i], et, value) && Misnamed(arms[j], et) &&
                   forall k :: 0 <= k < i ==> !Misnamed(arms[k], et)
  }

  /** A match in the tree, with the table it keeps. */
  class Match {
    const arms: seq<Arm>
    var cached: seq<Plan>

    constructor (arms: seq<Arm>)
      ensures this.arms == arms && Valid()
    {
      this.arms := arms;
      cached := [];
    }

    ghost predicate Valid()
      reads this
    {
      |cached| <= 1 && forall i :: 0 <= i < |cached| ==> Tabulates(cached[i], arms, |arms|)
    }

    /** `_eval_match_by_enum`: the walk's choice, whatever was asked before,
        exactly where no arm of another enumeration hides behind the one the
        subject reaches. */
    method Dispatch(s: Subject) returns (c: Choice)
      requires Valid()
      modifies this
      ensures Valid()
      ensures s.NotAnEnum? ==> c == RefusesSubject
      ensures s.Of? ==> (c == Walk(arms, s) <==> !MisnamedBehind(arms, s.et, s.value))
    {
      if s.NotAnEnum? { return RefusesSubject; }
      var plan: Plan;
      if cached != [] && cached[0].et == s.et {
        plan := cached[0];
      } else {
        var b := BuildPlan(arms, s.et);
        if b.Refuses? {
          RefusalAgrees(arms, s.et, s.value, b.arm);
          return RefusesArm(b.arm);
        }
        plan := b.plan;
        cached := [plan];
      }
      ProbeDecides(plan, arms, s.value);
      c := Probe(plan, s.value);
      WalkIsTheDecision(arms, s.et, s.value, c);
    }

    /** A match the check lets through picks, for every subject of a run, the arm
        the walk picks or the refusal it makes. */
    method DispatchAll(subjects: seq<Subject>) returns (cs: seq<Choice>)
      requires Valid() && OneEnumeration(arms)
      modifies this
      ensures Valid() && |cs| == |subjects|
      ensures forall i :: 0 <= i < |subjects| ==> cs[i] == Walk(arms, subjects[i])
    {
      cs := [];
      for i := 0 to |subjects|
        invariant Valid() && |cs| == i
        invariant forall j :: 0 <= j < i ==> cs[j] == Walk(arms, subjects[j])
      {
        var c := Dispatch(subjects[i]);
        cs := cs + [c];
      }
    }
  }

  /** Refusing while building the table is what the walk does too, unless the
      subject's own arm comes first. */
  lemma RefusalAgrees(arms: seq<Arm>, et: EnumType, value: int, j: nat)
    requires IsFirstMisnamed(arms, j, et)
    ensures RefusesArm(j) == WalkFrom(arms, 0, NoneYet, et, value) <==> !MisnamedBehind(arms, et, value)
  {
    WalkIsTheDecision(arms, et, value, RefusesArm(j));
    if i :| 0 <= i < j && Names(arms[i], et, value) { assert MisnamedBehind(arms, et, value); }
  }

  /** An arm of another enumeration behind the subject's own: the walk runs the
      first, and the table cannot be built. */
  lemma MisnamedArmIsRefused(et: EnumType, member: string, other: string)
    requires member in et.members && other != et.name
    ensures var arms := [Arm(Enumerator, et.name, member), Arm(Enumerator, other, member)];
            Walk(arms, Of(et, et.members[member])) == Runs(0) && IsFirstMisnamed(arms, 1, et) &&
            MisnamedBehind(arms, et, et.members[member])
  {
    var arms := [Arm(Enumerator, et.name, member), Arm(Enumerator, other, member)];
    assert Names(arms[0], et, et.members[member]) && Misnamed(arms[1], et);
  }

  // ---- the check before the program runs ---------------------------------------------------

  /** `_check_enum_match`: one enumeration, members it has, and every value
      covered or a `_`. */
  predicate Checked(arms: seq<Arm>, et: EnumType) {
    (exists i :: 0 <= i < |arms| && arms[i].kind.Enumerator?) &&
    (forall i :: 0 <= i < |arms| ==>
       arms[i].kind.Wildcard? ||
       (arms[i].kind.Enumerator? && arms[i].typeName == et.name && arms[i].member in et.members)) &&
    ((exists i :: 0 <= i < |arms| && arms[i].kind.Wildcard?) || forall v :: v in et.names ==> Covered(arms, et, v))
  }

  predicate Covered(arms: seq<Arm>, et: EnumType, v: int) {
    exists i :: 0 <= i < |arms| && Names(arms[i], et, v)
  }

  /** A checked match refuses a subject of its enumeration exactly when it has no
      `_` and the subject's value is one no arm names, which no value the
      enumeration has a name for is. */
  lemma CheckedRefusesExactly(arms: seq<Arm>, et: EnumType, value: int)
    requires Checked(arms, et)
    ensures var c := Walk(arms, Of(et, value));
            (!c.Runs? <==> !Covered(arms, et, value) && !exists i :: 0 <= i < |arms| && arms[i].kind.Wildcard?) &&
            (value in et.names ==> c.Runs?)
  {
    WalkDecides(arms, 0, NoneYet, et, value);
  }
}
