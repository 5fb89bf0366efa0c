/** What running a block comes to, statement by statement: loops, calls, reads, stores (interp/eval.py). */
module Laws {
  import opened Syntax
  import opened Semantics

  // ---- blocks -------------------------------------------------------------------------

  lemma OneStatement(p: Program, f: nat, t: Stmt, s: State)
    requires f > 0
    ensures EvalStmts(p, Walked, f, [t], s) == WalkStmt(p, Walked, f - 1, t, s)
  {
    hide WalkStmt;
    var r := WalkStmt(p, Walked, f - 1, t, s);
    assert [t][1..] == [];
    assert r.out.Normal? ==> WalkStmts(p, Walked, f - 1, [], r.out.v, r.st) == r;
  }

  lemma {:induction false} WalkAppend(p: Program, f: nat, a: seq<Stmt>, b: seq<Stmt>, last: Value, s: State)
    ensures var r := WalkStmts(p, Walked, f, a, last, s);
            WalkStmts(p, Walked, f, a + b, last, s)
            == if r.out.Normal? then WalkStmts(p, Walked, f, b, r.out.v, r.st) else r
    decreases a
  {
    hide WalkStmt;
    if a == [] {
      assert a + b == b;
    } else {
      assert (a + b)[0] == a[0] && (a + b)[1..] == a[1..] + b;
      var r := WalkStmt(p, Walked, f, a[0], s);
      if r.out.Normal? { WalkAppend(p, f, a[1..], b, r.out.v, r.st); }
    }
  }

  /** A block whose first statements go on to one that does not ends there, and
      nothing behind it is run. */
  lemma RunsUpTo(p: Program, f: nat, a: seq<Stmt>, t: Stmt, rest: seq<Stmt>, s: State)
    requires f > 0 && EvalStmts(p, Walked, f, a, s).out.Normal?
    requires !EvalStmts(p, Walked, f, [t], EvalStmts(p, Walked, f, a, s).st).out.Normal?
    ensures EvalStmts(p, Walked, f, a + [t] + rest, s)
            == EvalStmts(p, Walked, f, [t], EvalStmts(p, Walked, f, a, s).st)
  {
    hide WalkStmt;
    var r := EvalStmts(p, Walked, f, a, s);
    assert a + [t] + rest == a + ([t] + rest);
    WalkAppend(p, f - 1, a, [t] + rest, NoneV, s);
    OneStatement(p, f, t, r.st);
    assert ([t] + rest)[0] == t;
  }

  // ---- loops --------------------------------------------------------------------------

  /** In a loop of this name, and in these loops. */
  function InLoop(s: State, tag: Option<Name>): State { s.(core := s.core.(loops := s.core.loops + [tag])) }
  function InLoops(s: State, loops: seq<Option<Name>>): State { s.(core := s.core.(loops := loops)) }

  /** A loop around what its body comes to: what stands before it, and after. */
  datatype Level = Level(cond: Expr, before: seq<Stmt>, after: seq<Stmt>, tag: Option<Name>, pos: Pos)

  function Around(l: Level, t: Stmt): Stmt { While(l.cond, l.before + [t] + l.after, l.tag, l.pos) }

  function Nest(ls: seq<Level>, t: Stmt): Stmt {
    if ls == [] then t else Around(ls[0], Nest(ls[1..], t))
  }

  /** The condition holds, and what stands before goes on, in the loops it was in. */
  predicate Enters(p: Program, f: nat, l: Level, s: State) {
    f >= 3 &&
    var c := Eval(p, Walked, f - 2, l.cond, Enter(l.pos, s));
    c.out.Normal? && p.ops.truth(c.out.v) && c.st.core.loops == s.core.loops &&
    var r := EvalStmts(p, Walked, f - 2, l.before, InLoop(c.st, l.tag));
    r.out.Normal? && r.st.core.loops == InLoop(c.st, l.tag).core.loops
  }

  function Entered(p: Program, f: nat, l: Level, s: State): State
    requires f >= 2
  {
    EvalStmts(p, Walked, f - 2, l.before, InLoop(Eval(p, Walked, f - 2, l.cond, Enter(l.pos, s)).st, l.tag)).st
  }

  predicate Reaches(p: Program, f: nat, ls: seq<Level>, s: State)
    decreases ls
  {
    ls == [] || (Enters(p, f, ls[0], s) && Reaches(p, f - 2, ls[1..], Entered(p, f, ls[0], s)))
  }

  function Reached(p: Program, f: nat, ls: seq<Level>, s: State): State
    requires Reaches(p, f, ls, s)
    decreases ls
  {
    if ls == [] then s else Reached(p, f - 2, ls[1..], Entered(p, f, ls[0], s))
  }

  /** What one turn of a loop leaves to be done where its body came so far. */
  lemma TurnEnds(p: Program, f: nat, l: Level, t: Stmt, s: State)
    requires Enters(p, f, l, s)
    requires var r := EvalStmts(p, Walked, f - 2, [t], Entered(p, f, l, s)); !r.out.Normal?
    ensures var r := EvalStmts(p, Walked, f - 2, [t], Entered(p, f, l, s));
            var out := InLoops(r.st, r.st.core.loops[..if r.st.core.loops == [] then 0 else |r.st.core.loops| - 1]);
            var mine := (r.out.Broke? || r.out.Continued?) && (r.out.tag.None? || r.out.tag == l.tag);
            EvalStmts(p, Walked, f, [Around(l, t)], s)
            == if !mine then Run(r.out, out)
               else if r.out.Broke? then Run(Normal(NoneV), out)
               else EvalStmts(p, Walked, f - 1, [Around(l.(pos := NoPos), t)], out)
  {
    var w, body := Around(l, t), l.before + [t] + l.after;
    var c := Eval(p, Walked, f - 2, l.cond, Enter(l.pos, s));
    var r := EvalStmts(p, Walked, f - 2, [t], Entered(p, f, l, s));
    OneStatement(p, f, w, s);
    RunsUpTo(p, f - 2, l.before, t, l.after, InLoop(c.st, l.tag));
    hide Eval, EvalStmts, WhileLoop;
    WhileTurn(p, f - 1, l.cond, body, l.tag, Enter(l.pos, s));
    OneStatement(p, f - 1, Around(l.(pos := NoPos), t), PopLoop(r.st));
  }

  lemma WhileOver(p: Program, f: nat, cond: Expr, body: seq<Stmt>, tag: Option<Name>, s: State)
    requires f > 0
    ensures var c := Eval(p, Walked, f - 1, cond, s);
            c.out.Normal? && !p.ops.truth(c.out.v) ==>
              WhileLoop(p, Walked, f, cond, body, tag, s) == Run(Normal(NoneV), c.st)
  {
    hide Eval, EvalStmts;
  }

  /** A turn of a loop whose condition held. */
  lemma WhileTurn(p: Program, f: nat, cond: Expr, body: seq<Stmt>, tag: Option<Name>, s: State)
    requires f > 0
    requires var c := Eval(p, Walked, f - 1, cond, s); c.out.Normal? && p.ops.truth(c.out.v)
    ensures var c := Eval(p, Walked, f - 1, cond, s);
            var r := EvalStmts(p, Walked, f - 1, body, InLoop(c.st, tag));
            var out := InLoops(r.st, r.st.core.loops[..if r.st.core.loops == [] then 0 else |r.st.core.loops| - 1]);
            var mine := (r.out.Broke? || r.out.Continued?) && (r.out.tag.None? || r.out.tag == tag);
            WhileLoop(p, Walked, f, cond, body, tag, s)
            == if r.out.Normal? then WhileLoop(p, Walked, f - 1, cond, body, tag, out)
               else if !mine then Run(r.out, out)
               else if r.out.Broke? then Run(Normal(NoneV), out)
               else WhileLoop(p, Walked, f - 1, cond, body, tag, out)
  {
    hide Eval, EvalStmts;
  }

  /** A break or a continue for a loop further out goes through every loop in
      between, each as it was found. */
  lemma {:induction false} PassesThrough(p: Program, f: nat, ls: seq<Level>, isBreak: bool, label_: Name, pos: Pos,
                                         s: State)
    requires f > 0 && Reaches(p, f, ls, s) && Some(label_) in s.core.loops
    requires forall i :: 0 <= i < |ls| ==> ls[i].tag != Some(label_)
    ensures EvalStmts(p, Walked, f, [Nest(ls, Leave(isBreak, Some(label_), pos))], s)
            == Run(if isBreak then Broke(Some(label_)) else Continued(Some(label_)),
                   InLoops(Enter(pos, Reached(p, f, ls, s)), s.core.loops))
    decreases ls
  {
    hide EvalStmts;
    var t := Leave(isBreak, Some(label_), pos);
    if ls == [] {
      OneStatement(p, f, t, s);
    } else {
      var l, s1 := ls[0], Entered(p, f, ls[0], s);
      assert s1.core.loops == s.core.loops + [l.tag];
      PassesThrough(p, f - 2, ls[1..], isBreak, label_, pos, s1);
      TurnEnds(p, f, l, Nest(ls[1..], t), s);
      assert s1.core.loops[..|s.core.loops|] == s.core.loops;
    }
  }

  /** A `break`, however many loops in, that names a loop or is directly in it ends
      that loop, and nothing behind it in any of the bodies is run ... */
  lemma BreakEndsItsLoop(p: Program, f: nat, outer: Level, ls: seq<Level>, label_: Option<Name>, pos: Pos, s: State)
    requires Enters(p, f, outer, s) && Reaches(p, f - 2, ls, Entered(p, f, outer, s))
    requires if label_.None? then ls == [] else outer.tag == label_ && forall i :: 0 <= i < |ls| ==> ls[i].tag != label_
    ensures EvalStmts(p, Walked, f, [Around(outer, Nest(ls, Leave(true, label_, pos)))], s)
            == Run(Normal(NoneV), InLoops(Enter(pos, Reached(p, f - 2, ls, Entered(p, f, outer, s))), s.core.loops))
  {
    LeaveReaches(p, f, outer, ls, true, label_, pos, s);
  }

  /** ... and a `continue` goes round it, from where it was reached. */
  lemma ContinueGoesRound(p: Program, f: nat, outer: Level, ls: seq<Level>, label_: Option<Name>, pos: Pos, s: State)
    requires Enters(p, f, outer, s) && Reaches(p, f - 2, ls, Entered(p, f, outer, s))
    requires if label_.None? then ls == [] else outer.tag == label_ && forall i :: 0 <= i < |ls| ==> ls[i].tag != label_
    ensures var t := Nest(ls, Leave(false, label_, pos));
            EvalStmts(p, Walked, f, [Around(outer, t)], s)
            == EvalStmts(p, Walked, f - 1, [Around(outer.(pos := NoPos), t)],
                         InLoops(Enter(pos, Reached(p, f - 2, ls, Entered(p, f, outer, s))), s.core.loops))
  {
    LeaveReaches(p, f, outer, ls, false, label_, pos, s);
  }

  lemma LeaveReaches(p: Program, f: nat, outer: Level, ls: seq<Level>, isBreak: bool, label_: Option<Name>, pos: Pos,
                     s: State)
    requires Enters(p, f, outer, s) && Reaches(p, f - 2, ls, Entered(p, f, outer, s))
    requires if label_.None? then ls == [] else outer.tag == label_ && forall i :: 0 <= i < |ls| ==> ls[i].tag != label_
    ensures var t := Nest(ls, Leave(isBreak, label_, pos));
            var end := InLoops(Enter(pos, Reached(p, f - 2, ls, Entered(p, f, outer, s))), s.core.loops);
            EvalStmts(p, Walked, f, [Around(outer, t)], s)
            == if isBreak then Run(Normal(NoneV), end)
               else EvalStmts(p, Walked, f - 1, [Around(outer.(pos := NoPos), t)], end)
  {
    hide EvalStmts, Eval, Enters, Entered, Reaches, Reached, Nest, Enter;
    LoopsAre(p, f, outer, s);
    var t, s1 := Leave(isBreak, label_, pos), Entered(p, f, outer, s);
    NestLeaves(p, f - 2, outer.tag, ls, isBreak, label_, pos, s1);
    var y := Enter(pos, Reached(p, f - 2, ls, s1));
    TurnLeft(p, f, outer, Nest(ls, t), isBreak, label_, InLoops(y, s1.core.loops), s);
    assert InLoops(InLoops(y, s1.core.loops), s.core.loops) == InLoops(y, s.core.loops);
  }

  lemma TurnLeft(p: Program, f: nat, l: Level, t: Stmt, isBreak: bool, label_: Option<Name>, x: State, s: State)
    requires Enters(p, f, l, s) && x.core.loops == s.core.loops + [l.tag] && (label_.None? || label_ == l.tag)
    requires EvalStmts(p, Walked, f - 2, [t], Entered(p, f, l, s))
             == Run(if isBreak then Broke(label_) else Continued(label_), x)
    ensures EvalStmts(p, Walked, f, [Around(l, t)], s)
            == if isBreak then Run(Normal(NoneV), InLoops(x, s.core.loops))
               else EvalStmts(p, Walked, f - 1, [Around(l.(pos := NoPos), t)], InLoops(x, s.core.loops))
  {
    hide EvalStmts, Eval, Enters, Entered;
    TurnEnds(p, f, l, t, s);
    assert x.core.loops[..|s.core.loops|] == s.core.loops;
  }

  /** What is left to be done where a loop's body has come to a break or a continue
      that is for it. */
  lemma NestLeaves(p: Program, f: nat, tag: Option<Name>, ls: seq<Level>, isBreak: bool, label_: Option<Name>, pos: Pos,
                   s: State)
    requires f > 0 && Reaches(p, f, ls, s) && s.core.loops != [] && s.core.loops[|s.core.loops| - 1] == tag
    requires if label_.None? then ls == [] else tag == label_ && forall i :: 0 <= i < |ls| ==> ls[i].tag != label_
    ensures EvalStmts(p, Walked, f, [Nest(ls, Leave(isBreak, label_, pos))], s)
            == Run(if isBreak then Broke(label_) else Continued(label_),
                   InLoops(Enter(pos, Reached(p, f, ls, s)), s.core.loops))
  {
    hide Eval;
    if label_.None? {
      OneStatement(p, f, Leave(isBreak, None, pos), s);
    } else {
      PassesThrough(p, f, ls, isBreak, label_.value, pos, s);
    }
  }

  lemma LoopsAre(p: Program, f: nat, l: Level, s: State)
    requires Enters(p, f, l, s)
    ensures f >= 3 && Entered(p, f, l, s).core.loops == s.core.loops + [l.tag]
  {
    hide Eval, EvalStmts;
  }

  /** In no loop, or in none of that name, it fails. */
  lemma LeavingNoLoopFails(p: Program, f: nat, isBreak: bool, label_: Option<Name>, pos: Pos, s: State)
    requires f > 0
    ensures var r := EvalStmts(p, Walked, f, [Leave(isBreak, label_, pos)], s);
            (s.core.loops == [] ==> r.out == Failed(OutsideLoop)) &&
            (s.core.loops != [] && label_.Some? && label_ !in s.core.loops ==>
               r.out == Failed(NoSuchLoop(label_.value)))
  {
    OneStatement(p, f, Leave(isBreak, label_, pos), s);
  }

  /** A loop whose condition does not hold is over; one whose body comes to its end
      goes round. */
  lemma WhileGoesOn(p: Program, f: nat, cond: Expr, body: seq<Stmt>, tag: Option<Name>, pos: Pos, s: State)
    requires f >= 3
    ensures var c := Eval(p, Walked, f - 2, cond, Enter(pos, s));
            var r := EvalStmts(p, Walked, f - 2, body, InLoop(c.st, tag));
            var w := EvalStmts(p, Walked, f, [While(cond, body, tag, pos)], s);
            (c.out.Normal? && !p.ops.truth(c.out.v) ==> w == Run(Normal(NoneV), c.st)) &&
            (c.out.Normal? && p.ops.truth(c.out.v) && r.out.Normal? && r.st.core.loops == c.st.core.loops + [tag] ==>
               w == EvalStmts(p, Walked, f - 1, [While(cond, body, tag, NoPos)], InLoops(r.st, c.st.core.loops)))
  {
    hide EvalStmts;
    OneStatement(p, f, While(cond, body, tag, pos), s);
    hide Eval;
    var s1 := Enter(pos, s);
    WhileOver(p, f - 1, cond, body, tag, s1);
    var c := Eval(p, Walked, f - 2, cond, s1);
    var r := EvalStmts(p, Walked, f - 2, body, InLoop(c.st, tag));
    if c.out.Normal? && p.ops.truth(c.out.v) && r.st.core.loops == c.st.core.loops + [tag] {
      WhileTurn(p, f - 1, cond, body, tag, s1);
      assert r.st.core.loops[..|c.st.core.loops|] == c.st.core.loops;
      OneStatement(p, f - 1, While(cond, body, tag, NoPos), InLoops(r.st, c.st.core.loops));
    }
  }

  /** A condition and a block that leave the loops in hand as they were. */
  ghost predicate Steady(p: Program, cond: Expr, b: seq<Stmt>) {
    (forall f: nat, s :: Eval(p, Walked, f, cond, s).st.core.loops == s.core.loops) &&
    forall f: nat, s :: EvalStmts(p, Walked, f, b, s).out.Normal? ==>
      EvalStmts(p, Walked, f, b, s).st.core.loops == s.core.loops
  }

  /** A loop whose body has a `continue` in it is, from any state and for all its
      turns, the loop whose body ends there. */
  lemma ContinueCutsTheBody(p: Program, f: nat, cond: Expr, b: seq<Stmt>, rest: seq<Stmt>, tag: Option<Name>,
                            at: Pos, pos: Pos, s: State)
    requires Steady(p, cond, b)
    ensures var cut := b + [ExprStmt(Lit(0, NoPos), at)];
            EvalStmts(p, Walked, f, [While(cond, b + [Leave(false, None, at)] + rest, tag, pos)], s)
            == EvalStmts(p, Walked, f, [While(cond, cut, tag, pos)], s)
  {
    hide Eval, Steady;
    if f > 0 {
      OneStatement(p, f, While(cond, b + [Leave(false, None, at)] + rest, tag, pos), s);
      OneStatement(p, f, While(cond, b + [ExprStmt(Lit(0, NoPos), at)], tag, pos), s);
      CutLoop(p, f - 1, cond, b, rest, tag, at, Enter(pos, s));
    }
  }

  lemma {:induction false} CutLoop(p: Program, f: nat, cond: Expr, b: seq<Stmt>, rest: seq<Stmt>, tag: Option<Name>,
                                   at: Pos, s: State)
    requires Steady(p, cond, b)
    ensures WhileLoop(p, Walked, f, cond, b + [Leave(false, None, at)] + rest, tag, s)
            == WhileLoop(p, Walked, f, cond, b + [ExprStmt(Lit(0, NoPos), at)], tag, s)
    decreases f
  {
    hide Eval, EvalStmts;
    var whole, cut := b + [Leave(false, None, at)] + rest, b + [ExprStmt(Lit(0, NoPos), at)];
    if f == 0 {
      assert WhileLoop(p, Walked, f, cond, whole, tag, s) == WhileLoop(p, Walked, f, cond, cut, tag, s);
    } else {
      var c := Eval(p, Walked, f - 1, cond, s);
      if c.out.Normal? && p.ops.truth(c.out.v) {
        var s1 := InLoop(c.st, tag);
        assert c.st.core.loops == s.core.loops;
        CutBody(p, f - 1, cond, b, rest, at, s1);
        hide WhileLoop;
        WhileTurn(p, f, cond, whole, tag, s);
        WhileTurn(p, f, cond, cut, tag, s);
        var r := EvalStmts(p, Walked, f - 1, cut, s1);
        var ls := r.st.core.loops;
        CutLoop(p, f - 1, cond, b, rest, tag, at, InLoops(r.st, ls[..if ls == [] then 0 else |ls| - 1]));
      } else {
        assert WhileLoop(p, Walked, f, cond, whole, tag, s) == WhileLoop(p, Walked, f, cond, cut, tag, s);
      }
    }
  }

  /** The two bodies come to the same state, one continuing and one at its end. */
  lemma CutBody(p: Program, f: nat, cond: Expr, b: seq<Stmt>, rest: seq<Stmt>, at: Pos, s: State)
    requires Steady(p, cond, b) && s.core.loops != []
    ensures var r := EvalStmts(p, Walked, f, b + [Leave(false, None, at)] + rest, s);
            var q := EvalStmts(p, Walked, f, b + [ExprStmt(Lit(0, NoPos), at)], s);
            r.st == q.st && if q.out.Normal? then r.out == Continued(None) else r.out == q.out
  {
    hide WalkStmt;
    var leave, pass := Leave(false, None, at), ExprStmt(Lit(0, NoPos), at);
    if f > 0 {
      var r := EvalStmts(p, Walked, f, b, s);
      assert b + [leave] + rest == b + ([leave] + rest);
      WalkAppend(p, f - 1, b, [leave] + rest, NoneV, s);
      WalkAppend(p, f - 1, b, [pass], NoneV, s);
      if r.out.Normal? {
        assert r.st.core.loops == s.core.loops;
        assert ([leave] + rest)[0] == leave && [pass][1..] == [];
        LeaveIs(p, f - 1, at, r.st);
        PassIs(p, f - 1, at, r.st);
      }
    }
  }

  lemma LeaveIs(p: Program, f: nat, at: Pos, s: State)
    requires s.core.loops != []
    ensures WalkStmt(p, Walked, f, Leave(false, None, at), s) == Run(Continued(None), Enter(at, s))
  {}

  lemma PassIs(p: Program, f: nat, at: Pos, s: State)
    ensures WalkStmt(p, Walked, f, ExprStmt(Lit(0, NoPos), at), s) == Run(Normal(IntV(0)), Enter(at, s))
  {
    assert Eval(p, Walked, f, Lit(0, NoPos), Enter(at, s)) == Run(Normal(IntV(0)), Enter(at, s));
  }

  // ---- foreach --------------------------------------------------------------------------

  /** The innermost frame with the name bound, the name held, and let go again. */
  function Bind(s: State, x: Name, v: Value): State {
    var fs := s.core.frames;
    if fs == [] then s else s.(core := s.core.(frames := fs[|fs| - 1 := fs[|fs| - 1][x := v]]))
  }

  function HeldIn(s: State, x: Name): State { s.(core := s.core.(frozen := s.core.frozen[x := HeldForEach])) }

  function LetGo(s: State, x: Name): State {
    s.(core := s.core.(frozen := map y | y in s.core.frozen && y != x :: s.core.frozen[y]))
  }

  /** What the body comes to in the turn that begins at s. */
  function TurnRun(p: Program, f: nat, t: Stmt, v: Value, s: State): Run
    requires t.ForEach?
  {
    EvalStmts(p, Walked, f, t.body, InLoop(Bind(s, t.name, v), t.tag))
  }

  predicate ForThis(tag: Option<Name>, signal: Option<Name>) { signal.None? || signal == tag }

  /** The turns from i to k all go on, each binding the element at its own place of
      the list as it then is, and each beginning where the one before it ended. */
  predicate TurnsGoOn(p: Program, f: nat, t: Stmt, h: nat, i: nat, k: nat, sts: seq<State>)
    requires t.ForEach?
  {
    k < |sts| && forall j :: i <= j < k ==>
      j < |ListOf(sts[j].core, h)| &&
      var r := TurnRun(p, f, t, ListOf(sts[j].core, h)[j], sts[j]);
      (r.out.Normal? || (r.out.Continued? && ForThis(t.tag, r.out.tag))) &&
      r.st.core.loops == sts[j].core.loops + [t.tag] && sts[j + 1] == InLoops(r.st, sts[j].core.loops)
  }

  /** A foreach takes the elements of its list in order, its name held and bound in
      every turn; it is over after the last or at a break that is for it, anything
      else that ends a turn ends it so, and however it ends its name is let go. */
  lemma ForEachTakesInOrder(p: Program, f: nat, t: Stmt, h: nat, n: nat, k: nat, sts: seq<State>, s: State)
    requires t.ForEach? && f > 0 && k <= n
    requires var v := Eval(p, Walked, f - 1, t.iterable, Enter(t.pos, s));
             v.out.Normal? &&
             var it := Perform(p, Iterate(v.out.v, t.name), v.st);
             it.out == Normal(ListV(h)) && n == |ListOf(it.st.core, h)| && |sts| > 0 && sts[0] == HeldIn(it.st, t.name)
    requires TurnsGoOn(p, f - 1, t, h, 0, k, sts)
    ensures k == n ==> EvalStmts(p, Walked, f, [t], s) == Run(Normal(NoneV), LetGo(sts[k], t.name))
    ensures k < n && k < |ListOf(sts[k].core, h)| ==>
              var r := TurnRun(p, f - 1, t, ListOf(sts[k].core, h)[k], sts[k]);
              !r.out.Normal? && r.st.core.loops == sts[k].core.loops + [t.tag] &&
              !(r.out.Continued? && ForThis(t.tag, r.out.tag)) ==>
                EvalStmts(p, Walked, f, [t], s)
                == Run(if r.out.Broke? && ForThis(t.tag, r.out.tag) then Normal(NoneV) else r.out,
                       LetGo(InLoops(r.st, sts[k].core.loops), t.name))
  {
    hide ForTurns, Eval, EvalStmts, TurnsGoOn, TurnRun;
    OneStatement(p, f, t, s);
    var v := Eval(p, Walked, f - 1, t.iterable, Enter(t.pos, s));
    var it := Perform(p, Iterate(v.out.v, t.name), v.st);
    assert ForSetup(p, Walked, f - 1, t.name, t.iterable, Enter(t.pos, s)) == Run(Normal(ListV(h)), sts[0]);
    var turns := ForTurns(p, Walked, f - 1, t.name, t.body, t.tag, h, 0, n, sts[0]);
    assert WalkForEach(p, Walked, f - 1, t, Enter(t.pos, s)) == Run(turns.out, Release(turns.st, t.name));
    ReleaseLetsGo(turns.st, t.name);
    TurnsFrom(p, f - 1, t, h, 0, k, n, sts);
  }

  lemma ReleaseLetsGo(s: State, x: Name)
    ensures Release(s, x) == LetGo(s, x)
  {
    assert s.core.frozen - {x} == map y | y in s.core.frozen && y != x :: s.core.frozen[y];
  }

  /** The turns from the k-th on came to this. */
  ghost predicate TurnsCome(p: Program, f: nat, t: Stmt, h: nat, k: nat, n: nat, sts: seq<State>, turns: Run)
    requires t.ForEach? && k < |sts|
  {
    (k == n ==> turns == Run(Normal(NoneV), sts[k])) &&
    (k < n && k < |ListOf(sts[k].core, h)| ==>
       var r := TurnRun(p, f, t, ListOf(sts[k].core, h)[k], sts[k]);
       !r.out.Normal? && r.st.core.loops == sts[k].core.loops + [t.tag] &&
       !(r.out.Continued? && ForThis(t.tag, r.out.tag)) ==>
         turns == Run(if r.out.Broke? && ForThis(t.tag, r.out.tag) then Normal(NoneV) else r.out,
                      InLoops(r.st, sts[k].core.loops)))
  }

  lemma {:induction false} TurnsFrom(p: Program, f: nat, t: Stmt, h: nat, i: nat, k: nat, n: nat, sts: seq<State>)
    requires t.ForEach? && i <= k <= n && TurnsGoOn(p, f, t, h, i, k, sts)
    ensures TurnsCome(p, f, t, h, k, n, sts, ForTurns(p, Walked, f, t.name, t.body, t.tag, h, i, n, sts[i]))
    decreases k - i
  {
    hide EvalStmts, TurnRun, ForTurns, TurnsCome;
    if i == k {
      LastTurn(p, f, t, h, k, n, sts);
    } else {
      NextTurn(p, f, t, h, i, k, n, sts);
      FewerTurns(p, f, t, h, i, k, sts);
      TurnsFrom(p, f, t, h, i + 1, k, n, sts);
    }
  }

  lemma NextTurn(p: Program, f: nat, t: Stmt, h: nat, i: nat, k: nat, n: nat, sts: seq<State>)
    requires t.ForEach? && i < k <= n && TurnsGoOn(p, f, t, h, i, k, sts)
    ensures ForTurns(p, Walked, f, t.name, t.body, t.tag, h, i, n, sts[i])
            == ForTurns(p, Walked, f, t.name, t.body, t.tag, h, i + 1, n, sts[i + 1])
  {
    hide EvalStmts, TurnRun, LoopTurn;
    var list := ListOf(sts[i].core, h);
    Within(i, |list|);
    OneTurn(p, f, t, list[i], sts[i]);
  }

  lemma LastTurn(p: Program, f: nat, t: Stmt, h: nat, k: nat, n: nat, sts: seq<State>)
    requires t.ForEach? && k <= n && k < |sts|
    ensures TurnsCome(p, f, t, h, k, n, sts, ForTurns(p, Walked, f, t.name, t.body, t.tag, h, k, n, sts[k]))
  {
    hide EvalStmts, TurnRun, LoopTurn;
    if k < n && k < |ListOf(sts[k].core, h)| {
      var list := ListOf(sts[k].core, h);
      Within(k, |list|);
      OneTurn(p, f, t, list[k], sts[k]);
    }
  }

  lemma FewerTurns(p: Program, f: nat, t: Stmt, h: nat, i: nat, k: nat, sts: seq<State>)
    requires t.ForEach? && TurnsGoOn(p, f, t, h, i, k, sts)
    ensures TurnsGoOn(p, f, t, h, i + 1, k, sts)
  {
    hide TurnRun;
  }

  lemma Within(i: nat, n: nat)
    requires i < n
    ensures i % n == i
  {}

  lemma OneTurn(p: Program, f: nat, t: Stmt, v: Value, s: State)
    requires t.ForEach?
    ensures var r := TurnRun(p, f, t, v, s);
            r.st.core.loops == s.core.loops + [t.tag] ==>
              LoopTurn(p, Walked, f, t.body, t.tag, Define(s, t.name, v))
              == Run(if r.out.Normal? || (r.out.Continued? && ForThis(t.tag, r.out.tag)) then Normal(BoolV(true))
                     else if r.out.Broke? && ForThis(t.tag, r.out.tag) then Normal(BoolV(false)) else r.out,
                     InLoops(r.st, s.core.loops))
  {
    hide EvalStmts;
    assert Define(s, t.name, v) == Bind(s, t.name, v);
    assert (s.core.loops + [t.tag])[..|s.core.loops|] == s.core.loops;
  }

  // ---- expressions on a line -------------------------------------------------------------

  lemma ExprRuns(p: Program, f: nat, e: Expr, s: State)
    requires f > 0
    ensures EvalStmts(p, Walked, f, [ExprStmt(e, NoPos)], s) == Eval(p, Walked, f - 1, e, s)
  {
    hide Eval;
    OneStatement(p, f, ExprStmt(e, NoPos), s);
  }

  /** A run stands where the last node with a position stood. */
  lemma PositionIs(p: Program, f: nat, n: int, at: Pos, pos: Pos, s: State)
    requires f > 0
    ensures EvalStmts(p, Walked, f, [ExprStmt(Lit(n, at), pos)], s)
            == Run(Normal(IntV(n)), s.(pos := if at.At? then at else if pos.At? then pos else s.pos))
  {
    OneStatement(p, f, ExprStmt(Lit(n, at), pos), s);
    var s1 := Enter(pos, s);
    assert Eval(p, Walked, f - 1, Lit(n, at), s1) == Run(Normal(IntV(n)), Enter(at, s1));
  }

  /** A name that was moved or is lent out to be changed is not read, one held
      otherwise is; a pure function reads no global that changes; what a name is
      bound to is read through, and a name bound nowhere is a type's or unknown. */
  lemma ReadIs(p: Program, f: nat, x: Name, s: State)
    requires f > 0
    ensures var r := EvalStmts(p, Walked, f, [ExprStmt(Var(x, NoPos), NoPos)], s);
            var c := s.core;
            var held := if x in c.frozen then Some(c.frozen[x]) else None;
            var bound := LookupFrames(c.base + c.frames, x);
            var global := c.pure.Some? && p.ops.mutableGlobal(x, c) &&
                          !(c.frames != [] && x in c.frames[|c.frames| - 1]);
            if x == "_" then r == Run(Failed(DiscardRead), s)
            else if held == Some(HeldMoved) then r == Run(Failed(UseOfMoved(x)), s)
            else if held == Some(HeldLentMut) then r == Run(Failed(LentOut(x)), s)
            else if global then r == Run(Failed(ImpureRead(x)), s)
            else if bound.Some? && !bound.value.RefV? then r == Run(Normal(bound.value), s)
            else if bound.Some? then r == Perform(p, Deref(bound.value.cell), s)
            else r == Run(if p.ops.typeName(x) then Normal(TypeV(x)) else Failed(Undefined(x)), s)
  {
    ExprRuns(p, f, Var(x, NoPos), s);
    LookupBoth(s.core.base, s.core.frames, x);
  }

  lemma {:induction false} LookupBoth(base: seq<Frame>, own: seq<Frame>, x: Name)
    ensures LookupFrames(base + own, x)
            == if LookupFrames(own, x).Some? then LookupFrames(own, x) else LookupFrames(base, x)
    decreases |own|
  {
    if own == [] {
      assert base + own == base;
    } else {
      assert (base + own)[..|base + own| - 1] == base + own[..|own| - 1];
      LookupBoth(base, own[..|own| - 1], x);
    }
  }

  /** What stands for a truth value: itself, or what wraps one. */
  predicate Says(p: Program, v: Value, b: bool) {
    v == BoolV(b) || (v.WrapV? && p.ops.unwrap(v.id) == BoolV(b))
  }

  /** `and` and `or` on operands that say a truth value: the right one is read where
      the left does not settle it, and together they say what they say in logic. */
  lemma LogicIs(p: Program, f: nat, isAnd: bool, l: Expr, r: Expr, x: bool, y: bool, s: State)
    requires f > 0
    requires var a := Eval(p, Walked, f - 1, l, s); a.out.Normal? && Says(p, a.out.v, x)
    requires var b := Eval(p, Walked, f - 1, r, Eval(p, Walked, f - 1, l, s).st); b.out.Normal? && Says(p, b.out.v, y)
    ensures var a := Eval(p, Walked, f - 1, l, s);
            var b := Eval(p, Walked, f - 1, r, a.st);
            EvalStmts(p, Walked, f, [ExprStmt(Logic(isAnd, l, r, NoPos), NoPos)], s)
            == Run(Normal(BoolV(if isAnd then x && y else x || y)), if x == isAnd then b.st else a.st)
  {
    ExprRuns(p, f, Logic(isAnd, l, r, NoPos), s);
    hide Eval, EvalStmts;
    LogicStarts(p, f - 1, isAnd, l, r, s);
  }

  lemma LogicStarts(p: Program, f: nat, isAnd: bool, l: Expr, r: Expr, s: State)
    ensures var e := Logic(isAnd, l, r, NoPos); Eval(p, Walked, f, e, s) == EvalLogic(p, Walked, f, e, s)
  {
    hide EvalLogic;
  }

  /** Two plain integers take the handler the table has; everything else is asked
      of the operator, left operand first. */
  lemma OperatorIs(p: Program, f: nat, op: string, l: Expr, r: Expr, s: State)
    requires f > 0
    ensures var a := Eval(p, Walked, f - 1, l, s);
            var b := Eval(p, Walked, f - 1, r, a.st);
            a.out.Normal? && b.out.Normal? ==>
              EvalStmts(p, Walked, f, [ExprStmt(Bin(op, l, r, NoPos), NoPos)], s)
              == if a.out.v.IntV? && b.out.v.IntV? && op in p.table
                 then Run(p.ops.intOp(op, a.out.v.n, b.out.v.n), b.st)
                 else Perform(p, Operate(op, a.out.v, b.out.v), b.st)
  {
    ExprRuns(p, f, Bin(op, l, r, NoPos), s);
    hide EvalStmts;
    BinStarts(p, f - 1, op, l, r, s);
    hide Eval;
  }

  lemma BinStarts(p: Program, f: nat, op: string, l: Expr, r: Expr, s: State)
    ensures var e := Bin(op, l, r, NoPos); Eval(p, Walked, f, e, s) == EvalBinOp(p, Walked, f, e, s)
  {
    hide EvalBinOp;
  }

  /** A `let` of a name held by anything but a foreach is refused before its
      initializer is read, unless it is a constant. */
  lemma LetIs(p: Program, f: nat, x: Name, init: Expr, borrows: bool, isConst: bool, note: nat, s: State)
    requires f > 0 && x != "_"
    ensures var b := Perform(p, LetPre(note, x), s);
            var r := EvalStmts(p, Walked, f, [Let(x, init, borrows, isConst, note, NoPos)], s);
            b.out.Normal? ==>
              var held := x in b.st.core.frozen && b.st.core.frozen[x] != HeldForEach;
              var v := Eval(p, Walked, f - 1, init, b.st);
              if held && !isConst then r == Run(Failed(CannotRedefine(x)), b.st)
              else v.out.Normal? ==>
                r == Perform(p, LetBind(note, x, v.out.v, if borrows then BoolV(true) else b.out.v), v.st)
  {
    hide Eval;
    var t := Let(x, init, borrows, isConst, note, NoPos);
    OneStatement(p, f, t, s);
    assert WalkStmt(p, Walked, f - 1, t, s) == WalkLet(p, Walked, f - 1, t, s) by { LetStarts(p, f - 1, t, s); }
    hide EvalStmts, WalkStmt;
    assert DISCARD_NAME == "_";
  }

  lemma LetStarts(p: Program, f: nat, t: Stmt, s: State)
    requires t.Let? && t.pos.NoPos?
    ensures WalkStmt(p, Walked, f, t, s) == WalkLet(p, Walked, f, t, s)
  {
    hide WalkLet;
  }

  /** An operand that says no truth value is told, unwrapped, and the right one is
      then not read. */
  lemma NotTruthIs(p: Program, f: nat, isAnd: bool, l: Expr, r: Expr, s: State)
    requires f > 0
    ensures var a := Eval(p, Walked, f - 1, l, s);
            a.out.Normal? && !Says(p, a.out.v, true) && !Says(p, a.out.v, false) ==>
              EvalStmts(p, Walked, f, [ExprStmt(Logic(isAnd, l, r, NoPos), NoPos)], s)
              == Run(Failed(NotTruth(if a.out.v.WrapV? then p.ops.unwrap(a.out.v.id) else a.out.v)), a.st)
  {
    ExprRuns(p, f, Logic(isAnd, l, r, NoPos), s);
    LogicStarts(p, f - 1, isAnd, l, r, s);
    hide Eval, EvalStmts;
    var a := Eval(p, Walked, f - 1, l, s);
    if a.out.Normal? { assert a.out.v.BoolV? ==> a.out.v == BoolV(true) || a.out.v == BoolV(false); }
  }

  /** `??`: the left where it is there, the right not read then; else the right. */
  lemma CoalesceIs(p: Program, f: nat, l: Expr, r: Expr, s: State)
    requires f > 0
    ensures var a := Eval(p, Walked, f - 1, l, s);
            a.out.Normal? ==>
              EvalStmts(p, Walked, f, [ExprStmt(Coalesce(l, r, NoPos), NoPos)], s)
              == var c := p.ops.coalesce(a.out.v);
                 if c.UseLeft? then Run(Normal(c.v), a.st) else Eval(p, Walked, f - 1, r, a.st)
  {
    ExprRuns(p, f, Coalesce(l, r, NoPos), s);
    CoalesceStarts(p, f - 1, l, r, s);
    hide Eval, EvalStmts;
  }

  lemma CoalesceStarts(p: Program, f: nat, l: Expr, r: Expr, s: State)
    ensures var e := Coalesce(l, r, NoPos); Eval(p, Walked, f, e, s) == EvalCoalesce(p, Walked, f, e, s)
  {
    hide EvalCoalesce;
  }

  // ---- calls --------------------------------------------------------------------------------

  /** What a function's body is run in: a frame of its own on the module's frames,
      the module's own code standing on none. */
  function Inside(s: State, frame: Frame, frozen: map<Name, Held>, pure: Option<Name>): State {
    var c := s.core;
    s.(core := Core([frame], if c.base == [] then c.frames else c.base, frozen, pure, c.loops, c.lists, c.world))
  }

  /** The caller's own names, holds and purity again, the module's names as the call
      left them, and everything else as it left it. */
  function Outside(before: State, after: State): State {
    var b, a := before.core, after.core;
    after.(core := Core(if b.base == [] then a.base else b.frames, if b.base == [] then [] else a.base,
                        b.frozen, b.pure, a.loops, a.lists, a.world))
  }

  lemma UserCallIs(p: Program, f: nat, id: nat, args: seq<Value>, frame: Frame, frozen: map<Name, Held>, s: State)
    requires id in p.funcs && p.ops.bindArgs(id, args, s.core) == Bound(frame, frozen)
    ensures var r := EvalStmts(p, Walked, f, p.funcs[id].body, Inside(s, frame, frozen, p.funcs[id].pure));
            CallUser(p, Walked, f, id, args, s)
            == if r.out.Normal? || r.out.Returned? then Perform(p, Answer(id, r.out.v), Outside(s, r.st))
               else Run(r.out, Outside(s, r.st))
  {
    hide EvalStmts;
  }

  /** A call of a function of the program, its arguments read: the body runs inside
      and the caller goes on outside, with what the body came to or returned, or
      ending as it ended; where the call was made from is recorded. */
  lemma CallIs(p: Program, f: nat, x: Name, args: seq<Expr>, id: nat, frame: Frame, frozen: map<Name, Held>, s: State)
    requires f > 0
    requires var a := EvalArgs(p, Walked, f - 1, args, s);
             a.out.Normal? && LookupFrames(a.st.core.base + a.st.core.frames, x) == Some(FuncV(id)) && id in p.funcs &&
             p.ops.bindArgs(id, a.vals, a.st.core) == Bound(frame, frozen)
    ensures var a := EvalArgs(p, Walked, f - 1, args, s);
            var called := a.st.(trace := a.st.trace + [Called(x, a.st.pos)]);
            var r := EvalStmts(p, Walked, f - 1, p.funcs[id].body, Inside(called, frame, frozen, p.funcs[id].pure));
            EvalStmts(p, Walked, f, [ExprStmt(Call(x, args, NoPos), NoPos)], s)
            == if r.out.Normal? || r.out.Returned? then Perform(p, Answer(id, r.out.v), Outside(called, r.st))
               else Run(r.out, Outside(called, r.st))
  {
    ExprRuns(p, f, Call(x, args, NoPos), s);
    CallStarts(p, f - 1, x, args, s);
    hide Eval, EvalStmts, EvalArgs, CallUser;
    var a := EvalArgs(p, Walked, f - 1, args, s);
    UserCallIs(p, f - 1, id, a.vals, frame, frozen, a.st.(trace := a.st.trace + [Called(x, a.st.pos)]));
    LookupBoth(a.st.core.base, a.st.core.frames, x);
  }

  lemma CallStarts(p: Program, f: nat, x: Name, args: seq<Expr>, s: State)
    ensures Eval(p, Walked, f, Call(x, args, NoPos), s)
            == var a := EvalArgs(p, Walked, f, args, s);
               if !a.out.Normal? then Run(a.out, a.st) else CallByName(p, Walked, f, x, a.vals, a.st)
  {
    hide EvalArgs, CallByName;
  }

  /** Arguments a function does not take refuse the call, and nothing runs; what is
      no function of the program is called otherwise, and no name at all is an error. */
  lemma CallElse(p: Program, f: nat, x: Name, args: seq<Expr>, s: State)
    requires f > 0 && EvalArgs(p, Walked, f - 1, args, s).out.Normal?
    ensures var a := EvalArgs(p, Walked, f - 1, args, s);
            var called := a.st.(trace := a.st.trace + [Called(x, a.st.pos)]);
            var bound := LookupFrames(a.st.core.base + a.st.core.frames, x);
            var r := EvalStmts(p, Walked, f, [ExprStmt(Call(x, args, NoPos), NoPos)], s);
            if bound.None? then r == Run(Failed(Undefined(x)), called)
            else if !(bound.value.FuncV? && bound.value.id in p.funcs) then
              r == Perform(p, CallValue(bound.value, a.vals), called)
            else
              p.ops.bindArgs(bound.value.id, a.vals, a.st.core).Refused? ==>
                r == Run(Failed(p.ops.bindArgs(bound.value.id, a.vals, a.st.core).error), called)
  {
    ExprRuns(p, f, Call(x, args, NoPos), s);
    CallStarts(p, f - 1, x, args, s);
    hide Eval, EvalStmts, EvalArgs;
    var a := EvalArgs(p, Walked, f - 1, args, s);
    LookupBoth(a.st.core.base, a.st.core.frames, x);
  }

  /** A method of a struct's own runs as a function that takes the object first. */
  lemma MethodIs(p: Program, f: nat, obj: Expr, x: Name, args: seq<Expr>, id: nat, frame: Frame,
                 frozen: map<Name, Held>, s: State)
    requires f > 0
    requires var e := Method(obj, x, args, NoPos);
             var c := Perform(p, CheckMutating(e), s);
             var o := Eval(p, Walked, f - 1, obj, c.st);
             var a := EvalArgs(p, Walked, f - 1, args, o.st);
             c.out.Normal? && o.out.Normal? && a.out.Normal? && id in p.funcs &&
             p.ops.methodOf(o.out.v, x, a.st.core) == Some(id) &&
             p.ops.bindArgs(id, [o.out.v] + a.vals, a.st.core) == Bound(frame, frozen)
    ensures var e := Method(obj, x, args, NoPos);
            var o := Eval(p, Walked, f - 1, obj, Perform(p, CheckMutating(e), s).st);
            var a := EvalArgs(p, Walked, f - 1, args, o.st);
            var called := a.st.(trace := a.st.trace + [Called(x, a.st.pos)]);
            var r := EvalStmts(p, Walked, f - 1, p.funcs[id].body, Inside(called, frame, frozen, p.funcs[id].pure));
            EvalStmts(p, Walked, f, [ExprStmt(e, NoPos)], s)
            == if r.out.Normal? || r.out.Returned? then Perform(p, Answer(id, r.out.v), Outside(called, r.st))
               else Run(r.out, Outside(called, r.st))
  {
    ExprRuns(p, f, Method(obj, x, args, NoPos), s);
    MethodStarts(p, f - 1, obj, x, args, s);
    hide Eval, EvalStmts, EvalArgs, CallUser;
    var c := Perform(p, CheckMutating(Method(obj, x, args, NoPos)), s);
    var o := Eval(p, Walked, f - 1, obj, c.st);
    var a := EvalArgs(p, Walked, f - 1, args, o.st);
    UserCallIs(p, f - 1, id, [o.out.v] + a.vals, frame, frozen, a.st.(trace := a.st.trace + [Called(x, a.st.pos)]));
  }

  lemma MethodStarts(p: Program, f: nat, obj: Expr, x: Name, args: seq<Expr>, s: State)
    ensures var e := Method(obj, x, args, NoPos); Eval(p, Walked, f, e, s) == EvalMethod(p, Walked, f, e, s)
  {
    hide EvalMethod;
  }

  /** Arguments are read left to right, the first that does not answer ending the call. */
  lemma {:induction false} ArgsAre(p: Program, f: nat, args: seq<Expr>, sts: seq<State>, vs: seq<Value>)
    requires |sts| == |args| + 1 && |vs| == |args|
    requires forall i :: 0 <= i < |args| ==> Eval(p, Walked, f, args[i], sts[i]) == Run(Normal(vs[i]), sts[i + 1])
    ensures EvalArgs(p, Walked, f, args, sts[0]) == ArgsRun(Normal(NoneV), vs, sts[|args|])
    decreases args
  {
    hide Eval;
    if args != [] {
      forall i | 0 <= i < |args[1..]|
        ensures Eval(p, Walked, f, args[1..][i], sts[1..][i]) == Run(Normal(vs[1..][i]), sts[1..][i + 1])
      {
        assert Eval(p, Walked, f, args[i + 1], sts[i + 1]) == Run(Normal(vs[i + 1]), sts[i + 2]);
      }
      ArgsAre(p, f, args[1..], sts[1..], vs[1..]);
      assert vs == [vs[0]] + vs[1..];
    }
  }

  // ---- writing in place -----------------------------------------------------------------------

  /** Which operand an assignment may be carried out on: the left, where the target
      is a name or a field and is written there too, the right where it is only
      there and the operator is not a join; a join or an operator that threads. */
  lemma PlaceIs(p: Program, x: Name, y: Name, op: string)
    requires x != y
    ensures var mine, other := Var(x, NoPos), Var(y, NoPos);
            var fields, elsewhere := Attr(mine, "a", NoPos), Attr(mine, "b", NoPos);
            var threads := op == "⧺" || p.ops.listable(op);
            PlaceSide(p, Assign(mine, Bin(op, mine, other, NoPos))) == (if threads then Some(true) else None) &&
            PlaceSide(p, Assign(mine, Bin(op, other, mine, NoPos)))
            == (if threads && op != "⧺" then Some(false) else None) &&
            PlaceSide(p, Assign(mine, Bin(op, other, other, NoPos))) == None &&
            PlaceSide(p, Assign(fields, Bin(op, fields, other, NoPos))) == (if threads then Some(true) else None) &&
            PlaceSide(p, Assign(fields, Bin(op, elsewhere, other, NoPos))) == None &&
            PlaceSide(p, Assign(mine, other)) == None
  {}

  /** An assignment carried out on what its target names: the target is read, then
      the other operand, and nothing is stored. */
  lemma InPlaceIs(p: Program, f: nat, x: Name, op: string, other: Expr, s: State)
    requires f > 0 && (op == "⧺" || p.ops.listable(op))
    ensures var target := Var(x, NoPos);
            var c := Perform(p, CheckAssignable(target), s);
            var mine := Eval(p, Walked, f - 1, target, c.st);
            var o := Eval(p, Walked, f - 1, other, mine.st);
            c.out.Normal? && mine.out.Normal? && p.ops.writable(mine.out.v, mine.st.core) && o.out.Normal? ==>
              var w := Perform(p, WriteInPlace(op, true, mine.out.v, o.out.v), o.st);
              w.out == Normal(BoolV(true)) ==>
                EvalStmts(p, Walked, f, [Assign(target, Bin(op, target, other, NoPos))], s) == Run(Normal(NoneV), w.st)
  {
    var target := Var(x, NoPos);
    var t := Assign(target, Bin(op, target, other, NoPos));
    OneStatement(p, f, t, s);
    AssignStarts(p, f - 1, t, s);
    assert PlaceSide(p, t) == Some(true);
    hide Eval, EvalStmts, WalkStmt, PlaceSide;
  }

  lemma AssignStarts(p: Program, f: nat, t: Stmt, s: State)
    requires t.Assign?
    ensures WalkStmt(p, Walked, f, t, s) == WalkAssign(p, Walked, f, t, s)
  {
    hide WalkAssign;
  }

  /** An assignment to an element, which is never carried out in place: what holds
      it is read, then its index, then the right side, and then it is stored. */
  lemma ElementStoreIs(p: Program, f: nat, obj: Expr, index: Expr, rhs: Expr, s: State)
    requires f > 0
    ensures var target := Sub(obj, index, None, NoPos);
            var c := Perform(p, CheckAssignable(target), s);
            var o := Eval(p, Walked, f - 1, obj, c.st);
            var i := Eval(p, Walked, f - 1, index, o.st);
            var v := Eval(p, Walked, f - 1, rhs, i.st);
            c.out.Normal? && o.out.Normal? && i.out.Normal? && v.out.Normal? ==>
              EvalStmts(p, Walked, f, [Assign(target, rhs)], s)
              == Perform(p, Store(target, [o.out.v, i.out.v], v.out.v), v.st)
  {
    var t := Assign(Sub(obj, index, None, NoPos), rhs);
    OneStatement(p, f, t, s);
    AssignStarts(p, f - 1, t, s);
    hide Eval, EvalStmts, WalkStmt;
  }
}
