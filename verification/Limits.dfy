/** Where compiled code and the walk part, and exactly when. */
module Limits {
  import opened Syntax
  import opened Target
  import opened CodeGen
  import opened Semantics
  import opened Agreement
  import opened Correctness

  // ---- an integer literal on the left of `and` or `or` ---------------------

  lemma LiteralLeftWalk(p: Program, m: Mode, f: nat, e: Expr, w: State)
    requires e.Logic? && e.left.Lit? && !e.left.pos.NoPos?
    ensures Eval(p, m, f, e, w) == Run(Failed(NotTruth(IntV(e.left.n))), w.(pos := e.left.pos))
  {
    assert Eval(p, m, f, e.left, Enter(e.pos, w)) == Run(Normal(IntV(e.left.n)), w.(pos := e.left.pos));
    assert EvalLogic(p, m, f, e, Enter(e.pos, w)).out == Failed(NotTruth(IntV(e.left.n)));
  }

  /** Emitted code drops the literal's position before the operator can refuse it. */
  lemma LiteralLeftCode(p: Program, f: nat, e: Expr, k: seq<Const>, n: nat, ks: seq<Const>, r: Regs, s: State)
    requires e.Logic? && e.left.Lit? && !e.pos.NoPos?
    requires GenExpr(p.table, e, k, n, true).k <= ks
    ensures var m := Exec(p, f, ks, GenExpr(p.table, e, k, n, true).code, r, s);
            m.ctl == Stop(Failed(NotTruth(IntV(e.left.n)))) && m.s == s.(pos := e.pos)
  {
    hide Exec, ExecOne, LogicBool;
    var k0 := PosConst(e.pos, k);
    var a := GenExpr(p.table, e.left, k0, n, false);
    var g := GenLogic(p.table, e, k, n);
    var test := g.code[|g.code| - 1];
    var c1 := PosCode(e.pos, k);
    assert a.code == [] && c1 + a.code == c1;
    assert g.code == c1 + ([Do(TruthOf(a.n + 1, a.out))] + [test]);
    ExecAppend(p, f, ks, c1, [Do(TruthOf(a.n + 1, a.out))] + [test], r, s);
    ExecPos(p, f, e.pos, k, ks, r, s);
    ExecFirst(p, f, ks, Do(TruthOf(a.n + 1, a.out)), [test], r, Enter(e.pos, s));
    assert a.k <= ks && a.k[|k0|] == CValue(IntV(e.left.n));
    assert ks[|k0|] == CValue(IntV(e.left.n));
    TruthRuns(p, f, ks, a.n + 1, a.out, IntV(e.left.n), r, Enter(e.pos, s));
    assert LogicBool(p, IntV(e.left.n)) == Failed(NotTruth(IntV(e.left.n))) by { IntIsNoTruth(p, e.left.n); }
  }

  lemma IntIsNoTruth(p: Program, n: int)
    ensures LogicBool(p, IntV(n)) == Failed(NotTruth(IntV(n)))
  {}

  /** In every program and state such a block fails alike both ways, and stands
      in the same place exactly when the literal's position is the operator's. */
  lemma LiteralLeftExactly(p: Program, f: nat, e: Expr, pos: Pos, s: State)
    requires e.Logic? && e.left.Lit? && !e.pos.NoPos? && !e.left.pos.NoPos? && f > 0
    ensures var b := [ExprStmt(e, pos)];
            var c, w := EvalStmts(p, Compiled, f, b, s), EvalStmts(p, Walked, f, b, s);
            c.out == w.out == Failed(NotTruth(IntV(e.left.n))) && c.st.core == w.st.core &&
            (c == w <==> e.left.pos == e.pos)
  {
    hide Exec, GenExpr, GenStmts, RunBlock, Eval, WalkStmts;
    var t := ExprStmt(e, pos);
    LiteralLeftWalk(p, Walked, f - 1, e, Enter(pos, s));
    WalkOne(p, f - 1, t, s);
    var k0 := [CStmt(t)];
    var g := GenExpr(p.table, e, PosConst(pos, k0), 0, true);
    OneStmtRuns(p, f - 1, e, pos, s);
    LiteralLeftCode(p, f - 1, e, PosConst(pos, k0), 0, g.k, START, Enter(pos, s));
  }

  lemma WalkOne(p: Program, f: nat, t: Stmt, s: State)
    requires t.ExprStmt?
    ensures WalkStmts(p, Walked, f, [t], NoneV, s) == Eval(p, Walked, f, t.expr, Enter(t.pos, s))
  {
    hide Eval;
    var r := WalkStmt(p, Walked, f, t, s);
    assert r == StmtBody(p, Walked, f, t, Enter(t.pos, s));
    assert StmtBody(p, Walked, f, t, Enter(t.pos, s)) == Eval(p, Walked, f, t.expr, Enter(t.pos, s));
    assert [t][1..] == [];
    if r.out.Normal? { assert WalkStmts(p, Walked, f, [], r.out.v, r.st) == Run(Normal(r.out.v), r.st); }
  }

  /** A block of one expression, compiled, where the expression's code raises. */
  lemma OneStmtRuns(p: Program, f: nat, e: Expr, pos: Pos, s: State)
    ensures var k0 := PosConst(pos, [CStmt(ExprStmt(e, pos))]);
            var g := GenExpr(p.table, e, k0, 0, true);
            var m := Exec(p, f, g.k, g.code, START, Enter(pos, s));
            m.ctl.Stop? ==> RunBlock(p, f, [ExprStmt(e, pos)], s) == Run(m.ctl.out, m.s)
  {
    hide Exec, GenExpr;
    var t := ExprStmt(e, pos);
    var k0 := PosConst(pos, [CStmt(t)]);
    var g := GenExpr(p.table, e, k0, 0, true);
    var b := GenStmts(p.table, [t], [], 0);
    assert [t][1..] == [] && [] + [CStmt(t)] == [CStmt(t)];
    var c := GenStmt(p.table, t, [], 0);
    assert c.code == PosCode(pos, [CStmt(t)]) + (g.code + [Do(SetResult(g.out))]) && c.k == g.k;
    assert GenStmts(p.table, [], c.k, c.n) == StmtGen([], c.k, c.n);
    assert b == StmtGen(c.code + [], c.k, c.n);
    assert c.code + [] == c.code;
    ExecAppend(p, f, g.k, PosCode(pos, [CStmt(t)]), g.code + [Do(SetResult(g.out))], START, s);
    ExecPos(p, f, pos, [CStmt(t)], g.k, START, s);
    ExecAppend(p, f, g.k, g.code, [Do(SetResult(g.out))], START, Enter(pos, s));
  }

  // ---- a subscript of an integer literal ------------------------------------------

  /** The container is a constant, and the line that stores the checked container
      back into it raises: whatever the walk answers, the compiled block does not. */
  lemma LiteralSubscriptRaises(p: Program, f: nat, e: Expr, pos: Pos, s: State)
    requires e.Sub? && e.obj.Lit? && e.spells.None? && f > 0
    requires forall c: Core :: p.ops.act(BeforeIndex(IntV(e.obj.n)), c).out.Normal?
    ensures EvalStmts(p, Compiled, f, [ExprStmt(e, pos)], s).out == Failed(ConstantStore)
  {
    var t := ExprStmt(e, pos);
    var k0 := PosConst(pos, [CStmt(t)]);
    var g := GenExpr(p.table, e, k0, 0, true);
    OneStmtRuns(p, f - 1, e, pos, s);
    LiteralSubscriptCode(p, f - 1, e, k0, 0, g.k, START, Enter(pos, s));
  }

  /** So with a literal index the two never agree, unless an index could itself
      answer that error. */
  lemma LiteralSubscriptDiffers(p: Program, f: nat, e: Expr, pos: Pos, s: State)
    requires e.Sub? && e.obj.Lit? && e.index.Lit? && e.spells.None? && f > 0
    requires forall c: Core :: p.ops.act(BeforeIndex(IntV(e.obj.n)), c).out.Normal?
    requires forall a: Act, c: Core :: p.ops.act(a, c).out != Failed(ConstantStore)
    ensures EvalStmts(p, Compiled, f, [ExprStmt(e, pos)], s).out != EvalStmts(p, Walked, f, [ExprStmt(e, pos)], s).out
  {
    LiteralSubscriptRaises(p, f, e, pos, s);
    WalkOne(p, f - 1, ExprStmt(e, pos), s);
    LiteralSubscriptWalk(p, f - 1, e, Enter(pos, s));
  }

  lemma LiteralSubscriptWalk(p: Program, f: nat, e: Expr, s: State)
    requires e.Sub? && e.obj.Lit? && e.index.Lit?
    requires forall a: Act, c: Core :: p.ops.act(a, c).out != Failed(ConstantStore)
    ensures Eval(p, Walked, f, e, s).out != Failed(ConstantStore)
  {
    var s1 := Enter(e.pos, s);
    assert Eval(p, Walked, f, e, s) == EvalSub(p, Walked, f, e, s1);
    assert Eval(p, Walked, f, e.obj, s1).out == Normal(IntV(e.obj.n));
    var b := Perform(p, BeforeIndex(IntV(e.obj.n)), Eval(p, Walked, f, e.obj, s1).st);
    assert Eval(p, Walked, f, e.index, b.st).out == Normal(IntV(e.index.n));
  }

  /** The code a subscript of a literal makes begins by naming its constant. */
  lemma LiteralSubscriptShape(table: set<string>, e: Expr, k: seq<Const>, n: nat) returns (rest: seq<Code>)
    requires e.Sub? && e.obj.Lit?
    ensures var at := |k| + 1;
            var g := GenExpr(table, e, k, n, true);
            g.code == [Do(SubStart(n + 1, |k|)), IfElse(IsNone(n + 1), [Do(SubBefore(K(at)))] + rest, [])] &&
            at < |g.k| && g.k[|k|] == CExpr(e) && g.k[at] == CValue(IntV(e.obj.n))
  {
    var k0 := k + [CExpr(e)];
    var o := GenExpr(table, e.obj, k0, n + 1, false);
    var i := GenExpr(table, e.index, o.k, o.n, true);
    assert o.code == [] && o.out == K(|k0|) && o.k[|k0|] == CValue(IntV(e.obj.n)) && o.k[|k|] == CExpr(e);
    rest := i.code + [Do(SubIndex(n + 1, o.out, i.out))];
    assert o.code + [Do(SubBefore(o.out))] + i.code + [Do(SubIndex(n + 1, o.out, i.out))]
           == [Do(SubBefore(o.out))] + rest;
  }

  lemma LiteralSubscriptCode(p: Program, f: nat, e: Expr, k: seq<Const>, n: nat, ks: seq<Const>, r: Regs, s: State)
    requires e.Sub? && e.obj.Lit? && e.spells.None?
    requires forall c: Core :: p.ops.act(BeforeIndex(IntV(e.obj.n)), c).out.Normal?
    requires GenExpr(p.table, e, k, n, true).k <= ks
    ensures Exec(p, f, ks, GenExpr(p.table, e, k, n, true).code, r, s).ctl == Stop(Failed(ConstantStore))
  {
    hide Exec, GenExpr, StepName, StepValue, StepEnd, StepStmt, StepBlock, CallByName, CallOn, Eval;
    var rest := LiteralSubscriptShape(p.table, e, k, n);
    var at := |k| + 1;
    var g := GenExpr(p.table, e, k, n, true);
    assert ks[|k|] == g.k[|k|] && ks[at] == g.k[at];
    var test := IfElse(IsNone(n + 1), [Do(SubBefore(K(at)))] + rest, []);
    var s1 := Enter(e.pos, s);
    var r1 := SetTemp(r, n + 1, Absent);
    assert g.code == [Do(SubStart(n + 1, |k|))] + [test];
    ExecFirst(p, f, ks, Do(SubStart(n + 1, |k|)), [test], r, s);
    ExecSingle(p, f, ks, test, r1, s1);
    ExecFirst(p, f, ks, Do(SubBefore(K(at))), rest, r1, s1);
  }

  // ---- a list shortened under the foreach that walks it -----------------------------

  /** The two ways of reading a turn's element agree exactly while the list
      still reaches the turn. */
  lemma ElementAgreesExactly(list: seq<Value>, idx: nat)
    ensures WalkElement(list, idx) == CompiledElement(list, idx) <==> idx < |list|
  {
    if idx < |list| { assert idx % |list| == idx; }
  }

  /** A program with one list, which every statement it does not show pops. */
  function Pop(a: Act, c: Core): Effect {
    var list := ListOf(c, 0);
    match a
    case Iterate(_, _) => Effect(Normal(ListV(0)), c, NoPos)
    case RunOpaque(_) =>
      Effect(Normal(NoneV), c.(lists := map[0 := list[..if list == [] then 0 else |list| - 1]]), NoPos)
    case _ => Effect(Normal(ObjV(0)), c, NoPos)
  }

  const POPPING: Program := Program(
    Ops((a, c) => Pop(a, c), _ => NoneV, _ => true, _ => false, (_, _) => false, (_, _, _) => Normal(NoneV),
        v => UseLeft(v), (_, _, _) => None, (_, _, _) => Refused(DiscardRead), (_, _) => false, _ => false),
    map[], {})

  /** `foreach x in xs: xs.pop()` */
  const POPS: seq<Stmt> := [ForEach("x", Opaque(0, NoPos), [OpaqueStmt(0, NoPos)], None, NoPos)]

  function Holding(list: seq<Value>): State {
    State(Core([map[]], [], map[], None, [], map[0 := list], 0), NoPos, [], None)
  }

  function Popped(s: State): State {
    var list := ListOf(s.core, 0);
    s.(core := s.core.(lists := map[0 := list[..if list == [] then 0 else |list| - 1]]))
  }

  lemma PopTurn(f: nat, s: State)
    requires f > 0
    ensures LoopTurn(POPPING, Walked, f, POPS[0].body, None, s) == Run(Normal(BoolV(true)), Popped(s))
  {
    var p, s1 := POPPING, PushLoop(s, None);
    var pop := OpaqueStmt(0, NoPos);
    assert Perform(p, RunOpaque(0), s1) == Run(Normal(NoneV), Popped(s1));
    assert WalkStmt(p, Walked, f - 1, pop, s1) == Run(Normal(NoneV), Popped(s1));
    assert [pop][1..] == [];
    assert WalkStmts(p, Walked, f - 1, [], NoneV, Popped(s1)) == Run(Normal(NoneV), Popped(s1));
    assert WalkStmts(p, Walked, f - 1, [pop], NoneV, s1) == Run(Normal(NoneV), Popped(s1));
    assert EvalStmts(p, Walked, f, [pop], s1) == Run(Normal(NoneV), Popped(s1));
    assert s1.core.loops[..|s.core.loops|] == s.core.loops;
    assert PopLoop(Popped(s1)) == Popped(s);
  }

  /** Inside the loop, its name bound to `v` and then the last of the list gone. */
  function Inside(list: seq<Value>, frame: Frame, short: Option<Overrun>): State {
    State(Core([frame], [], map["x" := HeldForEach], None, [], map[0 := list], 0), NoPos, [], short)
  }

  lemma TurnInside(list: seq<Value>, frame: Frame, short: Option<Overrun>, v: Value)
    requires list != []
    ensures Popped(Define(Inside(list, frame, short), "x", v)) == Inside(list[..|list| - 1], frame["x" := v], short)
  {
    assert [frame][..0] + [frame["x" := v]] == [frame["x" := v]];
  }

  /** The walk's two turns, the second round at the first element again. */
  lemma PopsTwice(f: nat, a: Value, b: Value)
    requires f > 0
    ensures var s1 := Inside([a], map["x" := a], None);
            ForTurns(POPPING, Walked, f, "x", POPS[0].body, None, 0, 0, 2, Inside([a, b], map[], None))
            == Run(Normal(NoneV), Inside([], map["x" := a], Some(Overrun(0, 1, s1.core))))
  {
    hide LoopTurn, Define, Popped;
    var p, body := POPPING, POPS[0].body;
    var s0, s1 := Inside([a, b], map[], None), Inside([a], map["x" := a], None);
    var over := Some(Overrun(0, 1, s1.core));
    var s2 := Inside([], map["x" := a], over);
    assert [a, b][..1] == [a] && [a][..0] == [] && map["x" := a]["x" := a] == map["x" := a];
    TurnInside([a, b], map[], None, a);
    PopTurn(f, Define(s0, "x", a));
    TurnInside([a], map["x" := a], over, a);
    PopTurn(f, Define(Mark(s1, 0, 1), "x", a));
    assert 1 % 1 == 0;
    assert ForTurns(p, Walked, f, "x", body, None, 0, 2, 2, s2) == Run(Normal(NoneV), s2);
    assert ForTurns(p, Walked, f, "x", body, None, 0, 1, 2, s1) == Run(Normal(NoneV), s2);
  }

  /** Two elements, and each turn drops one.  The walk's second turn goes round to
      the first element again and the walk ends well; compiled, that turn fails. */
  lemma ShortenedListDiverges(f: nat, a: Value, b: Value)
    requires f >= 2
    ensures var s := Holding([a, b]);
            var c, w := EvalStmts(POPPING, Compiled, f, POPS, s), EvalStmts(POPPING, Walked, f, POPS, s);
            w.out == Normal(NoneV) && w.st.core.lists == map[0 := []] &&
            w.st.core.frames == [map["x" := a]] && c.out == Failed(IndexError) &&
            c.st.short == w.st.short && w.st.short.Some? && w.st.short.value.h == 0 && w.st.short.value.idx == 1
  {
    hide ForTurns, RunBlock;
    var t, s, p := POPS[0], Holding([a, b]), POPPING;
    CompiledAgreesWithWalk(p, f, POPS, s);
    assert Eval(p, Walked, f - 1, t.iterable, s) == Run(Normal(ObjV(0)), s);
    assert ForSetup(p, Walked, f - 1, "x", t.iterable, s) == Run(Normal(ListV(0)), Hold(s, "x"));
    PopsTwice(f - 1, a, b);
    var end := Release(ForTurns(p, Walked, f - 1, "x", t.body, None, 0, 0, 2, Hold(s, "x")).st, "x");
    assert Hold(s, "x") == Inside([a, b], map[], None);
    assert ListOf(Hold(s, "x").core, 0) == [a, b];
    assert WalkForEach(p, Walked, f - 1, t, s) == Run(Normal(NoneV), end);
    assert WalkStmt(p, Walked, f - 1, t, s) == Run(Normal(NoneV), end);
    assert [t][1..] == [];
    assert WalkStmts(p, Walked, f - 1, [], NoneV, end) == Run(Normal(NoneV), end);
    assert WalkStmts(p, Walked, f - 1, [t], NoneV, s) == Run(Normal(NoneV), end);
  }

  // ---- an operator assignment whose lengths differ --------------------------------------

  /** Where the write was tried in place and could not be carried out: the state
      its operands were read to, and what the right side, read again, comes to. */
  function ReadAgain(p: Program, f: nat, t: Stmt, s: State): Option<Run>
    requires t.Assign?
  {
    var side := PlaceSide(p, t);
    if side.None? then None else
    var pre := AssignPre(p, Walked, f, t.target, s);
    var mine := Eval(p, Walked, f, t.target, pre.st);
    var other := Eval(p, Walked, f, if side.value then t.rhs.right else t.rhs.left, mine.st);
    if !pre.out.Normal? || !mine.out.Normal? || !p.ops.writable(mine.out.v, mine.st.core) || !other.out.Normal?
    then None else
    var tried := Perform(p, WriteInPlace(t.rhs.op, side.value, mine.out.v, other.out.v), other.st);
    if tried.out != Normal(BoolV(false)) then None else
    var again := Eval(p, Walked, f, t.rhs, tried.st);
    Some(if again.out.Normal? then Perform(p, Store(t.target, pre.vals, again.out.v), again.st) else again)
  }

  lemma WalkReadsAgain(p: Program, f: nat, t: Stmt, s: State)
    requires t.Assign? && ReadAgain(p, f, t, s).Some?
    ensures WalkAssign(p, Walked, f, t, s) == ReadAgain(p, f, t, s).value
  {
    hide Eval, AssignPre, PlaceSide;
  }

  /** Where the write cannot be carried out in place, the other operand has been
      read all the same, and the whole right side is read again from the state
      that left: the block ends so walked, and compiled too unless it overran a list. */
  lemma OtherIsReadTwice(p: Program, f: nat, t: Stmt, s: State)
    requires t.Assign? && f > 0 && ReadAgain(p, f - 1, t, s).Some?
    requires Sound(false, p) && FitStmt(false, t) && s.short.None?
    ensures var end := ReadAgain(p, f - 1, t, s).value;
            var c, w := EvalStmts(p, Compiled, f, [t], s), EvalStmts(p, Walked, f, [t], s);
            w == end && (end.st.short.None? ==> c.out == end.out && c.st.core == end.st.core)
  {
    hide RunBlock, ReadAgain, FitStmt, WalkAssign;
    WalkReadsAgain(p, f - 1, t, s);
    var end := WalkAssign(p, Walked, f - 1, t, s);
    assert [t][1..] == [] && FitBlock(false, []);
    assert FitBlock(false, [t]);
    assert WalkStmt(p, Walked, f - 1, t, s) == end;
    if end.out.Normal? { assert WalkStmts(p, Walked, f - 1, [], end.out.v, end.st) == end; }
    CompiledAgreesWithWalk(p, f, [t], s);
  }

  /** A program in which every expression it does not show counts itself, and two
      arrays are of one length or not. */
  function Tick(a: Act, c: Core, agree: bool): Effect {
    match a
    case OpaqueExpr(_) => Effect(Normal(ObjV(0)), c.(world := c.world + 1), NoPos)
    case WriteInPlace(_, _, _, _) => Effect(Normal(BoolV(agree)), c, NoPos)
    case _ => Effect(Normal(ObjV(0)), c, NoPos)
  }

  function Counting(agree: bool): Program {
    Program(
      Ops((a, c) => Tick(a, c, agree), _ => NoneV, _ => true, _ => false, (_, _) => false, (_, _, _) => Normal(NoneV),
          v => UseLeft(v), (_, _, _) => None, (_, _, _) => Refused(DiscardRead), (_, _) => true, _ => true),
      map[], {})
  }

  /** `v ← v + next()` */
  const ADDS: Stmt := Assign(Var("v", NoPos), Bin("+", Var("v", NoPos), Opaque(0, NoPos), NoPos))

  function WithV(world: int): State {
    State(Core([map["v" := ObjV(1)]], [], map[], None, [], map[], world), NoPos, [], None)
  }

  lemma ReadsV(p: Program, m: Mode, f: nat, world: int)
    ensures Eval(p, m, f, Var("v", NoPos), WithV(world)) == Run(Normal(ObjV(1)), WithV(world))
  {}

  lemma Ticks(agree: bool, m: Mode, f: nat, world: int)
    ensures Eval(Counting(agree), m, f, Opaque(0, NoPos), WithV(world)) == Run(Normal(ObjV(0)), WithV(world + 1))
  {}

  lemma AddsOnce(agree: bool, m: Mode, f: nat, world: int)
    ensures Eval(Counting(agree), m, f, ADDS.rhs, WithV(world)) == Run(Normal(ObjV(0)), WithV(world + 1))
  {
    hide ReadVar;
    ReadsV(Counting(agree), m, f, world);
    Ticks(agree, m, f, world);
    assert EvalBinOp(Counting(agree), m, f, ADDS.rhs, WithV(world)) == Run(Normal(ObjV(0)), WithV(world + 1));
  }

  /** `next` runs once where the lengths agree and twice where they differ, walked
      and compiled. */
  lemma DifferingLengthsReadTwice(agree: bool, f: nat)
    requires f > 0
    ensures var p := Counting(agree);
            var c, w := EvalStmts(p, Compiled, f, [ADDS], WithV(0)), EvalStmts(p, Walked, f, [ADDS], WithV(0));
            c.out == w.out && c.out.Normal? && c.st.core == w.st.core && w.st.core.world == if agree then 1 else 2
  {
    hide RunBlock, Eval, ReadVar, AssignInPlace, FitBlock, FitStmt;
    var p, s := Counting(agree), WithV(0);
    AddsFits();
    CompiledAgreesWithWalk(p, f, [ADDS], s);
    InPlaceTicks(agree, f - 1);
    AddsOnce(agree, Walked, f - 1, 1);
    assert AssignPre(p, Walked, f - 1, ADDS.target, s) == ArgsRun(Normal(NoneV), [], s);
    var end := WalkAssign(p, Walked, f - 1, ADDS, s);
    assert end.out.Normal? && end.st == WithV(if agree then 1 else 2);
    assert WalkStmt(p, Walked, f - 1, ADDS, s) == end;
    assert [ADDS][1..] == [] && WalkStmts(p, Walked, f - 1, [], end.out.v, end.st) == end;
  }

  lemma AddsFits()
    ensures FitBlock(false, [ADDS])
  {
    assert [ADDS][1..] == [] && FitBlock(false, []);
    assert FitExpr(false, ADDS.target) && FitExpr(false, ADDS.rhs.left) && FitExpr(false, ADDS.rhs.right);
  }

  lemma InPlaceTicks(agree: bool, f: nat)
    ensures AssignInPlace(Counting(agree), Walked, f, ADDS, WithV(0)) == Run(Normal(BoolV(agree)), WithV(1))
  {
    hide Eval;
    var p := Counting(agree);
    assert PlaceSide(p, ADDS) == Some(true);
    ReadsV(p, Walked, f, 0);
    Ticks(agree, Walked, f, 0);
  }
}
