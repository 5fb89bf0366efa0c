/** The emitter of interp/compile.py: it appends lines, constants and
    temporaries as it walks, and what it has appended is what CodeGen says,
    written down with its depths. */
module Emit {
  import opened Syntax
  import opened Target
  import opened CodeGen

  // ---- code and its lines ------------------------------------------------

  lemma {:induction false} LinesAppend(a: seq<Code>, b: seq<Code>, d: nat)
    ensures Lines(a + b, d) == Lines(a, d) + Lines(b, d)
    decreases |a|
  {
    if a == [] {
      assert a + b == b;
    } else {
      assert (a + b)[1..] == a[1..] + b;
      LinesAppend(a[1..], b, d);
    }
  }

  lemma LinesOne(c: Code, d: nat)
    ensures Lines([c], d) == LinesOf(c, d)
  {
    assert Lines([c][1..], d) == [];
  }


  /** No suite the emitter writes is empty, which Python would refuse. */
  lemma {:induction false} ExprIsFull(tab: set<string>, e: Expr, k: seq<Const>, n: nat, obs: bool)
    ensures Full(GenExpr(tab, e, k, n, obs).code)
    decreases e, 1
  {
    hide GenLogic, GenBinOp, GenCall, GenMethod, GenAttr, GenSub;
    if !Fallback(e) {
      match e
      case Lit(_, _) =>
      case Var(_, _) => ReadIsFull(n + 1, |PosConst(e.pos, k)|);
      case Logic(_, _, _, _) => LogicIsFull(tab, e, k, n);
      case Bin(_, _, _, _) => NodeIsFull(tab, e, k, n);
      case Call(_, _, _) => NodeIsFull(tab, e, k, n);
      case Method(_, _, _, _) => NodeIsFull(tab, e, k, n);
      case Attr(_, _, _) => NodeIsFull(tab, e, k, n);
      case Sub(_, _, _, _) => SubIsFull(tab, e, k, n);
    }
  }

  lemma ReadIsFull(t: nat, k: nat)
    ensures Full(ReadCode(t, k))
  {
    assert Full([Do(PureCheck(k)), Do(LookupName(t, k))]);
    assert FullOf(ReadCode(t, k)[3]);
  }

  lemma BranchIsFull(test: Test, thn: seq<Code>, els: seq<Code>)
    requires Full(thn) && Full(els) && thn != []
    ensures FullOf(IfElse(test, thn, els))
  {}

  lemma LoopIsFull(body: seq<Code>)
    requires Full(body) && body != []
    ensures FullOf(Loop(body)) && FullOf(ForRange(body))
  {}

  lemma {:induction false} LogicIsFull(tab: set<string>, e: Expr, k: seq<Const>, n: nat)
    requires e.Logic?
    ensures Full(GenLogic(tab, e, k, n).code)
    decreases e, 0
  {
    hide GenExpr;
    var a := GenExpr(tab, e.left, PosConst(e.pos, k), n, false);
    ExprIsFull(tab, e.left, PosConst(e.pos, k), n, false);
    ExprIsFull(tab, e.right, a.k, a.n + 1, false);
    var b := GenExpr(tab, e.right, a.k, a.n + 1, false);
    BranchIsFull(if e.isAnd then IsFalse(a.n + 1) else IsTrue(a.n + 1), [Do(SetBool(a.n + 1, !e.isAnd))],
                 b.code + PosCode(e.pos, b.k) + [Do(MkLogic(a.n + 1, b.out))]);
  }

  lemma {:induction false} NodeIsFull(tab: set<string>, e: Expr, k: seq<Const>, n: nat)
    requires e.Bin? || e.Call? || e.Method? || e.Attr?
    ensures e.Bin? ==> Full(GenBinOp(tab, e, k, n).code)
    ensures e.Call? ==> Full(GenCall(tab, e, k, n).code)
    ensures e.Method? ==> Full(GenMethod(tab, e, k, n).code)
    ensures e.Attr? ==> Full(GenAttr(tab, e, k, n).code)
    decreases e, 0
  {
    hide GenExpr, GenArgs;
    match e
    case Bin(_, l, r, pos) =>
      ExprIsFull(tab, l, PosConst(pos, k), n, false);
      var a := GenExpr(tab, l, PosConst(pos, k), n, false);
      ExprIsFull(tab, r, a.k, a.n, false);
    case Call(_, args, pos) =>
      ArgsAreFull(tab, args, PosConst(pos, k), n);
    case Method(obj, _, args, _) =>
      ExprIsFull(tab, obj, k + [CExpr(e)], n, args == []);
      var o := GenExpr(tab, obj, k + [CExpr(e)], n, args == []);
      ArgsAreFull(tab, args, o.k, o.n);
    case Attr(obj, _, pos) =>
      ExprIsFull(tab, obj, PosConst(pos, k), n, true);
  }

  lemma {:induction false} SubIsFull(tab: set<string>, e: Expr, k: seq<Const>, n: nat)
    requires e.Sub?
    ensures Full(GenSub(tab, e, k, n).code)
    decreases e, 0
  {
    hide GenExpr;
    var o := GenExpr(tab, e.obj, k + [CExpr(e)], n + 1, false);
    ExprIsFull(tab, e.obj, k + [CExpr(e)], n + 1, false);
    ExprIsFull(tab, e.index, o.k, o.n, true);
    var i := GenExpr(tab, e.index, o.k, o.n, true);
    BranchIsFull(IsNone(n + 1), o.code + [Do(SubBefore(o.out))] + i.code + [Do(SubIndex(n + 1, o.out, i.out))], []);
  }

  lemma {:induction false} ArgsAreFull(tab: set<string>, args: seq<Expr>, k: seq<Const>, n: nat)
    ensures Full(GenArgs(tab, args, k, n).code)
    decreases args, 0
  {
    hide GenExpr;
    if args != [] {
      var a := GenExpr(tab, args[0], k, n, |args| == 1);
      ExprIsFull(tab, args[0], k, n, |args| == 1);
      ArgsAreFull(tab, args[1..], a.k, a.n);
    }
  }

  lemma {:induction false} AltIsFull(tab: set<string>, alt: Alt, k: seq<Const>, n: nat)
    ensures Full(GenAlt(tab, alt, k, n).code) && GenAlt(tab, alt, k, n).code != []
    decreases alt
  {
    hide GenExpr;
    if alt.Elif? {
      var c := GenExpr(tab, alt.cond, k, n, true);
      ExprIsFull(tab, alt.cond, k, n, true);
      AltIsFull(tab, alt.rest, c.k + [CBlock(alt.body)], c.n);
      BranchIsFull(Truth(c.out), [Do(RunStmts(|c.k|))], GenAlt(tab, alt.rest, c.k + [CBlock(alt.body)], c.n).code);
    }
  }

  lemma ForEachIsFull(k: nat, at: nat)
    ensures Full([Do(SetupFor(at)), IfElse(NoSequence, [Do(ResultNone)],
                  [Try([ForRange([Do(DefineElement(k)), Do(Turn(k + 1, at))])], [Do(EndFor)]), Do(ResultNone)])])
  {
    var turns := [Do(DefineElement(k)), Do(Turn(k + 1, at))];
    LoopIsFull(turns);
    assert Full([Do(EndFor)]) && Full([ForRange(turns)]);
    assert FullOf(Try([ForRange(turns)], [Do(EndFor)]));
    BranchIsFull(NoSequence, [Do(ResultNone)], [Try([ForRange(turns)], [Do(EndFor)]), Do(ResultNone)]);
    assert Full([Do(SetupFor(at))]);
  }

  lemma {:induction false} StmtIsFull(tab: set<string>, t: Stmt, k: seq<Const>, n: nat)
    ensures Full(GenStmt(tab, t, k, n).code)
  {
    hide GenExpr, GenAlt;
    var at, k0 := |k|, PosConst(t.At(), k + [CStmt(t)]);
    match t
    case ExprStmt(e, _) => ExprIsFull(tab, e, k0, n, true);
    case Return(e, _) => if e.Some? { ExprIsFull(tab, e.value, k0, n, true); }
    case If(cond, cons, alt, _) =>
      var c := GenExpr(tab, cond, k0, n, true);
      ExprIsFull(tab, cond, k0, n, true);
      AltIsFull(tab, alt, c.k + [CBlock(cons)], c.n);
      BranchIsFull(Truth(c.out), [Do(RunStmts(|c.k|))], GenAlt(tab, alt, c.k + [CBlock(cons)], c.n).code);
    case Let(_, init, _, _, _, _) => ExprIsFull(tab, init, k0, n, true);
    case While(cond, _, _, _) =>
      ExprIsFull(tab, cond, k0, n, true);
      var c := GenExpr(tab, cond, k0, n, true);
      LoopIsFull(c.code + [Do(BreakUnless(c.out)), Do(Turn(|c.k|, at))]);
    case ForEach(_, _, _, _, _) =>
      ForEachIsFull(|k0|, at);
    case Assign(target, rhs) =>
      var k1 := k0 + [CExpr(target)];
      var k2 := if IsBinOp(rhs) then k1 + [CExpr(rhs)] else k1;
      ExprIsFull(tab, rhs, k2, n, true);
      var v := GenExpr(tab, rhs, k2, n, true);
      BranchIsFull(InPlace(|k0|, |k1|), [Do(ResultNone)], v.code + [Do(StoreTo(|k0|, v.out))]);
    case Leave(_, _, _) =>
    case OpaqueStmt(_, _) =>
  }

  lemma {:induction false} BlockIsFull(tab: set<string>, b: seq<Stmt>, k: seq<Const>, n: nat)
    ensures Full(GenStmts(tab, b, k, n).code)
    decreases |b|
  {
    if b != [] {
      StmtIsFull(tab, b[0], k, n);
      var s := GenStmt(tab, b[0], k, n);
      BlockIsFull(tab, b[1..], s.k, s.n);
    }
  }

  // ---- the emitter -----------------------------------------------------------

  lemma LinesPlus(code: seq<Code>, c: Code, d: nat)
    ensures Lines(code + [c], d) == Lines(code, d) + LinesOf(c, d)
  {
    LinesAppend(code, [c], d);
    LinesOne(c, d);
  }

  /** One more line under code already written. */
  lemma LinesSnoc(ls: seq<Line>, code: seq<Code>, c: Code, d: nat)
    ensures ls + Lines(code, d) + LinesOf(c, d) == ls + Lines(code + [c], d)
  {
    LinesAppend(code, [c], d);
    LinesOne(c, d);
  }

  lemma LineOfOp(op: Op, d: nat)
    ensures Lines([Do(op)], d) == [Line(d, Simple(op))]
    ensures Lines([], d) == []
  {
    LinesOne(Do(op), d);
  }

  lemma LinesJoin(ls: seq<Line>, a: seq<Code>, b: seq<Code>, d: nat)
    ensures ls + Lines(a, d) + Lines(b, d) == ls + Lines(a + b, d)
  {
    LinesAppend(a, b, d);
  }

  /** An if with its else, line by line. */
  lemma IfLines(ls: seq<Line>, test: Test, thn: seq<Code>, els: seq<Code>, d: nat)
    requires els != []
    ensures ls + [Line(d, IfHead(test))] + Lines(thn, d + 1) + [Line(d, ElseHead)] + Lines(els, d + 1)
            == ls + LinesOf(IfElse(test, thn, els), d)
  {}

  lemma IfOnlyLines(ls: seq<Line>, test: Test, thn: seq<Code>, d: nat)
    ensures ls + [Line(d, IfHead(test))] + Lines(thn, d + 1) == ls + LinesOf(IfElse(test, thn, []), d)
  {}

  /** The lines of a foreach, which hold no expression of their own. */
  lemma ForEachLines(d: nat, k: nat, at: nat)
    ensures var turns := [Do(DefineElement(k)), Do(Turn(k + 1, at))];
            var branch := IfElse(NoSequence, [Do(ResultNone)], [Try([ForRange(turns)], [Do(EndFor)]), Do(ResultNone)]);
            Lines([Do(SetupFor(at)), branch], d)
            == [Line(d, Simple(SetupFor(at))), Line(d, IfHead(NoSequence)), Line(d + 1, Simple(ResultNone)),
                Line(d, ElseHead), Line(d + 1, TryHead), Line(d + 2, ForHead),
                Line(d + 3, Simple(DefineElement(k))), Line(d + 3, Simple(Turn(k + 1, at))),
                Line(d + 1, FinallyHead), Line(d + 2, Simple(EndFor)), Line(d + 1, Simple(ResultNone))]
  {
    hide Lines, LinesOf;
    var turns := [Do(DefineElement(k)), Do(Turn(k + 1, at))];
    var try := Try([ForRange(turns)], [Do(EndFor)]);
    var under := [try, Do(ResultNone)];
    LinesPair(turns[0], turns[1], d + 3);
    OpLine(DefineElement(k), d + 3);
    OpLine(Turn(k + 1, at), d + 3);
    TryLines(turns, d + 1);
    LinesPair(try, Do(ResultNone), d + 1);
    OpLine(ResultNone, d + 1);
    assert Lines(under, d + 1)
           == [Line(d + 1, TryHead), Line(d + 2, ForHead), Line(d + 3, Simple(DefineElement(k))),
               Line(d + 3, Simple(Turn(k + 1, at))),
               Line(d + 1, FinallyHead), Line(d + 2, Simple(EndFor)), Line(d + 1, Simple(ResultNone))];
    IfLinesOf(NoSequence, ResultNone, under, d);
    LinesPair(Do(SetupFor(at)), IfElse(NoSequence, [Do(ResultNone)], under), d);
    OpLine(SetupFor(at), d);
  }

  lemma OpLine(op: Op, d: nat)
    ensures LinesOf(Do(op), d) == [Line(d, Simple(op))]
  {}

  lemma LinesPair(a: Code, b: Code, d: nat)
    ensures Lines([a, b], d) == LinesOf(a, d) + LinesOf(b, d)
  {
    LinesAppend([a], [b], d);
    assert [a, b] == [a] + [b];
    LinesOne(a, d);
    LinesOne(b, d);
  }

  lemma TryLines(turns: seq<Code>, d: nat)
    ensures LinesOf(Try([ForRange(turns)], [Do(EndFor)]), d)
            == [Line(d, TryHead), Line(d + 1, ForHead)] + Lines(turns, d + 2)
               + [Line(d, FinallyHead), Line(d + 1, Simple(EndFor))]
  {
    LinesOne(ForRange(turns), d + 1);
    LineOfOp(EndFor, d + 1);
  }

  lemma IfLinesOf(test: Test, op: Op, els: seq<Code>, d: nat)
    requires els != []
    ensures LinesOf(IfElse(test, [Do(op)], els), d)
            == [Line(d, IfHead(test)), Line(d + 1, Simple(op)), Line(d, ElseHead)] + Lines(els, d + 1)
  {
    LineOfOp(op, d + 1);
  }

  /** What an elif chain still has to write at a depth. */
  ghost function ElseLines(tab: set<string>, alt: Alt, k: seq<Const>, n: nat, depth: nat): seq<Line> {
    [Line(depth, ElseHead)] + Lines(GenAlt(tab, alt, k, n).code, depth + 1)
  }

  /** An elif's condition and block go under the else of the one before. */
  lemma ElifLines(tab: set<string>, alt: Alt, k: seq<Const>, n: nat, depth: nat)
    requires alt.Elif?
    ensures var c := GenExpr(tab, alt.cond, k, n, true);
            ElseLines(tab, alt, k, n, depth)
            == [Line(depth, ElseHead)] + Lines(c.code, depth + 1)
               + [Line(depth + 1, IfHead(Truth(c.out))), Line(depth + 2, Simple(RunStmts(|c.k|)))]
               + ElseLines(tab, alt.rest, c.k + [CBlock(alt.body)], c.n, depth + 1)
  {
    hide GenExpr, Lines, LinesOf;
    var c := GenExpr(tab, alt.cond, k, n, true);
    var els := GenAlt(tab, alt.rest, c.k + [CBlock(alt.body)], c.n).code;
    AltIsFull(tab, alt.rest, c.k + [CBlock(alt.body)], c.n);
    LinesPlus(c.code, IfElse(Truth(c.out), [Do(RunStmts(|c.k|))], els), depth + 1);
    IfLinesOf(Truth(c.out), RunStmts(|c.k|), els, depth + 1);
  }

  class Emitter {
    const stmts: seq<Stmt>
    const table: set<string>   // the operators the evaluator keeps a handler for
    var k: seq<Const>
    var lines: seq<Line>
    var ntemp: nat

    constructor (stmts: seq<Stmt>, table: set<string>)
      ensures this.stmts == stmts && this.table == table
      ensures k == [] && lines == [] && ntemp == 0
    {
      this.stmts := stmts;
      this.table := table;
      k := [];
      lines := [];
      ntemp := 0;
    }

    method AddConst(c: Const) returns (i: nat)
      modifies this`k
      ensures i == |old(k)| && k == old(k) + [c]
    {
      k := k + [c];
      i := |k| - 1;
    }

    method AddLine(d: nat, text: Text)
      modifies this`lines
      ensures lines == old(lines) + [Line(d, text)]
    {
      lines := lines + [Line(d, text)];
    }

    /** A statement under `code`, which is what stands at this depth already. */
    method AddOp(d: nat, op: Op, ghost start: seq<Line>, ghost code: seq<Code>)
      requires lines == start + Lines(code, d)
      modifies this`lines
      ensures lines == start + Lines(code + [Do(op)], d)
    {
      AddLine(d, Simple(op));
      LinesSnoc(start, code, Do(op), d);
    }

    method Temp() returns (t: nat)
      modifies this`ntemp
      ensures t == ntemp == old(ntemp) + 1
    {
      ntemp := ntemp + 1;
      t := ntemp;
    }

    method AddPos(d: nat, pos: Pos)
      modifies this`k, this`lines
      ensures k == PosConst(pos, old(k)) && lines == old(lines) + Lines(PosCode(pos, old(k)), d)
    {
      if pos.NoPos? {
      } else {
        var p := AddConst(CPos(pos));
        AddLine(d, Simple(WritePos(p)));
        LinesOne(Do(WritePos(p)), d);
      }
    }

    /** `_Emit.expr` */
    method Expr(d: nat, e: Expr, observable: bool) returns (o: Operand)
      modifies this
      ensures var g := GenExpr(table, e, old(k), old(ntemp), observable);
              lines == old(lines) + Lines(g.code, d) && k == g.k && ntemp == g.n && o == g.out
      decreases e, 1
    {
      if Fallback(e) {
        var t := Temp();
        var n := AddConst(CExpr(e));
        AddLine(d, Simple(EvalNode(t, n)));
        LinesOne(Do(EvalNode(t, n)), d);
        return T(t);
      }
      match e
      case Lit(v, pos) =>
        var i := AddConst(CValue(IntV(v)));
        if observable { AddPos(d, pos); }
        o := K(i);
      case Var(x, pos) =>
        o := ReadLines(d, x, pos);
      case Logic(_, _, _, _) =>
        o := LogicLines(d, e);
      case Bin(_, _, _, _) =>
        o := BinOpLines(d, e);
      case Call(_, _, _) =>
        o := CallLines(d, e);
      case Method(_, _, _, _) =>
        o := MethodLines(d, e);
      case Attr(_, _, _) =>
        o := AttrLines(d, e);
      case Sub(_, _, _, _) =>
        o := SubLines(d, e);
    }

    method ReadLines(d: nat, x: Name, pos: Pos) returns (o: Operand)
      modifies this
      ensures var k0 := PosConst(pos, old(k));
              var t := old(ntemp) + 1;
              lines == old(lines) + Lines(PosCode(pos, old(k)) + ReadCode(t, |k0|), d)
              && k == k0 + [CName(x)] && ntemp == t && o == T(t)
    {
      hide Lines, LinesOf, PosCode;
      ghost var start, c1 := lines, PosCode(pos, k);
      AddPos(d, pos);
      var nm := AddConst(CName(x));
      var t := Temp();
      LineOfOp(FrozenGet(t, nm), d);
      LineOfOp(PureCheck(nm), d + 1);
      ghost var mid := lines;
      ghost var look := [Do(PureCheck(nm)), Do(LookupName(t, nm))];
      AddOp(d, FrozenGet(t, nm), mid, []);
      assert [] + [Do(FrozenGet(t, nm))] == [Do(FrozenGet(t, nm))] && [] + [Do(PureCheck(nm))] == [Do(PureCheck(nm))];
      AddOp(d, FrozenRefuse(t, nm), mid, [Do(FrozenGet(t, nm))]);
      AddOp(d, Probe(t, nm), mid, [Do(FrozenGet(t, nm))] + [Do(FrozenRefuse(t, nm))]);
      ghost var probes := [Do(FrozenGet(t, nm))] + [Do(FrozenRefuse(t, nm))] + [Do(Probe(t, nm))];
      ghost var above := lines;
      AddLine(d, IfHead(IsMissing(t)));
      ghost var inner := lines;
      AddOp(d + 1, PureCheck(nm), inner, []);
      AddOp(d + 1, LookupName(t, nm), inner, [Do(PureCheck(nm))]);
      assert [Do(PureCheck(nm))] + [Do(LookupName(t, nm))] == look;
      IfOnlyLines(above, IsMissing(t), look, d);
      LinesSnoc(mid, probes, IfElse(IsMissing(t), look, []), d);
      AddOp(d, FollowRef(t), mid, probes + [IfElse(IsMissing(t), look, [])]);
      assert probes + [IfElse(IsMissing(t), look, [])] + [Do(FollowRef(t))] == ReadCode(t, nm);
      LinesJoin(start, c1, ReadCode(t, nm), d);
      o := T(t);
    }

    method LogicLines(d: nat, e: Expr) returns (o: Operand)
      requires e.Logic?
      modifies this
      ensures var g := GenLogic(table, e, old(k), old(ntemp));
              lines == old(lines) + Lines(g.code, d) && k == g.k && ntemp == g.n && o == g.out
      decreases e, 0
    {
      hide GenExpr, Lines, LinesOf;
      ghost var start, k0, n0 := lines, k, ntemp;
      ghost var c1 := PosCode(e.pos, k);
      AddPos(d, e.pos);
      var a := Expr(d, e.left, false);
      ghost var ga := GenExpr(table, e.left, PosConst(e.pos, k0), n0, false);
      LinesJoin(start, c1, ga.code, d);
      var t := Temp();
      AddOp(d, TruthOf(t, a), start, c1 + ga.code);
      ghost var above := lines;
      var test := if e.isAnd then IsFalse(t) else IsTrue(t);
      AddLine(d, IfHead(test));
      AddLine(d + 1, Simple(SetBool(t, !e.isAnd)));
      ghost var settle := [Do(SetBool(t, !e.isAnd))];
      LineOfOp(SetBool(t, !e.isAnd), d + 1);
      AddLine(d, ElseHead);
      ghost var under := lines;
      var b := Expr(d + 1, e.right, false);
      ghost var gb := GenExpr(table, e.right, ga.k, t, false);
      AddPos(d + 1, e.pos);
      LinesJoin(under, gb.code, PosCode(e.pos, gb.k), d + 1);
      AddOp(d + 1, MkLogic(t, b), under, gb.code + PosCode(e.pos, gb.k));
      ghost var right := gb.code + PosCode(e.pos, gb.k) + [Do(MkLogic(t, b))];
      IfLines(above, test, settle, right, d);
      LinesSnoc(start, c1 + ga.code + [Do(TruthOf(t, a))], IfElse(test, settle, right), d);
      o := T(t);
    }

    method BinOpLines(d: nat, e: Expr) returns (o: Operand)
      requires e.Bin?
      modifies this
      ensures var g := GenBinOp(table, e, old(k), old(ntemp));
              lines == old(lines) + Lines(g.code, d) && k == g.k && ntemp == g.n && o == g.out
      decreases e, 0
    {
      hide GenExpr;
      ghost var start, k0, n0 := lines, k, ntemp;
      ghost var c1 := PosCode(e.pos, k);
      AddPos(d, e.pos);
      var a := Expr(d, e.left, false);
      ghost var ga := GenExpr(table, e.left, PosConst(e.pos, k0), n0, false);
      LinesJoin(start, c1, ga.code, d);
      var b := Expr(d, e.right, false);
      ghost var gb := GenExpr(table, e.right, ga.k, ga.n, false);
      LinesJoin(start, c1 + ga.code, gb.code, d);
      AddPos(d, e.pos);
      LinesJoin(start, c1 + ga.code + gb.code, PosCode(e.pos, gb.k), d);
      var t := Temp();
      var op := AddConst(COp(e.op));
      ghost var code := c1 + ga.code + gb.code + PosCode(e.pos, gb.k);
      if e.op in table {
        var h := AddConst(CHandler(e.op));
        AddOp(d, IntOp(t, h, op, a, b), start, code);
      } else {
        AddOp(d, ApplyOp(t, op, a, b), start, code);
      }
      o := T(t);
    }

    /** The arguments, in a loop that says of the last that it is observable. */
    method Args(d: nat, args: seq<Expr>) returns (os: seq<Operand>)
      modifies this
      ensures var g := GenArgs(table, args, old(k), old(ntemp));
              lines == old(lines) + Lines(g.code, d) && k == g.k && ntemp == g.n && os == g.outs
      decreases args, 0
    {
      hide GenExpr;
      ghost var start, goal := lines, GenArgs(table, args, k, ntemp);
      ghost var done: seq<Code> := [];
      os := [];
      var i := 0;
      while i < |args|
        invariant 0 <= i <= |args|
        invariant lines == start + Lines(done, d)
        // what is still to be written completes what the whole comes to
        invariant var rest := GenArgs(table, args[i..], k, ntemp);
                  goal == ArgsGen(done + rest.code, os + rest.outs, rest.k, rest.n)
      {
        ghost var left := args[i..];
        assert left[0] == args[i] && left[1..] == args[i + 1..];
        ghost var g := GenExpr(table, args[i], k, ntemp, |left| == 1);
        ghost var rest := GenArgs(table, left[1..], g.k, g.n);
        var o := Expr(d, args[i], i == |args| - 1);
        LinesJoin(start, done, g.code, d);
        assert done + (g.code + rest.code) == done + g.code + rest.code;
        assert os + ([o] + rest.outs) == os + [o] + rest.outs;
        done := done + g.code;
        os := os + [o];
        i := i + 1;
      }
      assert args[i..] == [];
      assert done + [] == done && os + [] == os;
    }

    method CallLines(d: nat, e: Expr) returns (o: Operand)
      requires e.Call?
      modifies this
      ensures var g := GenCall(table, e, old(k), old(ntemp));
              lines == old(lines) + Lines(g.code, d) && k == g.k && ntemp == g.n && o == g.out
      decreases e, 0
    {
      hide GenArgs;
      ghost var start, k0, n0 := lines, k, ntemp;
      AddPos(d, e.pos);
      var args := Args(d, e.args);
      ghost var ga := GenArgs(table, e.args, PosConst(e.pos, k0), n0);
      LinesJoin(start, PosCode(e.pos, k0), ga.code, d);
      var t := Temp();
      var n := AddConst(CExpr(e));
      AddOp(d, CallNode(t, n, args), start, PosCode(e.pos, k0) + ga.code);
      o := T(t);
    }

    method MethodLines(d: nat, e: Expr) returns (o: Operand)
      requires e.Method?
      modifies this
      ensures var g := GenMethod(table, e, old(k), old(ntemp));
              lines == old(lines) + Lines(g.code, d) && k == g.k && ntemp == g.n && o == g.out
      decreases e, 0
    {
      hide GenExpr, GenArgs;
      ghost var start, k0, n0 := lines, k, ntemp;
      var pre := AddConst(CExpr(e));
      AddOp(d, PreMethod(pre), start, []);
      var obj := Expr(d, e.obj, |e.args| == 0);
      ghost var go := GenExpr(table, e.obj, k0 + [CExpr(e)], n0, e.args == []);
      assert [] + [Do(PreMethod(pre))] == [Do(PreMethod(pre))];
      LinesJoin(start, [Do(PreMethod(pre))], go.code, d);
      var args := Args(d, e.args);
      ghost var ga := GenArgs(table, e.args, go.k, go.n);
      LinesJoin(start, [Do(PreMethod(pre))] + go.code, ga.code, d);
      var t := Temp();
      var n := AddConst(CExpr(e));
      AddOp(d, MethodNode(t, n, obj, args), start, [Do(PreMethod(pre))] + go.code + ga.code);
      o := T(t);
    }

    method AttrLines(d: nat, e: Expr) returns (o: Operand)
      requires e.Attr?
      modifies this
      ensures var g := GenAttr(table, e, old(k), old(ntemp));
              lines == old(lines) + Lines(g.code, d) && k == g.k && ntemp == g.n && o == g.out
      decreases e, 0
    {
      hide GenExpr;
      ghost var start, k0, n0 := lines, k, ntemp;
      AddPos(d, e.pos);
      var obj := Expr(d, e.obj, true);
      ghost var go := GenExpr(table, e.obj, PosConst(e.pos, k0), n0, true);
      LinesJoin(start, PosCode(e.pos, k0), go.code, d);
      var t := Temp();
      var n := AddConst(CExpr(e));
      AddOp(d, AttrNode(t, n, obj), start, PosCode(e.pos, k0) + go.code);
      o := T(t);
    }

    method SubLines(d: nat, e: Expr) returns (o: Operand)
      requires e.Sub?
      modifies this
      ensures var g := GenSub(table, e, old(k), old(ntemp));
              lines == old(lines) + Lines(g.code, d) && k == g.k && ntemp == g.n && o == g.out
      decreases e, 0
    {
      hide GenExpr, Lines, LinesOf;
      ghost var start, k0, n0 := lines, k, ntemp;
      var t := Temp();
      var n := AddConst(CExpr(e));
      LineOfOp(SubStart(t, n), d);
      AddOp(d, SubStart(t, n), start, []);
      assert [] + [Do(SubStart(t, n))] == [Do(SubStart(t, n))];
      ghost var above := lines;
      AddLine(d, IfHead(IsNone(t)));
      ghost var under := lines;
      var obj := Expr(d + 1, e.obj, false);
      ghost var go := GenExpr(table, e.obj, k0 + [CExpr(e)], t, false);
      AddOp(d + 1, SubBefore(obj), under, go.code);
      var i := Expr(d + 1, e.index, true);
      ghost var gi := GenExpr(table, e.index, go.k, go.n, true);
      LinesJoin(under, go.code + [Do(SubBefore(obj))], gi.code, d + 1);
      AddOp(d + 1, SubIndex(t, obj, i), under, go.code + [Do(SubBefore(obj))] + gi.code);
      ghost var inner := go.code + [Do(SubBefore(obj))] + gi.code + [Do(SubIndex(t, obj, i))];
      IfOnlyLines(above, IsNone(t), inner, d);
      LinesSnoc(start, [Do(SubStart(t, n))], IfElse(IsNone(t), inner, []), d);
      o := T(t);
    }

    /** An if, and the chain under it. */
    method IfStmt(d: nat, t: Stmt)
      requires t.If?
      modifies this
      ensures var c := GenExpr(table, t.cond, old(k), old(ntemp), true);
              var els := GenAlt(table, t.alt, c.k + [CBlock(t.cons)], c.n);
              lines == old(lines) + Lines(c.code + [IfElse(Truth(c.out), [Do(RunStmts(|c.k|))], els.code)], d)
              && k == els.k && ntemp == els.n
    {
      hide GenExpr, GenAlt, Lines, LinesOf;
      ghost var start, gc := lines, GenExpr(table, t.cond, k, ntemp, true);
      var c := Expr(d, t.cond, true);
      ghost var above := lines;
      AddLine(d, IfHead(Truth(c)));
      var body := AddConst(CBlock(t.cons));
      AddLine(d + 1, Simple(RunStmts(body)));
      LineOfOp(RunStmts(body), d + 1);
      ghost var els := GenAlt(table, t.alt, k, ntemp);
      AltIsFull(table, t.alt, k, ntemp);
      IfLines(above, Truth(c), [Do(RunStmts(body))], els.code, d);
      LinesSnoc(start, gc.code, IfElse(Truth(c), [Do(RunStmts(body))], els.code), d);
      Chain(d, t.alt);
    }

    /** The chain of an if: each elif one deeper, under the else of the one
        before, and an else for what no condition caught. */
    method Chain(d: nat, alt0: Alt)
      modifies this
      ensures lines == old(lines) + ElseLines(table, alt0, old(k), old(ntemp), d)
      ensures var g := GenAlt(table, alt0, old(k), old(ntemp)); k == g.k && ntemp == g.n
    {
      hide GenExpr, Lines, LinesOf;
      var alt, depth, closed := alt0, d, false;
      ghost var els := GenAlt(table, alt, k, ntemp);
      ghost var goal := lines + ElseLines(table, alt, k, ntemp, d);
      while !alt.NoAlt?
        invariant !closed
        invariant goal == lines + ElseLines(table, alt, k, ntemp, depth)
        invariant els.k == GenAlt(table, alt, k, ntemp).k && els.n == GenAlt(table, alt, k, ntemp).n
        decreases alt
      {
        if alt.Else? {
          AddLine(depth, ElseHead);
          var b := AddConst(CBlock(alt.body));
          AddLine(depth + 1, Simple(RunStmts(b)));
          LineOfOp(RunStmts(b), depth + 1);
          closed := true;
          break;
        }
        ElifLines(table, alt, k, ntemp, depth);
        AddLine(depth, ElseHead);
        depth := depth + 1;
        var c2 := Expr(depth, alt.cond, true);
        AddLine(depth, IfHead(Truth(c2)));
        var b := AddConst(CBlock(alt.body));
        AddLine(depth + 1, Simple(RunStmts(b)));
        alt := alt.rest;
      }
      if !closed {
        AddLine(depth, ElseHead);
        AddLine(depth + 1, Simple(ResultNone));
        LineOfOp(ResultNone, depth + 1);
      }
    }

    method LetStmt(d: nat, t: Stmt, at: nat)
      requires t.Let?
      modifies this
      ensures var g := GenBody(table, t, at, old(k), old(ntemp));
              lines == old(lines) + Lines(g.code, d) && k == g.k && ntemp == g.n
    {
      hide GenExpr, Lines, LinesOf;
      ghost var start, gv := lines, GenExpr(table, t.init, k, ntemp, true);
      LineOfOp(PreLet(at), d);
      AddOp(d, PreLet(at), start, []);
      ghost var pre := [] + [Do(PreLet(at))];
      if t.name == DISCARD_NAME {
        var _ := Expr(d, t.init, true);
        LinesJoin(start, pre, gv.code, d);
        AddOp(d, ResultNone, start, pre + gv.code);
        assert pre + gv.code + [Do(ResultNone)] == [Do(PreLet(at))] + gv.code + [Do(ResultNone)];
      } else {
        AddOp(d, LetFrozen(at), start, pre);
        var v := Expr(d, t.init, true);
        LinesJoin(start, pre + [Do(LetFrozen(at))], gv.code, d);
        AddOp(d, BindLet(at, v, t.borrows), start, pre + [Do(LetFrozen(at))] + gv.code);
        assert pre + [Do(LetFrozen(at))] == [Do(PreLet(at)), Do(LetFrozen(at))];
      }
    }

    method LoopStmt(d: nat, t: Stmt, at: nat)
      requires t.While? || t.ForEach?
      modifies this
      ensures var g := GenBody(table, t, at, old(k), old(ntemp));
              lines == old(lines) + Lines(g.code, d) && k == g.k && ntemp == g.n
    {
      hide GenExpr;
      ghost var start := lines;
      LineOfOp(ResultNone, d);
      if t.While? {
        ghost var gc := GenExpr(table, t.cond, k, ntemp, true);
        AddLine(d, LoopHead);
        ghost var under := lines;
        var c := Expr(d + 1, t.cond, true);
        AddOp(d + 1, BreakUnless(c), under, gc.code);
        var body := AddConst(CBlock(t.body));
        AddOp(d + 1, Turn(body, at), under, gc.code + [Do(BreakUnless(c))]);
        ghost var inner := gc.code + [Do(BreakUnless(c))] + [Do(Turn(body, at))];
        assert inner == gc.code + [Do(BreakUnless(c)), Do(Turn(body, at))];
        LinesSnoc(start, [], Loop(inner), d);
        AddOp(d, ResultNone, start, [] + [Loop(inner)]);
        assert [] + [Loop(inner)] + [Do(ResultNone)] == [Loop(inner), Do(ResultNone)];
      } else {
        ForLines(d, t, at);
      }
    }

    method ForLines(d: nat, t: Stmt, at: nat)
      requires t.ForEach?
      modifies this
      ensures var g := GenBody(table, t, at, old(k), old(ntemp));
              lines == old(lines) + Lines(g.code, d) && k == g.k && ntemp == g.n
    {
      hide Lines, LinesOf, GenExpr;
      ghost var start := lines;
      var nm := AddConst(CName(t.name));
      AddLine(d, Simple(SetupFor(at)));
      AddLine(d, IfHead(NoSequence));
      AddLine(d + 1, Simple(ResultNone));
      AddLine(d, ElseHead);
      AddLine(d + 1, TryHead);
      AddLine(d + 2, ForHead);
      AddLine(d + 3, Simple(DefineElement(nm)));
      var body := AddConst(CBlock(t.body));
      AddLine(d + 3, Simple(Turn(body, at)));
      AddLine(d + 1, FinallyHead);
      AddLine(d + 2, Simple(EndFor));
      AddLine(d + 1, Simple(ResultNone));
      ForEachLines(d, nm, at);
    }

    method AssignStmt(d: nat, t: Stmt)
      requires t.Assign?
      modifies this
      ensures var g := GenBody(table, t, 0, old(k), old(ntemp));
              lines == old(lines) + Lines(g.code, d) && k == g.k && ntemp == g.n
    {
      hide GenExpr, Lines, LinesOf;
      ghost var start := lines;
      var target := AddConst(CExpr(t.target));
      LineOfOp(PreAssign(target), d);
      AddOp(d, PreAssign(target), start, []);
      ghost var pre := [] + [Do(PreAssign(target))];
      if IsBinOp(t.rhs) {
        var rhs := AddConst(CExpr(t.rhs));
        ghost var above := lines;
        AddLine(d, IfHead(InPlace(target, rhs)));
        AddLine(d + 1, Simple(ResultNone));
        LineOfOp(ResultNone, d + 1);
        AddLine(d, ElseHead);
        ghost var under, gv := lines, GenExpr(table, t.rhs, k, ntemp, true);
        var v := Expr(d + 1, t.rhs, true);
        AddOp(d + 1, StoreTo(target, v), under, gv.code);
        IfLines(above, InPlace(target, rhs), [Do(ResultNone)], gv.code + [Do(StoreTo(target, v))], d);
        ghost var test := IfElse(InPlace(target, rhs), [Do(ResultNone)], gv.code + [Do(StoreTo(target, v))]);
        LinesSnoc(start, pre, test, d);
        assert pre + [test] == [Do(PreAssign(target)), test];
      } else {
        ghost var gv := GenExpr(table, t.rhs, k, ntemp, true);
        var v := Expr(d, t.rhs, true);
        LinesJoin(start, pre, gv.code, d);
        AddOp(d, StoreTo(target, v), start, pre + gv.code);
        assert pre == [Do(PreAssign(target))];
      }
    }

    /** `_Emit.stmt`, from the statement's own work on. */
    method Body(d: nat, t: Stmt, at: nat)
      modifies this
      ensures var g := GenBody(table, t, at, old(k), old(ntemp));
              lines == old(lines) + Lines(g.code, d) && k == g.k && ntemp == g.n
    {
      hide GenExpr, Lines, LinesOf;
      ghost var start := lines;
      match t
      case ExprStmt(e, _) =>
        ghost var gv := GenExpr(table, e, k, ntemp, true);
        var v := Expr(d, e, true);
        AddOp(d, SetResult(v), start, gv.code);
      case Return(e, _) =>
        if e.Some? {
          ghost var gv := GenExpr(table, e.value, k, ntemp, true);
          var v := Expr(d, e.value, true);
          AddOp(d, RaiseReturn(v), start, gv.code);
        } else {
          AddLine(d, Simple(RaiseNone));
          LineOfOp(RaiseNone, d);
        }
      case If(_, _, _, _) => IfStmt(d, t);
      case Let(_, _, _, _, _, _) => LetStmt(d, t, at);
      case While(_, _, _, _) => LoopStmt(d, t, at);
      case ForEach(_, _, _, _, _) => LoopStmt(d, t, at);
      case Assign(_, _) => AssignStmt(d, t);
      case Leave(_, _, _) =>
        AddLine(d, Simple(EvalStmtNode(at)));
        LineOfOp(EvalStmtNode(at), d);
      case OpaqueStmt(_, _) =>
        AddLine(d, Simple(Handle(at)));
        LineOfOp(Handle(at), d);
    }

    /** `_Emit.stmt` */
    method Stmt(d: nat, t: Stmt)
      modifies this
      ensures var g := GenStmt(table, t, old(k), old(ntemp));
              lines == old(lines) + Lines(g.code, d) && k == g.k && ntemp == g.n
    {
      hide GenBody, Lines;
      ghost var start, k0, n0 := lines, k + [CStmt(t)], ntemp;
      var at := AddConst(CStmt(t));
      AddPos(d, t.At());
      Body(d, t, at);
      LinesJoin(start, PosCode(t.At(), k0), GenBody(table, t, at, PosConst(t.At(), k0), n0).code, d);
    }

    /** `_Emit.block`: the lines of the function, and what Python reads in them
        is the code the block was to be. */
    method Block()
      requires k == [] && lines == [] && ntemp == 0
      modifies this
      ensures var g := GenStmts(table, stmts, [], 0);
              k == g.k && lines == Lines(g.code, 1)
              && Target.Block(lines, 1) == Parsed(g.code, [])
    {
      hide GenStmt, Lines, Target.Block;
      ghost var goal := GenStmts(table, stmts, [], 0);
      ghost var done: seq<Code> := [];
      LineOfOp(ResultNone, 1);
      var i := 0;
      while i < |stmts|
        invariant 0 <= i <= |stmts|
        invariant lines == Lines(done, 1)
        invariant var rest := GenStmts(table, stmts[i..], k, ntemp);
                  goal == StmtGen(done + rest.code, rest.k, rest.n)
      {
        ghost var left := stmts[i..];
        assert left[0] == stmts[i] && left[1..] == stmts[i + 1..];
        ghost var g := GenStmt(table, stmts[i], k, ntemp);
        ghost var rest := GenStmts(table, left[1..], g.k, g.n);
        Stmt(1, stmts[i]);
        LinesAppend(done, g.code, 1);
        assert done + (g.code + rest.code) == done + g.code + rest.code;
        done := done + g.code;
        i := i + 1;
      }
      assert stmts[i..] == [] && done + [] == done;
      BlockIsFull(table, stmts, [], 0);
      LayoutRoundTrip(goal.code, 1, []);
      assert lines + [] == lines;
    }
  }
}
