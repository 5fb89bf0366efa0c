/** What interp/compile.py answers for each node, as a value: the code, the
    operand that holds the result, and the constants and temporaries handed
    out so far.  The emitter itself is in Emit.dfy. */
module CodeGen {
  import opened Syntax
  import opened Target

  /** `k` is the constants so far, `n` the number of the last temporary. */
  datatype Gen = Gen(code: seq<Code>, out: Operand, k: seq<Const>, n: nat)
  datatype ArgsGen = ArgsGen(code: seq<Code>, outs: seq<Operand>, k: seq<Const>, n: nat)
  datatype StmtGen = StmtGen(code: seq<Code>, k: seq<Const>, n: nat)

  function PosCode(pos: Pos, k: seq<Const>): seq<Code> {
    if pos.NoPos? then [] else [Do(WritePos(|k|))]
  }

  function PosConst(pos: Pos, k: seq<Const>): seq<Const> {
    if pos.NoPos? then k else k + [CPos(pos)]
  }

  /** A read of a name, its innermost frame probed in line. */
  function ReadCode(t: nat, k: nat): seq<Code> {
    [Do(FrozenGet(t, k)), Do(FrozenRefuse(t, k)), Do(Probe(t, k)),
     IfElse(IsMissing(t), [Do(PureCheck(k)), Do(LookupName(t, k))], []),
     Do(FollowRef(t))]
  }

  predicate Fallback(e: Expr) {
    e.Coalesce? || e.Opaque? || (e.Var? && e.name == DISCARD_NAME)
  }

  /** Constants and temporaries are only ever added, and the result is in a
      temporary handed out here. */
  predicate Extends(k: seq<Const>, n: nat, r: Gen) {
    k <= r.k && n < r.n && r.out.T? && n < r.out.i <= r.n
  }

  /** `_Emit.expr` */
  function GenExpr(tab: set<string>, e: Expr, k: seq<Const>, n: nat, observable: bool): (r: Gen)
    ensures if e.Lit? then r.out.K? && k <= r.k && n == r.n else Extends(k, n, r)
    decreases e, 1
  {
    if Fallback(e) then Gen([Do(EvalNode(n + 1, |k|))], T(n + 1), k + [CExpr(e)], n + 1)
    else match e
    case Lit(v, pos) =>
      var k0 := k + [CValue(IntV(v))];
      if observable then Gen(PosCode(pos, k0), K(|k|), PosConst(pos, k0), n) else Gen([], K(|k|), k0, n)
    case Var(x, pos) =>
      var k0 := PosConst(pos, k);
      Gen(PosCode(pos, k) + ReadCode(n + 1, |k0|), T(n + 1), k0 + [CName(x)], n + 1)
    case Logic(_, _, _, _) => GenLogic(tab, e, k, n)
    case Bin(_, _, _, _) => GenBinOp(tab, e, k, n)
    case Call(_, _, _) => GenCall(tab, e, k, n)
    case Method(_, _, _, _) => GenMethod(tab, e, k, n)
    case Attr(_, _, _) => GenAttr(tab, e, k, n)
    case Sub(_, _, _, _) => GenSub(tab, e, k, n)
  }

  function GenLogic(tab: set<string>, e: Expr, k: seq<Const>, n: nat): (r: Gen)
    requires e.Logic?
    ensures Extends(k, n, r)
    decreases e, 0
  {
    var a := GenExpr(tab, e.left, PosConst(e.pos, k), n, false);
    var t := a.n + 1;
    var b := GenExpr(tab, e.right, a.k, t, false);
    Gen(PosCode(e.pos, k) + a.code + [Do(TruthOf(t, a.out))]
        + [IfElse(if e.isAnd then IsFalse(t) else IsTrue(t),
              [Do(SetBool(t, !e.isAnd))],
              b.code + PosCode(e.pos, b.k) + [Do(MkLogic(t, b.out))])],
        T(t), PosConst(e.pos, b.k), b.n)
  }

  function GenBinOp(tab: set<string>, e: Expr, k: seq<Const>, n: nat): (r: Gen)
    requires e.Bin?
    ensures Extends(k, n, r)
    decreases e, 0
  {
    var a := GenExpr(tab, e.left, PosConst(e.pos, k), n, false);
    var b := GenExpr(tab, e.right, a.k, a.n, false);
    var k0 := PosConst(e.pos, b.k);
    var k1 := k0 + [COp(e.op)];
    Gen(PosCode(e.pos, k) + a.code + b.code + PosCode(e.pos, b.k)
        + [Do(if e.op in tab then IntOp(b.n + 1, |k1|, |k0|, a.out, b.out) else ApplyOp(b.n + 1, |k0|, a.out, b.out))],
        T(b.n + 1), if e.op in tab then k1 + [CHandler(e.op)] else k1, b.n + 1)
  }

  function GenCall(tab: set<string>, e: Expr, k: seq<Const>, n: nat): (r: Gen)
    requires e.Call?
    ensures Extends(k, n, r)
    decreases e, 0
  {
    var a := GenArgs(tab, e.args, PosConst(e.pos, k), n);
    Gen(PosCode(e.pos, k) + a.code + [Do(CallNode(a.n + 1, |a.k|, a.outs))],
        T(a.n + 1), a.k + [CExpr(e)], a.n + 1)
  }

  function GenMethod(tab: set<string>, e: Expr, k: seq<Const>, n: nat): (r: Gen)
    requires e.Method?
    ensures Extends(k, n, r)
    decreases e, 0
  {
    var o := GenExpr(tab, e.obj, k + [CExpr(e)], n, e.args == []);
    var a := GenArgs(tab, e.args, o.k, o.n);
    Gen([Do(PreMethod(|k|))] + o.code + a.code + [Do(MethodNode(a.n + 1, |a.k|, o.out, a.outs))],
        T(a.n + 1), a.k + [CExpr(e)], a.n + 1)
  }

  function GenAttr(tab: set<string>, e: Expr, k: seq<Const>, n: nat): (r: Gen)
    requires e.Attr?
    ensures Extends(k, n, r)
    decreases e, 0
  {
    var o := GenExpr(tab, e.obj, PosConst(e.pos, k), n, true);
    Gen(PosCode(e.pos, k) + o.code + [Do(AttrNode(o.n + 1, |o.k|, o.out))],
        T(o.n + 1), o.k + [CExpr(e)], o.n + 1)
  }

  function GenSub(tab: set<string>, e: Expr, k: seq<Const>, n: nat): (r: Gen)
    requires e.Sub?
    ensures Extends(k, n, r)
    decreases e, 0
  {
    var t := n + 1;
    var o := GenExpr(tab, e.obj, k + [CExpr(e)], t, false);
    var i := GenExpr(tab, e.index, o.k, o.n, true);
    Gen([Do(SubStart(t, |k|))]
        + [IfElse(IsNone(t), o.code + [Do(SubBefore(o.out))] + i.code + [Do(SubIndex(t, o.out, i.out))], [])],
        T(t), i.k, i.n)
  }

  /** The arguments of a call, of which only the last is observable. */
  function GenArgs(tab: set<string>, args: seq<Expr>, k: seq<Const>, n: nat): (r: ArgsGen)
    ensures k <= r.k && n <= r.n && |r.outs| == |args|
    decreases args, 0
  {
    if args == [] then ArgsGen([], [], k, n) else
    var a := GenExpr(tab, args[0], k, n, |args| == 1);
    var rest := GenArgs(tab, args[1..], a.k, a.n);
    ArgsGen(a.code + rest.code, [a.out] + rest.outs, rest.k, rest.n)
  }

  /** The suite under an else, with the rest of the elif chain inside it. */
  function GenAlt(tab: set<string>, alt: Alt, k: seq<Const>, n: nat): (r: StmtGen)
    ensures k <= r.k
    decreases alt
  {
    match alt
    case NoAlt => StmtGen([Do(ResultNone)], k, n)
    case Else(body) => StmtGen([Do(RunStmts(|k|))], k + [CBlock(body)], n)
    case Elif(cond, body, rest) =>
      var c := GenExpr(tab, cond, k, n, true);
      var els := GenAlt(tab, rest, c.k + [CBlock(body)], c.n);
      StmtGen(c.code + [IfElse(Truth(c.out), [Do(RunStmts(|c.k|))], els.code)], els.k, els.n)
  }

  predicate IsBinOp(e: Expr) { e.Bin? || e.Logic? || e.Coalesce? }

  /** `_Emit.stmt`, from the statement's own work on: `at` is its place among
      the constants. */
  function GenBody(tab: set<string>, t: Stmt, at: nat, k: seq<Const>, n: nat): (r: StmtGen)
    ensures k <= r.k
  {
    match t
    case ExprStmt(e, _) =>
      var v := GenExpr(tab, e, k, n, true);
      StmtGen(v.code + [Do(SetResult(v.out))], v.k, v.n)
    case Return(e, _) =>
      if e.None? then StmtGen([Do(RaiseNone)], k, n) else
      var v := GenExpr(tab, e.value, k, n, true);
      StmtGen(v.code + [Do(RaiseReturn(v.out))], v.k, v.n)
    case If(cond, cons, alt, _) =>
      var c := GenExpr(tab, cond, k, n, true);
      var els := GenAlt(tab, alt, c.k + [CBlock(cons)], c.n);
      StmtGen(c.code + [IfElse(Truth(c.out), [Do(RunStmts(|c.k|))], els.code)], els.k, els.n)
    case Let(name, init, borrows, _, _, _) =>
      var v := GenExpr(tab, init, k, n, true);
      if name == DISCARD_NAME then StmtGen([Do(PreLet(at))] + v.code + [Do(ResultNone)], v.k, v.n)
      else StmtGen([Do(PreLet(at)), Do(LetFrozen(at))] + v.code + [Do(BindLet(at, v.out, borrows))], v.k, v.n)
    case While(cond, body, _, _) =>
      var c := GenExpr(tab, cond, k, n, true);
      StmtGen([Loop(c.code + [Do(BreakUnless(c.out)), Do(Turn(|c.k|, at))]), Do(ResultNone)],
              c.k + [CBlock(body)], c.n)
    case ForEach(name, _, body, _, _) =>
      StmtGen([Do(SetupFor(at)),
               IfElse(NoSequence, [Do(ResultNone)],
                  [Try([ForRange([Do(DefineElement(|k|)), Do(Turn(|k| + 1, at))])], [Do(EndFor)]),
                   Do(ResultNone)])],
              k + [CName(name), CBlock(body)], n)
    case Assign(target, rhs) =>
      var k0 := k + [CExpr(target)];
      if IsBinOp(rhs) then
        var v := GenExpr(tab, rhs, k0 + [CExpr(rhs)], n, true);
        StmtGen([Do(PreAssign(|k|)),
                 IfElse(InPlace(|k|, |k0|), [Do(ResultNone)], v.code + [Do(StoreTo(|k|, v.out))])],
                v.k, v.n)
      else
        var v := GenExpr(tab, rhs, k0, n, true);
        StmtGen([Do(PreAssign(|k|))] + v.code + [Do(StoreTo(|k|, v.out))], v.k, v.n)
    case Leave(_, _, _) => StmtGen([Do(EvalStmtNode(at))], k, n)
    case OpaqueStmt(_, _) => StmtGen([Do(Handle(at))], k, n)
  }

  function GenStmt(tab: set<string>, t: Stmt, k: seq<Const>, n: nat): (r: StmtGen)
    ensures k + [CStmt(t)] <= r.k
  {
    var k0 := k + [CStmt(t)];
    var b := GenBody(tab, t, |k|, PosConst(t.At(), k0), n);
    StmtGen(PosCode(t.At(), k0) + b.code, b.k, b.n)
  }

  /** `_Emit.block` */
  function GenStmts(tab: set<string>, b: seq<Stmt>, k: seq<Const>, n: nat): (r: StmtGen)
    ensures k <= r.k
    decreases |b|
  {
    if b == [] then StmtGen([], k, n) else
    var s := GenStmt(tab, b[0], k, n);
    var rest := GenStmts(tab, b[1..], s.k, s.n);
    StmtGen(s.code + rest.code, rest.k, rest.n)
  }
}
