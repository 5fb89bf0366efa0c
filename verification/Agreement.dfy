/** Running compiled says what the walk says.  Two families of lemmas follow the
    two recursions: the walk agrees with itself whichever way the blocks inside
    it run, and the code of each node simulates the walk of that node.  Both are
    carried for a strict and a plain notion of the same state, with and without
    the position a run stands at. */
module Agreement {
  import opened Syntax
  import opened Target
  import opened CodeGen
  import opened Semantics

  // ---- what is asked of a program --------------------------------------

  /** With `strict`, every node carries a position, and a literal on the left
      of an `and` or an `or` carries that operator's own.  Either way no integer
      literal is subscripted. */
  predicate FitExpr(strict: bool, e: Expr)
    decreases e, 0
  {
    (strict ==> !e.pos.NoPos?) &&
    match e
    case Lit(_, _) => true
    case Var(_, _) => true
    case Opaque(_, _) => true
    case Bin(_, l, r, _) => FitExpr(strict, l) && FitExpr(strict, r)
    case Logic(_, l, r, pos) => FitExpr(strict, l) && FitExpr(strict, r) && (strict && l.Lit? ==> l.pos == pos)
    case Coalesce(l, r, _) => FitExpr(strict, l) && FitExpr(strict, r)
    case Call(_, args, _) => FitArgs(strict, args)
    case Method(obj, _, args, _) => FitExpr(strict, obj) && FitArgs(strict, args)
    case Attr(obj, _, _) => FitExpr(strict, obj)
    case Sub(obj, index, spells, _) =>
      FitExpr(strict, obj) && FitExpr(strict, index) && (obj.Lit? ==> spells.Some?)
  }

  predicate FitArgs(strict: bool, args: seq<Expr>)
    decreases args, 0
  {
    args == [] || (FitExpr(strict, args[0]) && FitArgs(strict, args[1..]))
  }

  predicate FitStmt(strict: bool, t: Stmt)
    decreases t, 0
  {
    (strict ==> t.Assign? || !t.At().NoPos?) &&
    match t
    case ExprStmt(e, _) => FitExpr(strict, e)
    case Return(e, _) => e.None? || FitExpr(strict, e.value)
    case If(cond, cons, alt, _) => FitExpr(strict, cond) && FitBlock(strict, cons) && FitAlt(strict, alt)
    case Let(_, init, _, _, _, _) => FitExpr(strict, init)
    case While(cond, body, _, _) => FitExpr(strict, cond) && FitBlock(strict, body)
    case ForEach(_, iterable, body, _, _) => FitExpr(strict, iterable) && FitBlock(strict, body)
    case Assign(target, rhs) => FitExpr(strict, target) && FitExpr(strict, rhs)
    case Leave(_, _, _) => true
    case OpaqueStmt(_, _) => true
  }

  predicate FitAlt(strict: bool, alt: Alt)
    decreases alt, 0
  {
    match alt
    case NoAlt => true
    case Else(body) => FitBlock(strict, body)
    case Elif(cond, body, rest) => FitExpr(strict, cond) && FitBlock(strict, body) && FitAlt(strict, rest)
  }

  predicate FitBlock(strict: bool, b: seq<Stmt>)
    decreases b, 0
  {
    b == [] || (FitStmt(strict, b[0]) && FitBlock(strict, b[1..]))
  }

  ghost predicate Sound(strict: bool, p: Program) {
    forall id :: id in p.funcs ==> FitBlock(strict, p.funcs[id].body)
  }

  /** The modes in which a foreach reads the element of its turn directly. */
  type Reading = m: Mode | !m.Walked? witness Direct

  // ---- what agreeing means -----------------------------------------------

  /** The same in everything but where the run stands. */
  predicate Close(strict: bool, s: State, w: State) {
    s.core == w.core && s.short == w.short && (strict ==> s.trace == w.trace)
  }

  predicate Same(strict: bool, s: State, w: State) {
    Close(strict, s, w) && (strict ==> s.pos == w.pos)
  }

  predicate Alike(strict: bool, a: Run, b: Run) {
    a.out == b.out && Same(strict, a.st, b.st)
  }

  // ---- the evaluator, whichever way it runs its blocks -----------------------

  lemma EnterSame(strict: bool, pos: Pos, s: State, w: State)
    requires Close(strict, s, w) && (strict ==> !pos.NoPos?)
    ensures Same(strict, Enter(pos, s), Enter(pos, w))
  {}

  lemma ReadVarAgrees(strict: bool, p: Program, x: Name, s: State, w: State)
    requires Same(strict, s, w)
    ensures Alike(strict, ReadVar(p, x, s), ReadVar(p, x, w))
  {}

  lemma {:induction false} EvalAgrees(strict: bool, p: Program, m1: Reading, m2: Reading, f: nat, e: Expr, s: State,
                                      w: State)
    requires Sound(strict, p) && FitExpr(strict, e) && Close(strict, s, w)
    ensures Alike(strict, Eval(p, m1, f, e, s), Eval(p, m2, f, e, w))
    decreases f, 3, e, 1
  {
    hide EvalBinOp, EvalLogic, EvalCoalesce, EvalCall, EvalMethod, EvalAttr, EvalSub, ReadVar;
    EnterSame(strict, e.pos, s, w);
    var s0, w0 := Enter(e.pos, s), Enter(e.pos, w);
    match e
    case Lit(_, _) =>
    case Opaque(_, _) =>
    case Var(x, _) => ReadVarAgrees(strict, p, x, s0, w0);
    case Bin(_, _, _, _) => BinOpAgrees(strict, p, m1, m2, f, e, s0, w0);
    case Logic(_, _, _, _) => LogicAgrees(strict, p, m1, m2, f, e, s0, w0);
    case Coalesce(_, _, _) => CoalesceAgrees(strict, p, m1, m2, f, e, s0, w0);
    case Call(_, _, _) => CallAgrees(strict, p, m1, m2, f, e, s0, w0);
    case Method(_, _, _, _) => MethodAgrees(strict, p, m1, m2, f, e, s0, w0);
    case Attr(_, _, _) => AttrAgrees(strict, p, m1, m2, f, e, s0, w0);
    case Sub(_, _, _, _) => SubAgrees(strict, p, m1, m2, f, e, s0, w0);
  }

  lemma {:induction false} BinOpAgrees(strict: bool, p: Program, m1: Reading, m2: Reading, f: nat, e: Expr, s: State,
                                       w: State)
    requires e.Bin? && Sound(strict, p) && FitExpr(strict, e) && Same(strict, s, w)
    ensures Alike(strict, EvalBinOp(p, m1, f, e, s), EvalBinOp(p, m2, f, e, w))
    decreases f, 3, e, 0
  {
    hide Eval;
    EvalAgrees(strict, p, m1, m2, f, e.left, s, w);
    var a, b := Eval(p, m1, f, e.left, s), Eval(p, m2, f, e.left, w);
    if a.out.Normal? { EvalAgrees(strict, p, m1, m2, f, e.right, a.st, b.st); }
  }

  lemma {:induction false} LogicAgrees(strict: bool, p: Program, m1: Reading, m2: Reading, f: nat, e: Expr, s: State,
                                       w: State)
    requires e.Logic? && Sound(strict, p) && FitExpr(strict, e) && Same(strict, s, w)
    ensures Alike(strict, EvalLogic(p, m1, f, e, s), EvalLogic(p, m2, f, e, w))
    decreases f, 3, e, 0
  {
    hide Eval;
    EvalAgrees(strict, p, m1, m2, f, e.left, s, w);
    var a, b := Eval(p, m1, f, e.left, s), Eval(p, m2, f, e.left, w);
    if a.out.Normal? { EvalAgrees(strict, p, m1, m2, f, e.right, a.st, b.st); }
  }

  lemma {:induction false} CoalesceAgrees(strict: bool, p: Program, m1: Reading, m2: Reading, f: nat, e: Expr,
                                          s: State, w: State)
    requires e.Coalesce? && Sound(strict, p) && FitExpr(strict, e) && Same(strict, s, w)
    ensures Alike(strict, EvalCoalesce(p, m1, f, e, s), EvalCoalesce(p, m2, f, e, w))
    decreases f, 3, e, 0
  {
    hide Eval;
    EvalAgrees(strict, p, m1, m2, f, e.left, s, w);
    var a, b := Eval(p, m1, f, e.left, s), Eval(p, m2, f, e.left, w);
    if a.out.Normal? { EvalAgrees(strict, p, m1, m2, f, e.right, a.st, b.st); }
  }

  lemma {:induction false} CallAgrees(strict: bool, p: Program, m1: Reading, m2: Reading, f: nat, e: Expr, s: State,
                                      w: State)
    requires e.Call? && Sound(strict, p) && FitExpr(strict, e) && Same(strict, s, w)
    ensures Alike(strict, EvalCall(p, m1, f, e, s), EvalCall(p, m2, f, e, w))
    decreases f, 3, e, 0
  {
    hide EvalArgs, CallByName;
    ArgsAgree(strict, p, m1, m2, f, e.args, s, w);
    var a, b := EvalArgs(p, m1, f, e.args, s), EvalArgs(p, m2, f, e.args, w);
    if a.out.Normal? { CallByNameAgrees(strict, p, m1, m2, f, e.name, a.vals, a.st, b.st); }
  }

  lemma {:induction false} AttrAgrees(strict: bool, p: Program, m1: Reading, m2: Reading, f: nat, e: Expr, s: State,
                                      w: State)
    requires e.Attr? && Sound(strict, p) && FitExpr(strict, e) && Same(strict, s, w)
    ensures Alike(strict, EvalAttr(p, m1, f, e, s), EvalAttr(p, m2, f, e, w))
    decreases f, 3, e, 0
  {
    hide Eval;
    EvalAgrees(strict, p, m1, m2, f, e.obj, s, w);
  }

  lemma {:induction false} SubAgrees(strict: bool, p: Program, m1: Reading, m2: Reading, f: nat, e: Expr, s: State,
                                     w: State)
    requires e.Sub? && Sound(strict, p) && FitExpr(strict, e) && Same(strict, s, w)
    ensures Alike(strict, EvalSub(p, m1, f, e, s), EvalSub(p, m2, f, e, w))
    decreases f, 3, e, 0
  {
    hide Eval;
    if e.spells.None? {
      EvalAgrees(strict, p, m1, m2, f, e.obj, s, w);
      var a, b := Eval(p, m1, f, e.obj, s), Eval(p, m2, f, e.obj, w);
      if a.out.Normal? {
        var c, d := Perform(p, BeforeIndex(a.out.v), a.st), Perform(p, BeforeIndex(b.out.v), b.st);
        if c.out.Normal? { EvalAgrees(strict, p, m1, m2, f, e.index, c.st, d.st); }
      }
    }
  }

  lemma {:induction false} MethodAgrees(strict: bool, p: Program, m1: Reading, m2: Reading, f: nat, e: Expr, s: State,
                                        w: State)
    requires e.Method? && Sound(strict, p) && FitExpr(strict, e) && Same(strict, s, w)
    ensures Alike(strict, EvalMethod(p, m1, f, e, s), EvalMethod(p, m2, f, e, w))
    decreases f, 3, e, 0
  {
    hide Eval, EvalArgs, CallOn;
    var c, d := Perform(p, CheckMutating(e), s), Perform(p, CheckMutating(e), w);
    if c.out.Normal? {
      EvalAgrees(strict, p, m1, m2, f, e.obj, c.st, d.st);
      var o, q := Eval(p, m1, f, e.obj, c.st), Eval(p, m2, f, e.obj, d.st);
      if o.out.Normal? {
        ArgsAgree(strict, p, m1, m2, f, e.args, o.st, q.st);
        var a, b := EvalArgs(p, m1, f, e.args, o.st), EvalArgs(p, m2, f, e.args, q.st);
        if a.out.Normal? { CallOnAgrees(strict, p, m1, m2, f, o.out.v, e.name, a.vals, a.st, b.st); }
      }
    }
  }

  lemma {:induction false} ArgsAgree(strict: bool, p: Program, m1: Reading, m2: Reading, f: nat, args: seq<Expr>,
                                     s: State, w: State)
    requires Sound(strict, p) && FitArgs(strict, args) && Same(strict, s, w)
    ensures var a, b := EvalArgs(p, m1, f, args, s), EvalArgs(p, m2, f, args, w);
            a.out == b.out && a.vals == b.vals && Same(strict, a.st, b.st)
    decreases f, 3, args, 1
  {
    hide Eval;
    if args != [] {
      EvalAgrees(strict, p, m1, m2, f, args[0], s, w);
      var a, b := Eval(p, m1, f, args[0], s), Eval(p, m2, f, args[0], w);
      if a.out.Normal? { ArgsAgree(strict, p, m1, m2, f, args[1..], a.st, b.st); }
    }
  }

  lemma {:induction false} CallByNameAgrees(strict: bool, p: Program, m1: Reading, m2: Reading, f: nat, name: Name,
                                            args: seq<Value>,
                                            s: State, w: State)
    requires Sound(strict, p) && Same(strict, s, w)
    ensures Alike(strict, CallByName(p, m1, f, name, args, s), CallByName(p, m2, f, name, args, w))
    decreases f, 2
  {
    hide CallUser, Lookup;
    var s1, w1 := s.(trace := s.trace + [Called(name, s.pos)]), w.(trace := w.trace + [Called(name, w.pos)]);
    var v := Lookup(s.core, name);
    if v.Some? && v.value.FuncV? && v.value.id in p.funcs {
      CallUserAgrees(strict, p, m1, m2, f, v.value.id, args, s1, w1);
    }
  }

  lemma {:induction false} CallOnAgrees(strict: bool, p: Program, m1: Reading, m2: Reading, f: nat, obj: Value,
                                        name: Name,
                                        args: seq<Value>, s: State, w: State)
    requires Sound(strict, p) && Same(strict, s, w)
    ensures Alike(strict, CallOn(p, m1, f, obj, name, args, s), CallOn(p, m2, f, obj, name, args, w))
    decreases f, 2
  {
    hide CallUser;
    var s1, w1 := s.(trace := s.trace + [Called(name, s.pos)]), w.(trace := w.trace + [Called(name, w.pos)]);
    var id := p.ops.methodOf(obj, name, s.core);
    if id.Some? && id.value in p.funcs {
      CallUserAgrees(strict, p, m1, m2, f, id.value, [obj] + args, s1, w1);
    }
  }

  lemma {:induction false} CallUserAgrees(strict: bool, p: Program, m1: Reading, m2: Reading, f: nat, id: nat,
                                          args: seq<Value>,
                                          s: State, w: State)
    requires id in p.funcs && Sound(strict, p) && Same(strict, s, w)
    ensures Alike(strict, CallUser(p, m1, f, id, args, s), CallUser(p, m2, f, id, args, w))
    decreases f, 1
  {
    hide EvalStmts;
    match p.ops.bindArgs(id, args, s.core)
    case Refused(_) =>
    case Bound(frame, frozen) =>
      var inner := s.core.(frames := [frame], base := if s.core.base == [] then s.core.frames else s.core.base,
                           frozen := frozen, pure := p.funcs[id].pure);
      StmtsAgree(strict, p, m1, m2, f, p.funcs[id].body, s.(core := inner), w.(core := inner));
  }

  lemma {:induction false} WalkStmtsAgree(strict: bool, p: Program, m1: Reading, m2: Reading, f: nat, b: seq<Stmt>,
                                          last: Value,
                                          s: State, w: State)
    requires Sound(strict, p) && FitBlock(strict, b) && Same(strict, s, w)
    ensures Alike(strict, WalkStmts(p, m1, f, b, last, s), WalkStmts(p, m2, f, b, last, w))
    decreases f, 3, b, 1
  {
    hide WalkStmt;
    if b != [] {
      StmtAgrees(strict, p, m1, m2, f, b[0], s, w);
      var a, c := WalkStmt(p, m1, f, b[0], s), WalkStmt(p, m2, f, b[0], w);
      if a.out.Normal? { WalkStmtsAgree(strict, p, m1, m2, f, b[1..], a.out.v, a.st, c.st); }
    }
  }

  lemma {:induction false} StmtAgrees(strict: bool, p: Program, m1: Reading, m2: Reading, f: nat, t: Stmt, s: State,
                                      w: State)
    requires Sound(strict, p) && FitStmt(strict, t) && Same(strict, s, w)
    ensures Alike(strict, WalkStmt(p, m1, f, t, s), WalkStmt(p, m2, f, t, w))
    decreases f, 3, t, 3
  {
    hide StmtBody;
    BodyAgrees(strict, p, m1, m2, f, t, Enter(t.At(), s), Enter(t.At(), w));
  }

  lemma {:induction false} BodyAgrees(strict: bool, p: Program, m1: Reading, m2: Reading, f: nat, t: Stmt, s: State,
                                      w: State)
    requires Sound(strict, p) && FitStmt(strict, t) && Same(strict, s, w)
    ensures Alike(strict, StmtBody(p, m1, f, t, s), StmtBody(p, m2, f, t, w))
    decreases f, 3, t, 2
  {
    hide Eval, WalkReturn, WalkIf, WalkLet, WalkForEach, WalkAssign, WhileLoop;
    match t
    case ExprStmt(e, _) => EvalAgrees(strict, p, m1, m2, f, e, s, w);
    case Return(_, _) => ReturnAgrees(strict, p, m1, m2, f, t, s, w);
    case If(_, _, _, _) => IfAgrees(strict, p, m1, m2, f, t, s, w);
    case Let(_, _, _, _, _, _) => LetAgrees(strict, p, m1, m2, f, t, s, w);
    case While(cond, body, tag, _) => WhileAgrees(strict, p, m1, m2, f, cond, body, tag, s, w);
    case ForEach(_, _, _, _, _) => ForEachAgrees(strict, p, m1, m2, f, t, s, w);
    case Assign(_, _) => AssignAgrees(strict, p, m1, m2, f, t, s, w);
    case Leave(_, _, _) =>
    case OpaqueStmt(_, _) =>
  }

  lemma {:induction false} ReturnAgrees(strict: bool, p: Program, m1: Reading, m2: Reading, f: nat, t: Stmt, s: State,
                                        w: State)
    requires t.Return? && Sound(strict, p) && FitStmt(strict, t) && Same(strict, s, w)
    ensures Alike(strict, WalkReturn(p, m1, f, t, s), WalkReturn(p, m2, f, t, w))
    decreases f, 3, t, 1
  {
    hide Eval;
    if t.value.Some? { EvalAgrees(strict, p, m1, m2, f, t.value.value, s, w); }
  }

  lemma {:induction false} IfAgrees(strict: bool, p: Program, m1: Reading, m2: Reading, f: nat, t: Stmt, s: State,
                                    w: State)
    requires t.If? && Sound(strict, p) && FitStmt(strict, t) && Same(strict, s, w)
    ensures Alike(strict, WalkIf(p, m1, f, t, s), WalkIf(p, m2, f, t, w))
    decreases f, 3, t, 1
  {
    hide Eval, EvalStmts, WalkAlt;
    EvalAgrees(strict, p, m1, m2, f, t.cond, s, w);
    var a, b := Eval(p, m1, f, t.cond, s), Eval(p, m2, f, t.cond, w);
    if a.out.Normal? {
      StmtsAgree(strict, p, m1, m2, f, t.cons, a.st, b.st);
      AltAgrees(strict, p, m1, m2, f, t.alt, a.st, b.st);
    }
  }

  lemma {:induction false} LetAgrees(strict: bool, p: Program, m1: Reading, m2: Reading, f: nat, t: Stmt, s: State,
                                     w: State)
    requires t.Let? && Sound(strict, p) && FitStmt(strict, t) && Same(strict, s, w)
    ensures Alike(strict, WalkLet(p, m1, f, t, s), WalkLet(p, m2, f, t, w))
    decreases f, 3, t, 1
  {
    hide Eval;
    var a, b := Perform(p, LetPre(t.note, t.name), s), Perform(p, LetPre(t.note, t.name), w);
    if a.out.Normal? { EvalAgrees(strict, p, m1, m2, f, t.init, a.st, b.st); }
  }

  lemma {:induction false} AltAgrees(strict: bool, p: Program, m1: Reading, m2: Reading, f: nat, alt: Alt, s: State,
                                     w: State)
    requires Sound(strict, p) && FitAlt(strict, alt) && Same(strict, s, w)
    ensures Alike(strict, WalkAlt(p, m1, f, alt, s), WalkAlt(p, m2, f, alt, w))
    decreases f, 3, alt, 1
  {
    hide Eval, EvalStmts;
    match alt
    case NoAlt =>
    case Else(body) => StmtsAgree(strict, p, m1, m2, f, body, s, w);
    case Elif(cond, body, rest) =>
      EvalAgrees(strict, p, m1, m2, f, cond, s, w);
      var a, b := Eval(p, m1, f, cond, s), Eval(p, m2, f, cond, w);
      if a.out.Normal? {
        StmtsAgree(strict, p, m1, m2, f, body, a.st, b.st);
        AltAgrees(strict, p, m1, m2, f, rest, a.st, b.st);
      }
  }

  lemma {:induction false} WhileAgrees(strict: bool, p: Program, m1: Reading, m2: Reading, f: nat, cond: Expr,
                                       body: seq<Stmt>,
                                       tag: Option<Name>, s: State, w: State)
    requires Sound(strict, p) && FitExpr(strict, cond) && FitBlock(strict, body) && Same(strict, s, w)
    ensures Alike(strict, WhileLoop(p, m1, f, cond, body, tag, s), WhileLoop(p, m2, f, cond, body, tag, w))
    decreases f, 0
  {
    hide Eval, LoopTurn;
    if f != 0 {
      EvalAgrees(strict, p, m1, m2, f - 1, cond, s, w);
      var a, b := Eval(p, m1, f - 1, cond, s), Eval(p, m2, f - 1, cond, w);
      if a.out.Normal? && p.ops.truth(a.out.v) {
        TurnAgrees(strict, p, m1, m2, f - 1, body, tag, a.st, b.st);
        var c, d := LoopTurn(p, m1, f - 1, body, tag, a.st), LoopTurn(p, m2, f - 1, body, tag, b.st);
        if c.out.Normal? { WhileAgrees(strict, p, m1, m2, f - 1, cond, body, tag, c.st, d.st); }
      }
    }
  }

  lemma {:induction false} TurnAgrees(strict: bool, p: Program, m1: Reading, m2: Reading, f: nat, body: seq<Stmt>,
                                      tag: Option<Name>,
                                      s: State, w: State)
    requires Sound(strict, p) && FitBlock(strict, body) && Same(strict, s, w)
    ensures Alike(strict, LoopTurn(p, m1, f, body, tag, s), LoopTurn(p, m2, f, body, tag, w))
    decreases f, 1
  {
    hide EvalStmts;
    StmtsAgree(strict, p, m1, m2, f, body, PushLoop(s, tag), PushLoop(w, tag));
  }

  lemma {:induction false} SetupAgrees(strict: bool, p: Program, m1: Reading, m2: Reading, f: nat, name: Name,
                                       iterable: Expr, s: State, w: State)
    requires Sound(strict, p) && FitExpr(strict, iterable) && Same(strict, s, w)
    ensures Alike(strict, ForSetup(p, m1, f, name, iterable, s), ForSetup(p, m2, f, name, iterable, w))
    decreases f, 3, iterable, 2
  {
    hide Eval;
    EvalAgrees(strict, p, m1, m2, f, iterable, s, w);
    var a, b := Eval(p, m1, f, iterable, s), Eval(p, m2, f, iterable, w);
    if a.out.Normal? { PerformAgrees(strict, p, Iterate(a.out.v, name), a.st, b.st); }
  }

  lemma {:induction false} ForEachAgrees(strict: bool, p: Program, m1: Reading, m2: Reading, f: nat, t: Stmt, s: State,
                                         w: State)
    requires t.ForEach? && Sound(strict, p) && FitStmt(strict, t) && Same(strict, s, w)
    ensures Alike(strict, WalkForEach(p, m1, f, t, s), WalkForEach(p, m2, f, t, w))
    decreases f, 3, t, 1
  {
    hide ForSetup, ForTurns;
    SetupAgrees(strict, p, m1, m2, f, t.name, t.iterable, s, w);
    var a, b := ForSetup(p, m1, f, t.name, t.iterable, s), ForSetup(p, m2, f, t.name, t.iterable, w);
    if a.out.Normal? && a.out.v.ListV? {
      var h := a.out.v.h;
      var n := |ListOf(a.st.core, h)|;
      ForTurnsAgree(strict, p, m1, m2, f, t.name, t.body, t.tag, h, 0, n, a.st, b.st);
    }
  }

  lemma {:induction false} ForTurnsAgree(strict: bool, p: Program, m1: Reading, m2: Reading, f: nat, name: Name,
                                         body: seq<Stmt>,
                                         tag: Option<Name>, h: nat, idx: nat, n: nat, s: State, w: State)
    requires Sound(strict, p) && FitBlock(strict, body) && Same(strict, s, w)
    ensures Alike(strict, ForTurns(p, m1, f, name, body, tag, h, idx, n, s),
                  ForTurns(p, m2, f, name, body, tag, h, idx, n, w))
    decreases f, 2, if idx < n then n - idx else 0
  {
    hide LoopTurn;
    var e := CompiledElement(ListOf(s.core, h), idx);
    if idx < n && e.Normal? {
      var s1, w1 := Define(s, name, e.v), Define(w, name, e.v);
      TurnAgrees(strict, p, m1, m2, f, body, tag, s1, w1);
      var a, b := LoopTurn(p, m1, f, body, tag, s1), LoopTurn(p, m2, f, body, tag, w1);
      if a.out.Normal? { ForTurnsAgree(strict, p, m1, m2, f, name, body, tag, h, idx + 1, n, a.st, b.st); }
    }
  }

  lemma {:induction false} PreAgrees(strict: bool, p: Program, m1: Reading, m2: Reading, f: nat, target: Expr,
                                     s: State, w: State)
    requires Sound(strict, p) && FitExpr(strict, target) && Same(strict, s, w)
    ensures var a, b := AssignPre(p, m1, f, target, s), AssignPre(p, m2, f, target, w);
            a.out == b.out && a.vals == b.vals && Same(strict, a.st, b.st)
    decreases f, 3, target, 2
  {
    hide Eval;
    var s0, w0 := Enter(target.pos, s), Enter(target.pos, w);
    var a, b := Perform(p, CheckAssignable(target), s0), Perform(p, CheckAssignable(target), w0);
    if a.out.Normal? && (target.Attr? || target.Sub?) {
      EvalAgrees(strict, p, m1, m2, f, target.obj, a.st, b.st);
      var c, d := Eval(p, m1, f, target.obj, a.st), Eval(p, m2, f, target.obj, b.st);
      if c.out.Normal? && target.Sub? { EvalAgrees(strict, p, m1, m2, f, target.index, c.st, d.st); }
    }
  }

  lemma {:induction false} InPlaceAgrees(strict: bool, p: Program, m1: Reading, m2: Reading, f: nat, t: Stmt, s: State,
                                         w: State)
    requires t.Assign? && Sound(strict, p) && FitStmt(strict, t) && Same(strict, s, w)
    ensures Alike(strict, AssignInPlace(p, m1, f, t, s), AssignInPlace(p, m2, f, t, w))
    decreases f, 3, t, 0
  {
    hide Eval, PlaceSide;
    if PlaceSide(p, t).Some? {
      EvalAgrees(strict, p, m1, m2, f, t.target, s, w);
      var a, b := Eval(p, m1, f, t.target, s), Eval(p, m2, f, t.target, w);
      if a.out.Normal? {
        EvalAgrees(strict, p, m1, m2, f, if PlaceSide(p, t).value then t.rhs.right else t.rhs.left, a.st, b.st);
      }
    }
  }

  lemma {:induction false} AssignAgrees(strict: bool, p: Program, m1: Reading, m2: Reading, f: nat, t: Stmt, s: State,
                                        w: State)
    requires t.Assign? && Sound(strict, p) && FitStmt(strict, t) && Same(strict, s, w)
    ensures Alike(strict, WalkAssign(p, m1, f, t, s), WalkAssign(p, m2, f, t, w))
    decreases f, 3, t, 1
  {
    hide Eval, AssignPre, AssignInPlace;
    PreAgrees(strict, p, m1, m2, f, t.target, s, w);
    var a, b := AssignPre(p, m1, f, t.target, s), AssignPre(p, m2, f, t.target, w);
    if a.out.Normal? {
      InPlaceAgrees(strict, p, m1, m2, f, t, a.st, b.st);
      var c, d := AssignInPlace(p, m1, f, t, a.st), AssignInPlace(p, m2, f, t, b.st);
      if c.out.Normal? { EvalAgrees(strict, p, m1, m2, f, t.rhs, c.st, d.st); }
    }
  }

  /** `eval_stmts`, whichever way it runs. */
  lemma {:induction false} StmtsAgree(strict: bool, p: Program, m1: Reading, m2: Reading, f: nat, b: seq<Stmt>,
                                      s: State, w: State)
    requires Sound(strict, p) && FitBlock(strict, b) && Same(strict, s, w)
    ensures Alike(strict, EvalStmts(p, m1, f, b, s), EvalStmts(p, m2, f, b, w))
    decreases f, 0
  {
    hide WalkStmts, RunBlock;
    if f != 0 {
      if b != [] {
        BlockSimulates(strict, p, f - 1, b, s);
        BlockSimulates(strict, p, f - 1, b, w);
      }
      WalkStmtsAgree(strict, p, m1, m2, f - 1, b, NoneV, s, w);
    }
  }

  // ---- running emitted code ----------------------------------------------------

  /** Code run after code that ended so. */
  function After(p: Program, f: nat, ks: seq<Const>, m: MRun, cs: seq<Code>): MRun {
    if m.ctl.Next? then Exec(p, f, ks, cs, m.r, m.s) else m
  }

  lemma {:induction false} ExecAppend(p: Program, f: nat, ks: seq<Const>, cs: seq<Code>, ds: seq<Code>, r: Regs,
                                      s: State)
    ensures Exec(p, f, ks, cs + ds, r, s) == After(p, f, ks, Exec(p, f, ks, cs, r, s), ds)
    decreases |cs|
  {
    hide ExecOne;
    if cs == [] {
      assert cs + ds == ds;
    } else {
      assert (cs + ds)[1..] == cs[1..] + ds;
      var one := ExecOne(p, f, ks, cs[0], r, s);
      if one.ctl.Next? { ExecAppend(p, f, ks, cs[1..], ds, one.r, one.s); }
    }
  }

  lemma ExecSingle(p: Program, f: nat, ks: seq<Const>, c: Code, r: Regs, s: State)
    ensures Exec(p, f, ks, [c], r, s) == ExecOne(p, f, ks, c, r, s)
  {
    hide ExecOne;
    var one := ExecOne(p, f, ks, c, r, s);
    assert Exec(p, f, ks, [c][1..], one.r, one.s) == MRun(Next, one.r, one.s);
  }

  /** The last line of a run of code. */
  lemma ExecThen(p: Program, f: nat, ks: seq<Const>, cs: seq<Code>, c: Code, r: Regs, s: State)
    ensures var m := Exec(p, f, ks, cs, r, s);
            Exec(p, f, ks, cs + [c], r, s) == if m.ctl.Next? then ExecOne(p, f, ks, c, m.r, m.s) else m
  {
    hide Exec, ExecOne;
    ExecAppend(p, f, ks, cs, [c], r, s);
    var m := Exec(p, f, ks, cs, r, s);
    ExecSingle(p, f, ks, c, m.r, m.s);
  }

  lemma ExecPos(p: Program, f: nat, pos: Pos, k: seq<Const>, ks: seq<Const>, r: Regs, s: State)
    requires PosConst(pos, k) <= ks
    ensures Exec(p, f, ks, PosCode(pos, k), r, s) == MRun(Next, r, Enter(pos, s))
  {
    if !pos.NoPos? {
      hide Exec;
      ExecSingle(p, f, ks, Do(WritePos(|k|)), r, s);
    } else {
      assert Exec(p, f, ks, [], r, s) == MRun(Next, r, s);
    }
  }

  /** An operand that holds a value now. */
  predicate Holds(ks: seq<Const>, r: Regs, o: Operand, v: Value) {
    match o
    case K(i) => i < |ks| && ks[i] == CValue(v)
    case T(i) => Temp(r, i) == V(v)
  }

  predicate HoldAll(ks: seq<Const>, r: Regs, os: seq<Operand>, vs: seq<Value>) {
    |os| == |vs| && forall i :: 0 <= i < |os| ==> Holds(ks, r, os[i], vs[i])
  }

  lemma {:induction false} ReadAllHeld(ks: seq<Const>, r: Regs, os: seq<Operand>, vs: seq<Value>)
    requires HoldAll(ks, r, os, vs)
    ensures ReadAll(ks, r, os) == vs
  {
    if os != [] {
      assert Holds(ks, r, os[0], vs[0]);
      forall i | 0 <= i < |os[1..]| ensures Holds(ks, r, os[1..][i], vs[1..][i]) {
        assert Holds(ks, r, os[i + 1], vs[i + 1]);
      }
      ReadAllHeld(ks, r, os[1..], vs[1..]);
      assert vs == [vs[0]] + vs[1..];
    }
  }

  /** No temporary up to n is written, and no named local. */
  ghost predicate Untouched(r: Regs, q: Regs, n: nat) {
    q == q.(result := r.result, borrow := r.borrow, pre := r.pre, st := r.st, idx := r.idx) &&
    forall i: nat :: i <= n ==> Temp(q, i) == Temp(r, i)
  }

  lemma UntouchedTrans(r: Regs, q: Regs, q': Regs, n: nat, n': nat)
    requires Untouched(r, q, n) && Untouched(q, q', n') && n <= n'
    ensures Untouched(r, q', n)
  {}

  lemma HeldAfter(ks: seq<Const>, r: Regs, q: Regs, o: Operand, v: Value, n: nat)
    requires Holds(ks, r, o, v) && Untouched(r, q, n) && (o.T? ==> o.i <= n)
    ensures Holds(ks, q, o, v)
  {}

  /** Emitted code ends as the walk of its node does, its value in the
      operand; `blurred` code has not written where it stands. */
  ghost predicate Simulates(strict: bool, ks: seq<Const>, m: MRun, e: Run, o: Operand, r: Regs, n: nat, blurred: bool) {
    (if e.out.Normal? then m.ctl.Next? && Holds(ks, m.r, o, e.out.v) && Untouched(r, m.r, n)
     else m.ctl == Stop(e.out)) &&
    Close(strict, m.s, e.st) && ((blurred && e.out.Normal?) || Same(strict, m.s, e.st))
  }

  /** A step into a fresh temporary simulates the run it answers. */
  lemma ToTempSimulates(strict: bool, ks: seq<Const>, a: Run, b: Run, r: Regs, t: nat, r0: Regs, n: nat)
    requires Alike(strict, a, b) && Untouched(r0, r, n) && n < t
    ensures Simulates(strict, ks, ToTemp(a, r, t), b, T(t), r0, n, false)
  {}

  lemma PerformAgrees(strict: bool, p: Program, a: Act, s: State, w: State)
    requires Same(strict, s, w)
    ensures Alike(strict, Perform(p, a, s), Perform(p, a, w))
  {}

  lemma ApplyAgrees(strict: bool, p: Program, op: string, a: Value, b: Value, s: State, w: State)
    requires Same(strict, s, w)
    ensures Alike(strict, Apply(p, op, a, b, s), Apply(p, op, a, b, w))
  {}

  /** Emitted expressions compute what the evaluator does. */
  lemma {:induction false} ExprSimulates(strict: bool, p: Program, f: nat, e: Expr, k: seq<Const>, n: nat, obs: bool,
                                         ks: seq<Const>, r: Regs, s: State, w: State)
    requires Sound(strict, p) && FitExpr(strict, e) && Close(strict, s, w)
    requires GenExpr(p.table, e, k, n, obs).k <= ks
    ensures var g := GenExpr(p.table, e, k, n, obs);
            Simulates(strict, ks, Exec(p, f, ks, g.code, r, s), Eval(p, Compiled, f, e, w), g.out, r, n, e.Lit? && !obs)
    decreases f, 4, e, 1
  {
    hide Exec, ExecOne, GenLogic, GenBinOp, GenCall, GenMethod, GenAttr, GenSub;
    hide EvalBinOp, EvalLogic, EvalCall, EvalMethod, EvalAttr, EvalSub, ReadVar;
    EnterSame(strict, e.pos, s, w);
    if Fallback(e) {
      FallbackSimulates(strict, p, f, e, k, n, obs, ks, r, s, w);
    } else {
      match e
      case Lit(_, pos) =>
        if obs { ExecPos(p, f, pos, k + [CValue(IntV(e.n))], ks, r, s); }
        else { assert Exec(p, f, ks, [], r, s) == MRun(Next, r, s) by { ExecNothing(p, f, ks, r, s); } }
      case Var(_, _) => VarSimulates(strict, p, f, e, k, n, ks, r, s, w);
      case Logic(_, _, _, _) => LogicSimulates(strict, p, f, e, k, n, ks, r, s, w);
      case Bin(_, _, _, _) => BinOpSimulates(strict, p, f, e, k, n, ks, r, s, w);
      case Call(_, _, _) => CallSimulates(strict, p, f, e, k, n, ks, r, s, w);
      case Method(_, _, _, _) => MethodSimulates(strict, p, f, e, k, n, ks, r, s, w);
      case Attr(_, _, _) => AttrSimulates(strict, p, f, e, k, n, ks, r, s, w);
      case Sub(_, _, _, _) => SubSimulates(strict, p, f, e, k, n, ks, r, s, w);
    }
  }

  lemma ExecNothing(p: Program, f: nat, ks: seq<Const>, r: Regs, s: State)
    ensures Exec(p, f, ks, [], r, s) == MRun(Next, r, s)
  {}

  lemma {:induction false} FallbackSimulates(strict: bool, p: Program, f: nat, e: Expr, k: seq<Const>, n: nat,
                                             obs: bool,
                                             ks: seq<Const>, r: Regs, s: State, w: State)
    requires Fallback(e) && Sound(strict, p) && FitExpr(strict, e) && Close(strict, s, w)
    requires GenExpr(p.table, e, k, n, obs).k <= ks
    ensures var g := GenExpr(p.table, e, k, n, obs);
            Simulates(strict, ks, Exec(p, f, ks, g.code, r, s), Eval(p, Compiled, f, e, w), g.out, r, n, false)
    decreases f, 4, e, 0
  {
    hide Exec, Eval, StepName, StepValue, StepEnd, StepStmt, StepBlock;
    ExecSingle(p, f, ks, Do(EvalNode(n + 1, |k|)), r, s);
    assert ks[|k|] == (k + [CExpr(e)])[|k|];
    EvalAgrees(strict, p, Compiled, Compiled, f, e, s, w);
    ToTempSimulates(strict, ks, Eval(p, Compiled, f, e, s), Eval(p, Compiled, f, e, w), r, n + 1, r, n);
  }

  /** The innermost frame, where it holds the name, answers what `lookup` would. */
  lemma ProbeIsLookup(c: Core, x: Name)
    requires x in Innermost(c.frames)
    ensures Lookup(c, x) == Some(Innermost(c.frames)[x])
  {}

  lemma ExecFirst(p: Program, f: nat, ks: seq<Const>, c: Code, cs: seq<Code>, r: Regs, s: State)
    ensures var m := ExecOne(p, f, ks, c, r, s);
            Exec(p, f, ks, [c] + cs, r, s) == After(p, f, ks, m, cs)
  {
    hide ExecOne;
    assert ([c] + cs)[1..] == cs;
  }

  /** A name the innermost frame lacks: the purity question, then the lookup. */
  lemma MissingRuns(p: Program, f: nat, x: Name, t: nat, k: nat, ks: seq<Const>, r: Regs, s: State)
    requires k < |ks| && ks[k] == CName(x) && x !in Innermost(s.core.frames)
    ensures var m := Exec(p, f, ks, [Do(PureCheck(k)), Do(LookupName(t, k))], r, s);
            if ImpureToRead(p, x, s.core) then m == MRun(Stop(Failed(ImpureRead(x))), r, s)
            else match Lookup(s.core, x)
              case Some(v) => m == MRun(Next, SetTemp(r, t, V(v)), s)
              case None => if p.ops.typeName(x) then m == MRun(Next, SetTemp(r, t, V(TypeV(x))), s)
                           else m == MRun(Stop(Failed(Undefined(x))), r, s)
  {
    hide Exec, Lookup, ImpureToRead, StepValue, StepNode, StepEnd, StepStmt, StepBlock;
    assert [Do(PureCheck(k)), Do(LookupName(t, k))] == [Do(PureCheck(k))] + [Do(LookupName(t, k))];
    ExecFirst(p, f, ks, Do(PureCheck(k)), [Do(LookupName(t, k))], r, s);
    ExecSingle(p, f, ks, Do(LookupName(t, k)), r, s);
  }

  /** The two probes that come first, and what the temporary holds after them. */
  lemma ProbesRun(p: Program, f: nat, x: Name, t: nat, k: nat, ks: seq<Const>, cs: seq<Code>, r: Regs, s: State)
    requires k < |ks| && ks[k] == CName(x)
    ensures var e := FrozenRefusal(x, HeldAs(s.core, x));
            var frame := Innermost(s.core.frames);
            var r1 := SetTemp(r, t, Found(HeldAs(s.core, x)));
            Exec(p, f, ks, [Do(FrozenGet(t, k))] + ([Do(FrozenRefuse(t, k))] + ([Do(Probe(t, k))] + cs)), r, s)
            == if e.Some? then MRun(Stop(Failed(e.value)), r1, s)
               else Exec(p, f, ks, cs, SetTemp(r1, t, if x in frame then V(frame[x]) else Absent), s)
  {
    hide Exec, Innermost, StepValue, StepNode, StepEnd, StepStmt, StepBlock;
    var r1 := SetTemp(r, t, Found(HeldAs(s.core, x)));
    var c2 := [Do(Probe(t, k))] + cs;
    ExecFirst(p, f, ks, Do(FrozenGet(t, k)), [Do(FrozenRefuse(t, k))] + c2, r, s);
    ExecFirst(p, f, ks, Do(FrozenRefuse(t, k)), c2, r1, s);
    ExecFirst(p, f, ks, Do(Probe(t, k)), cs, r1, s);
  }

  /** The last two lines of a read, once the frame was probed. */
  lemma LoadRuns(strict: bool, p: Program, f: nat, x: Name, t: nat, k: nat, ks: seq<Const>, r0: Regs, r: Regs, n: nat,
                 s: State, w: State)
    requires Sound(strict, p) && Same(strict, s, w) && x != DISCARD_NAME && n < t && Untouched(r0, r, n)
    requires k < |ks| && ks[k] == CName(x) && FrozenRefusal(x, HeldAs(s.core, x)).None?
    requires var frame := Innermost(s.core.frames); Temp(r, t) == if x in frame then V(frame[x]) else Absent
    ensures Simulates(strict, ks,
              Exec(p, f, ks,
                   [IfElse(IsMissing(t), [Do(PureCheck(k)), Do(LookupName(t, k))], [])] + [Do(FollowRef(t))], r, s),
              ReadVar(p, x, w), T(t), r0, n, false)
  {
    hide Exec, Lookup, Innermost, FrozenRefusal, HeldAs, StepValue, StepNode, StepEnd, StepStmt, StepBlock;
    var look := [Do(PureCheck(k)), Do(LookupName(t, k))];
    ExecFirst(p, f, ks, IfElse(IsMissing(t), look, []), [Do(FollowRef(t))], r, s);
    if x in Innermost(s.core.frames) {
      ProbeIsLookup(s.core, x);
      ExecNothing(p, f, ks, r, s);
      ExecSingle(p, f, ks, Do(FollowRef(t)), r, s);
    } else {
      MissingRuns(p, f, x, t, k, ks, r, s);
      var m := Exec(p, f, ks, look, r, s);
      if m.ctl.Next? { ExecSingle(p, f, ks, Do(FollowRef(t)), m.r, m.s); }
    }
  }

  /** A read whose innermost frame was probed in line is `_ee_VarRef`. */
  lemma ReadSimulates(strict: bool, p: Program, f: nat, x: Name, t: nat, k: nat, ks: seq<Const>, r: Regs, n: nat,
                      s: State, w: State)
    requires Sound(strict, p) && Same(strict, s, w) && x != DISCARD_NAME && n < t
    requires k < |ks| && ks[k] == CName(x)
    ensures Simulates(strict, ks, Exec(p, f, ks, ReadCode(t, k), r, s), ReadVar(p, x, w), T(t), r, n, false)
  {
    hide Exec, Lookup, Innermost, HeldAs, StepName, StepValue, StepNode, StepEnd, StepStmt, StepBlock;
    var load := [IfElse(IsMissing(t), [Do(PureCheck(k)), Do(LookupName(t, k))], [])] + [Do(FollowRef(t))];
    assert ReadCode(t, k) == [Do(FrozenGet(t, k))] + ([Do(FrozenRefuse(t, k))] + ([Do(Probe(t, k))] + load));
    ProbesRun(p, f, x, t, k, ks, load, r, s);
    if FrozenRefusal(x, HeldAs(s.core, x)).None? {
      var frame := Innermost(s.core.frames);
      var r1 := SetTemp(SetTemp(r, t, Found(HeldAs(s.core, x))), t, if x in frame then V(frame[x]) else Absent);
      LoadRuns(strict, p, f, x, t, k, ks, r, r1, n, s, w);
    }
  }

  lemma {:induction false} VarSimulates(strict: bool, p: Program, f: nat, e: Expr, k: seq<Const>, n: nat,
                                        ks: seq<Const>, r: Regs, s: State, w: State)
    requires e.Var? && !Fallback(e) && Sound(strict, p) && FitExpr(strict, e) && Close(strict, s, w)
    requires GenExpr(p.table, e, k, n, true).k <= ks
    ensures var g := GenExpr(p.table, e, k, n, true);
            Simulates(strict, ks, Exec(p, f, ks, g.code, r, s), Eval(p, Compiled, f, e, w), g.out, r, n, false)
    decreases f, 4, e, 0
  {
    hide Exec, ReadVar, ReadCode, StepName, StepValue, StepNode, StepEnd, StepStmt, StepBlock;
    EnterSame(strict, e.pos, s, w);
    var k0 := PosConst(e.pos, k);
    assert ks[|k0|] == (k0 + [CName(e.name)])[|k0|];
    ExecAppend(p, f, ks, PosCode(e.pos, k), ReadCode(n + 1, |k0|), r, s);
    ExecPos(p, f, e.pos, k, ks, r, s);
    ReadSimulates(strict, p, f, e.name, n + 1, |k0|, ks, r, n, Enter(e.pos, s), Enter(e.pos, w));
  }

  function BinOpLine(table: set<string>, name: string, t: nat, k: nat, a: Operand, b: Operand): Code {
    Do(if name in table then IntOp(t, k + 1, k, a, b) else ApplyOp(t, k, a, b))
  }

  /** The operator's own line: its handler where both operands are plain
      integers and the table has one, `_apply_operator` otherwise. */
  lemma OperatorSimulates(strict: bool, p: Program, f: nat, name: string, oa: Operand, ob: Operand, t: nat,
                          k: seq<Const>,
                          ks: seq<Const>, r0: Regs, r: Regs, n: nat, a: Value, b: Value, s: State, w: State)
    requires Same(strict, s, w) && n < t && Untouched(r0, r, n) && Holds(ks, r, oa, a) && Holds(ks, r, ob, b)
    requires (k + [COp(name)]) + (if name in p.table then [CHandler(name)] else []) <= ks
    ensures var op := BinOpLine(p.table, name, t, |k|, oa, ob);
            Simulates(strict, ks, ExecOne(p, f, ks, op, r, s), Apply(p, name, a, b, w), T(t), r0, n, false)
  {
    hide ExecOne, Apply, ToTemp, BinOpLine;
    OperatorLine(p, f, name, oa, ob, t, k, ks, r, a, b, s);
    ApplyAgrees(strict, p, name, a, b, s, w);
    ToTempSimulates(strict, ks, Apply(p, name, a, b, s), Apply(p, name, a, b, w), r, t, r0, n);
  }

  lemma OperatorLine(p: Program, f: nat, name: string, oa: Operand, ob: Operand, t: nat, k: seq<Const>, ks: seq<Const>,
                     r: Regs, a: Value, b: Value, s: State)
    requires Holds(ks, r, oa, a) && Holds(ks, r, ob, b)
    requires (k + [COp(name)]) + (if name in p.table then [CHandler(name)] else []) <= ks
    ensures ExecOne(p, f, ks, BinOpLine(p.table, name, t, |k|, oa, ob), r, s) == ToTemp(Apply(p, name, a, b, s), r, t)
  {
    hide ToTemp, Perform, StepName, StepNode, StepEnd, StepStmt, StepBlock;
    var all := (k + [COp(name)]) + (if name in p.table then [CHandler(name)] else []);
    assert ks[|k|] == all[|k|] == COp(name);
    if name in p.table { assert ks[|k| + 1] == all[|k| + 1] == CHandler(name); }
  }

  /** An operator from its right operand on, the left one's value in hand. */
  lemma {:induction false} BinOpRight(strict: bool, p: Program, f: nat, e: Expr, a: Gen, ks: seq<Const>, r0: Regs,
                                      r: Regs, n: nat,
                                      s: State, left: Value, w: State)
    requires e.Bin? && Sound(strict, p) && FitExpr(strict, e) && Close(strict, s, w)
    requires Untouched(r0, r, n) && n <= a.n && Holds(ks, r, a.out, left) && (a.out.T? ==> a.out.i <= a.n)
    requires var b := GenExpr(p.table, e.right, a.k, a.n, false);
             var k0 := PosConst(e.pos, b.k);
             (k0 + [COp(e.op)]) + (if e.op in p.table then [CHandler(e.op)] else []) <= ks
    ensures var b := GenExpr(p.table, e.right, a.k, a.n, false);
            var k0 := PosConst(e.pos, b.k);
            var op := BinOpLine(p.table, e.op, b.n + 1, |k0|, a.out, b.out);
            var eb := Eval(p, Compiled, f, e.right, w);
            Simulates(strict, ks, Exec(p, f, ks, b.code + PosCode(e.pos, b.k) + [op], r, s),
              if eb.out.Normal? then Apply(p, e.op, left, eb.out.v, Enter(e.pos, eb.st)) else eb,
              T(b.n + 1), r0, n, false)
    decreases f, 4, e, 0, 0
  {
    hide Exec, Eval, GenExpr, Apply, StepName, StepValue, StepNode, StepEnd, StepStmt, StepBlock;
    var b := GenExpr(p.table, e.right, a.k, a.n, false);
    var k0 := PosConst(e.pos, b.k);
    var op := BinOpLine(p.table, e.op, b.n + 1, |k0|, a.out, b.out);
    ExecThen(p, f, ks, b.code + PosCode(e.pos, b.k), op, r, s);
    ExecAppend(p, f, ks, b.code, PosCode(e.pos, b.k), r, s);
    ExprSimulates(strict, p, f, e.right, a.k, a.n, false, ks, r, s, w);
    var mb, eb := Exec(p, f, ks, b.code, r, s), Eval(p, Compiled, f, e.right, w);
    if eb.out.Normal? {
      HeldAfter(ks, r, mb.r, a.out, left, a.n);
      UntouchedTrans(r0, r, mb.r, n, a.n);
      ExecPos(p, f, e.pos, b.k, ks, mb.r, mb.s);
      EnterSame(strict, e.pos, mb.s, eb.st);
      OperatorSimulates(strict, p, f, e.op, a.out, b.out, b.n + 1, k0, ks, r0, mb.r, n, left, eb.out.v,
                        Enter(e.pos, mb.s), Enter(e.pos, eb.st));
    }
  }

  lemma {:induction false} BinOpSimulates(strict: bool, p: Program, f: nat, e: Expr, k: seq<Const>, n: nat,
                                        ks: seq<Const>, r: Regs, s: State, w: State)
    requires e.Bin? && Sound(strict, p) && FitExpr(strict, e) && Close(strict, s, w)
    requires GenBinOp(p.table, e, k, n).k <= ks
    ensures var g := GenBinOp(p.table, e, k, n);
            Simulates(strict, ks, Exec(p, f, ks, g.code, r, s),
                      EvalBinOp(p, Compiled, f, e, Enter(e.pos, w)), g.out, r, n, false)
    decreases f, 4, e, 0
  {
    hide Exec, Eval, GenExpr, Apply, StepName, StepValue, StepNode, StepEnd, StepStmt, StepBlock;
    EnterSame(strict, e.pos, s, w);
    var s0, w0 := Enter(e.pos, s), Enter(e.pos, w);
    var a := GenExpr(p.table, e.left, PosConst(e.pos, k), n, false);
    var b := GenExpr(p.table, e.right, a.k, a.n, false);
    var k0 := PosConst(e.pos, b.k);
    var op := BinOpLine(p.table, e.op, b.n + 1, |k0|, a.out, b.out);
    var c1 := PosCode(e.pos, k);
    var tail := b.code + PosCode(e.pos, b.k) + [op];
    assert GenBinOp(p.table, e, k, n).code == c1 + a.code + tail;
    ExecAppend(p, f, ks, c1 + a.code, tail, r, s);
    ExecAppend(p, f, ks, c1, a.code, r, s);
    ExecPos(p, f, e.pos, k, ks, r, s);
    ExprSimulates(strict, p, f, e.left, PosConst(e.pos, k), n, false, ks, r, s0, w0);
    var ma, ea := Exec(p, f, ks, a.code, r, s0), Eval(p, Compiled, f, e.left, w0);
    if ea.out.Normal? {
      BinOpRight(strict, p, f, e, a, ks, r, ma.r, n, ma.s, ea.out.v, ea.st);
    }
  }

  /** After the left operand the two stand in the same place: a literal there
      wrote nothing, and its own position is the operator's. */
  lemma LiteralLeftSame(strict: bool, p: Program, f: nat, e: Expr, k: seq<Const>, n: nat, ks: seq<Const>, r: Regs,
                        s: State, w: State)
    requires e.Logic? && e.left.Lit? && FitExpr(strict, e) && Same(strict, s, w)
    requires strict ==> s.pos == e.pos
    ensures var a := GenExpr(p.table, e.left, k, n, false);
            Same(strict, Exec(p, f, ks, a.code, r, s).s, Eval(p, Compiled, f, e.left, w).st)
  {
    hide Exec;
    ExecNothing(p, f, ks, r, s);
  }

  /** The right operand, read only where the left did not answer. */
  lemma {:induction false} RightSimulates(strict: bool, p: Program, f: nat, e: Expr, b: Gen, k: seq<Const>, t: nat,
                                          ks: seq<Const>, r0: Regs, r: Regs, n: nat, s: State, w: State)
    requires e.Logic? && Sound(strict, p) && FitExpr(strict, e) && Close(strict, s, w)
    requires b == GenExpr(p.table, e.right, k, t, false) && PosConst(e.pos, b.k) <= ks && n < t && Untouched(r0, r, n)
    ensures var eb := Eval(p, Compiled, f, e.right, w);
            Simulates(strict, ks, Exec(p, f, ks, b.code + PosCode(e.pos, b.k) + [Do(MkLogic(t, b.out))], r, s),
                      if eb.out.Normal? then Run(LogicBool(p, eb.out.v), Enter(e.pos, eb.st)) else eb,
                      T(t), r0, n, false)
    decreases f, 4, e, 0, 0
  {
    hide Exec, Eval, GenExpr, LogicBool, StepName, StepNode, StepEnd, StepStmt, StepBlock;
    ExecThen(p, f, ks, b.code + PosCode(e.pos, b.k), Do(MkLogic(t, b.out)), r, s);
    ExecAppend(p, f, ks, b.code, PosCode(e.pos, b.k), r, s);
    ExprSimulates(strict, p, f, e.right, k, t, false, ks, r, s, w);
    var mb, eb := Exec(p, f, ks, b.code, r, s), Eval(p, Compiled, f, e.right, w);
    if eb.out.Normal? {
      ExecPos(p, f, e.pos, b.k, ks, mb.r, mb.s);
      EnterSame(strict, e.pos, mb.s, eb.st);
      UntouchedTrans(r0, r, mb.r, n, t);
      ToTempSimulates(strict, ks, Run(LogicBool(p, eb.out.v), Enter(e.pos, mb.s)),
                      Run(LogicBool(p, eb.out.v), Enter(e.pos, eb.st)), mb.r, t, r0, n);
    }
  }

  /** A short circuit once its left operand is a value. */
  lemma {:induction false} LogicRest(strict: bool, p: Program, f: nat, e: Expr, a: Gen, ks: seq<Const>, r0: Regs,
                                     r: Regs, n: nat,
                                     s: State, left: Value, w: State)
    requires e.Logic? && Sound(strict, p) && FitExpr(strict, e) && Same(strict, s, w)
    requires Untouched(r0, r, n) && n <= a.n && Holds(ks, r, a.out, left)
    requires PosConst(e.pos, GenExpr(p.table, e.right, a.k, a.n + 1, false).k) <= ks
    ensures var t := a.n + 1;
            var b := GenExpr(p.table, e.right, a.k, t, false);
            var eb := Eval(p, Compiled, f, e.right, w);
            var truth := LogicBool(p, left);
            Simulates(strict, ks,
              Exec(p, f, ks, [Do(TruthOf(t, a.out))]
                   + [IfElse(if e.isAnd then IsFalse(t) else IsTrue(t), [Do(SetBool(t, !e.isAnd))],
                             b.code + PosCode(e.pos, b.k) + [Do(MkLogic(t, b.out))])], r, s),
              if truth.Failed? || truth.v == BoolV(!e.isAnd) then Run(truth, w)
              else if eb.out.Normal? then Run(LogicBool(p, eb.out.v), Enter(e.pos, eb.st)) else eb, T(t), r0, n, false)
    decreases f, 4, e, 0, 1
  {
    hide Exec, ExecOne, Eval, GenExpr, LogicBool;
    var t := a.n + 1;
    var b := GenExpr(p.table, e.right, a.k, t, false);
    var right := b.code + PosCode(e.pos, b.k) + [Do(MkLogic(t, b.out))];
    var choose := IfElse(if e.isAnd then IsFalse(t) else IsTrue(t), [Do(SetBool(t, !e.isAnd))], right);
    ExecFirst(p, f, ks, Do(TruthOf(t, a.out)), [choose], r, s);
    TruthRuns(p, f, ks, t, a.out, left, r, s);
    var truth := LogicBool(p, left);
    if truth.Normal? {
      var r1 := SetTemp(r, t, Flag(truth.v.b));
      ExecSingle(p, f, ks, choose, r1, s);
      ChoiceRuns(p, f, ks, e.isAnd, t, right, r1, s);
      if truth.v != BoolV(!e.isAnd) {
        RightSimulates(strict, p, f, e, b, a.k, t, ks, r0, r1, n, s, w);
      }
    }
  }

  lemma TruthRuns(p: Program, f: nat, ks: seq<Const>, t: nat, o: Operand, v: Value, r: Regs, s: State)
    requires Holds(ks, r, o, v)
    ensures var truth := LogicBool(p, v);
            if truth.Normal? then
              truth.v.BoolV? &&
              ExecOne(p, f, ks, Do(TruthOf(t, o)), r, s) == MRun(Next, SetTemp(r, t, Flag(truth.v.b)), s)
            else truth.Failed? && ExecOne(p, f, ks, Do(TruthOf(t, o)), r, s) == MRun(Stop(truth), r, s)
  {
    hide StepName, StepNode, StepEnd, StepStmt, StepBlock;
  }

  /** The test of a short circuit: the right side's lines run only where the
      left truth value does not settle the answer. */
  lemma ChoiceRuns(p: Program, f: nat, ks: seq<Const>, isAnd: bool, t: nat, right: seq<Code>, r: Regs, s: State)
    requires Temp(r, t).Flag?
    ensures ExecOne(p, f, ks, IfElse(if isAnd then IsFalse(t) else IsTrue(t), [Do(SetBool(t, !isAnd))], right), r, s)
            == if Temp(r, t).truth == isAnd then Exec(p, f, ks, right, r, s)
               else MRun(Next, SetTemp(r, t, V(BoolV(!isAnd))), s)
  {
    hide Exec, StepName, StepNode, StepEnd, StepStmt, StepBlock;
    ExecSingle(p, f, ks, Do(SetBool(t, !isAnd)), r, s);
  }

  lemma {:induction false} LogicSimulates(strict: bool, p: Program, f: nat, e: Expr, k: seq<Const>, n: nat,
                                        ks: seq<Const>, r: Regs, s: State, w: State)
    requires e.Logic? && Sound(strict, p) && FitExpr(strict, e) && Close(strict, s, w)
    requires GenLogic(p.table, e, k, n).k <= ks
    ensures var g := GenLogic(p.table, e, k, n);
            Simulates(strict, ks, Exec(p, f, ks, g.code, r, s),
                      EvalLogic(p, Compiled, f, e, Enter(e.pos, w)), g.out, r, n, false)
    decreases f, 4, e, 0
  {
    hide Exec, Eval, GenExpr, LogicBool, StepName, StepValue, StepNode, StepEnd, StepStmt, StepBlock;
    EnterSame(strict, e.pos, s, w);
    var s0, w0 := Enter(e.pos, s), Enter(e.pos, w);
    var a := GenExpr(p.table, e.left, PosConst(e.pos, k), n, false);
    var t := a.n + 1;
    var b := GenExpr(p.table, e.right, a.k, t, false);
    var c1 := PosCode(e.pos, k);
    var choose := IfElse(if e.isAnd then IsFalse(t) else IsTrue(t), [Do(SetBool(t, !e.isAnd))],
                         b.code + PosCode(e.pos, b.k) + [Do(MkLogic(t, b.out))]);
    var tail := [Do(TruthOf(t, a.out))] + [choose];
    assert GenLogic(p.table, e, k, n).code == c1 + a.code + tail;
    ExecAppend(p, f, ks, c1 + a.code, tail, r, s);
    ExecAppend(p, f, ks, c1, a.code, r, s);
    ExecPos(p, f, e.pos, k, ks, r, s);
    ExprSimulates(strict, p, f, e.left, PosConst(e.pos, k), n, false, ks, r, s0, w0);
    var ma, ea := Exec(p, f, ks, a.code, r, s0), Eval(p, Compiled, f, e.left, w0);
    if ea.out.Normal? {
      if e.left.Lit? { LiteralLeftSame(strict, p, f, e, PosConst(e.pos, k), n, ks, r, s0, w0); }
      LogicRest(strict, p, f, e, a, ks, r, ma.r, n, ma.s, ea.out.v, ea.st);
    }
  }

  /** The arguments of a call, left to right, each in an operand that still
      holds it when the last is in. */
  lemma {:induction false} ArgsSimulate(strict: bool, p: Program, f: nat, args: seq<Expr>, k: seq<Const>, n: nat,
                                        ks: seq<Const>, r: Regs, s: State, w: State)
    requires Sound(strict, p) && FitArgs(strict, args) && Close(strict, s, w) && (args == [] ==> Same(strict, s, w))
    requires GenArgs(p.table, args, k, n).k <= ks
    ensures var g, e := GenArgs(p.table, args, k, n), EvalArgs(p, Compiled, f, args, w);
            var m := Exec(p, f, ks, g.code, r, s);
            Same(strict, m.s, e.st) &&
            if e.out.Normal? then m.ctl.Next? && HoldAll(ks, m.r, g.outs, e.vals) && Untouched(r, m.r, n)
            else m.ctl == Stop(e.out)
    decreases f, 4, args, 0
  {
    hide Exec, Eval, GenExpr, StepName, StepValue, StepNode, StepEnd, StepStmt, StepBlock;
    if args == [] {
      ExecNothing(p, f, ks, r, s);
    } else {
      var a := GenExpr(p.table, args[0], k, n, |args| == 1);
      var rest := GenArgs(p.table, args[1..], a.k, a.n);
      ExecAppend(p, f, ks, a.code, rest.code, r, s);
      ExprSimulates(strict, p, f, args[0], k, n, |args| == 1, ks, r, s, w);
      var ma, ea := Exec(p, f, ks, a.code, r, s), Eval(p, Compiled, f, args[0], w);
      if ea.out.Normal? {
        ArgsSimulate(strict, p, f, args[1..], a.k, a.n, ks, ma.r, ma.s, ea.st);
        var mr, er := Exec(p, f, ks, rest.code, ma.r, ma.s), EvalArgs(p, Compiled, f, args[1..], ea.st);
        if er.out.Normal? {
          HeldAfter(ks, ma.r, mr.r, a.out, ea.out.v, a.n);
          UntouchedTrans(r, ma.r, mr.r, n, a.n);
        }
      }
    }
  }

  lemma {:induction false} CallSimulates(strict: bool, p: Program, f: nat, e: Expr, k: seq<Const>, n: nat,
                                        ks: seq<Const>, r: Regs, s: State, w: State)
    requires e.Call? && Sound(strict, p) && FitExpr(strict, e) && Close(strict, s, w)
    requires GenCall(p.table, e, k, n).k <= ks
    ensures var g := GenCall(p.table, e, k, n);
            Simulates(strict, ks, Exec(p, f, ks, g.code, r, s),
                      EvalCall(p, Compiled, f, e, Enter(e.pos, w)), g.out, r, n, false)
    decreases f, 4, e, 0
  {
    hide Exec, EvalArgs, GenArgs, CallByName, StepName, StepValue, StepEnd, StepStmt, StepBlock;
    EnterSame(strict, e.pos, s, w);
    var s0, w0 := Enter(e.pos, s), Enter(e.pos, w);
    var a := GenArgs(p.table, e.args, PosConst(e.pos, k), n);
    var c1 := PosCode(e.pos, k);
    ExecThen(p, f, ks, c1 + a.code, Do(CallNode(a.n + 1, |a.k|, a.outs)), r, s);
    ExecAppend(p, f, ks, c1, a.code, r, s);
    ExecPos(p, f, e.pos, k, ks, r, s);
    ArgsSimulate(strict, p, f, e.args, PosConst(e.pos, k), n, ks, r, s0, w0);
    var ma, ea := Exec(p, f, ks, a.code, r, s0), EvalArgs(p, Compiled, f, e.args, w0);
    if ea.out.Normal? {
      assert ks[|a.k|] == (a.k + [CExpr(e)])[|a.k|];
      ReadAllHeld(ks, ma.r, a.outs, ea.vals);
      CallByNameAgrees(strict, p, Compiled, Compiled, f, e.name, ea.vals, ma.s, ea.st);
      ToTempSimulates(strict, ks, CallByName(p, Compiled, f, e.name, ea.vals, ma.s),
                      CallByName(p, Compiled, f, e.name, ea.vals, ea.st), ma.r, a.n + 1, r, n);
    }
  }

  lemma MethodLine(p: Program, f: nat, e: Expr, t: nat, k: nat, o: Operand, os: seq<Operand>, obj: Value,
                   vs: seq<Value>,
                   ks: seq<Const>, r: Regs, s: State)
    requires e.Method? && k < |ks| && ks[k] == CExpr(e) && Holds(ks, r, o, obj) && HoldAll(ks, r, os, vs)
    ensures ExecOne(p, f, ks, Do(MethodNode(t, k, o, os)), r, s)
            == ToTemp(CallOn(p, Compiled, f, obj, e.name, vs, s), r, t)
  {
    hide CallOn, ToTemp, StepName, StepValue, StepEnd, StepStmt, StepBlock;
    ReadAllHeld(ks, r, os, vs);
  }

  /** A method call from its arguments on, the receiver in hand. */
  lemma {:induction false} MethodArgs(strict: bool, p: Program, f: nat, e: Expr, o: Gen, ks: seq<Const>, r0: Regs,
                                      r: Regs, n: nat,
                                      s: State, obj: Value, w: State)
    requires e.Method? && Sound(strict, p) && FitExpr(strict, e) && Close(strict, s, w)
    requires (e.args == [] ==> Same(strict, s, w))
    requires Untouched(r0, r, n) && n <= o.n && Holds(ks, r, o.out, obj) && (o.out.T? ==> o.out.i <= o.n)
    requires GenArgs(p.table, e.args, o.k, o.n).k + [CExpr(e)] <= ks
    ensures var a := GenArgs(p.table, e.args, o.k, o.n);
            var ea := EvalArgs(p, Compiled, f, e.args, w);
            Simulates(strict, ks, Exec(p, f, ks, a.code + [Do(MethodNode(a.n + 1, |a.k|, o.out, a.outs))], r, s),
              if ea.out.Normal? then CallOn(p, Compiled, f, obj, e.name, ea.vals, ea.st) else Run(ea.out, ea.st),
              T(a.n + 1), r0, n, false)
    decreases f, 4, e, 0, 0
  {
    hide Exec, ExecOne, EvalArgs, GenArgs, CallOn;
    var a := GenArgs(p.table, e.args, o.k, o.n);
    ExecThen(p, f, ks, a.code, Do(MethodNode(a.n + 1, |a.k|, o.out, a.outs)), r, s);
    ArgsSimulate(strict, p, f, e.args, o.k, o.n, ks, r, s, w);
    var ma, ea := Exec(p, f, ks, a.code, r, s), EvalArgs(p, Compiled, f, e.args, w);
    if ea.out.Normal? {
      assert ks[|a.k|] == (a.k + [CExpr(e)])[|a.k|];
      HeldAfter(ks, r, ma.r, o.out, obj, o.n);
      UntouchedTrans(r0, r, ma.r, n, o.n);
      MethodLine(p, f, e, a.n + 1, |a.k|, o.out, a.outs, obj, ea.vals, ks, ma.r, ma.s);
      CallOnAgrees(strict, p, Compiled, Compiled, f, obj, e.name, ea.vals, ma.s, ea.st);
      ToTempSimulates(strict, ks, CallOn(p, Compiled, f, obj, e.name, ea.vals, ma.s),
                      CallOn(p, Compiled, f, obj, e.name, ea.vals, ea.st), ma.r, a.n + 1, r0, n);
    }
  }

  lemma PreMethodLine(p: Program, f: nat, e: Expr, k: nat, ks: seq<Const>, r: Regs, s: State)
    requires k < |ks| && ks[k] == CExpr(e)
    ensures var c := Perform(p, CheckMutating(e), Enter(e.pos, s));
            ExecOne(p, f, ks, Do(PreMethod(k)), r, s)
            == if c.out.Normal? then MRun(Next, r, c.st) else MRun(Stop(c.out), r, c.st)
  {
    hide Perform, StepName, StepValue, StepEnd, StepStmt, StepBlock;
  }

  lemma {:induction false} MethodSimulates(strict: bool, p: Program, f: nat, e: Expr, k: seq<Const>, n: nat,
                                        ks: seq<Const>, r: Regs, s: State, w: State)
    requires e.Method? && Sound(strict, p) && FitExpr(strict, e) && Close(strict, s, w)
    requires GenMethod(p.table, e, k, n).k <= ks
    ensures var g := GenMethod(p.table, e, k, n);
            Simulates(strict, ks, Exec(p, f, ks, g.code, r, s),
                      EvalMethod(p, Compiled, f, e, Enter(e.pos, w)), g.out, r, n, false)
    decreases f, 4, e, 0
  {
    hide Exec, ExecOne, Eval, EvalArgs, GenExpr, GenArgs, CallOn, Nothing;
    EnterSame(strict, e.pos, s, w);
    var s0, w0 := Enter(e.pos, s), Enter(e.pos, w);
    var o := GenExpr(p.table, e.obj, k + [CExpr(e)], n, e.args == []);
    var a := GenArgs(p.table, e.args, o.k, o.n);
    var pre := [Do(PreMethod(|k|))];
    var tail := a.code + [Do(MethodNode(a.n + 1, |a.k|, o.out, a.outs))];
    assert GenMethod(p.table, e, k, n).code == pre + o.code + tail;
    ExecAppend(p, f, ks, pre + o.code, tail, r, s);
    ExecAppend(p, f, ks, pre, o.code, r, s);
    ExecSingle(p, f, ks, pre[0], r, s);
    assert ks[|k|] == (k + [CExpr(e)])[|k|];
    PreMethodLine(p, f, e, |k|, ks, r, s);
    var c, d := Perform(p, CheckMutating(e), s0), Perform(p, CheckMutating(e), w0);
    if d.out.Normal? {
      ExprSimulates(strict, p, f, e.obj, k + [CExpr(e)], n, e.args == [], ks, r, c.st, d.st);
      var mo, eo := Exec(p, f, ks, o.code, r, c.st), Eval(p, Compiled, f, e.obj, d.st);
      if eo.out.Normal? {
        MethodArgs(strict, p, f, e, o, ks, r, mo.r, n, mo.s, eo.out.v, eo.st);
      }
    }
  }

  lemma {:induction false} AttrSimulates(strict: bool, p: Program, f: nat, e: Expr, k: seq<Const>, n: nat,
                                        ks: seq<Const>, r: Regs, s: State, w: State)
    requires e.Attr? && Sound(strict, p) && FitExpr(strict, e) && Close(strict, s, w)
    requires GenAttr(p.table, e, k, n).k <= ks
    ensures var g := GenAttr(p.table, e, k, n);
            Simulates(strict, ks, Exec(p, f, ks, g.code, r, s),
                      EvalAttr(p, Compiled, f, e, Enter(e.pos, w)), g.out, r, n, false)
    decreases f, 4, e, 0
  {
    hide Exec, Eval, GenExpr, Perform, ToTemp, StepName, StepValue, StepEnd, StepStmt, StepBlock;
    EnterSame(strict, e.pos, s, w);
    var s0, w0 := Enter(e.pos, s), Enter(e.pos, w);
    var o := GenExpr(p.table, e.obj, PosConst(e.pos, k), n, true);
    var c1 := PosCode(e.pos, k);
    ExecThen(p, f, ks, c1 + o.code, Do(AttrNode(o.n + 1, |o.k|, o.out)), r, s);
    ExecAppend(p, f, ks, c1, o.code, r, s);
    ExecPos(p, f, e.pos, k, ks, r, s);
    ExprSimulates(strict, p, f, e.obj, PosConst(e.pos, k), n, true, ks, r, s0, w0);
    var mo, eo := Exec(p, f, ks, o.code, r, s0), Eval(p, Compiled, f, e.obj, w0);
    if eo.out.Normal? {
      assert ks[|o.k|] == (o.k + [CExpr(e)])[|o.k|];
      var act := GetAttr(eo.out.v, e.name);
      PerformAgrees(strict, p, act, mo.s, eo.st);
      ToTempSimulates(strict, ks, Perform(p, act, mo.s), Perform(p, act, eo.st), mo.r, o.n + 1, r, n);
    }
  }

  /** A subscript from its index on, the container in hand. */
  lemma {:induction false} IndexRight(strict: bool, p: Program, f: nat, e: Expr, o: Gen, t: nat, ks: seq<Const>,
                                      r0: Regs, r: Regs, n: nat,
                                      s: State, obj: Value, w: State)
    requires e.Sub? && Sound(strict, p) && FitExpr(strict, e) && Close(strict, s, w)
    requires Untouched(r0, r, n) && n < t && n <= o.n && Holds(ks, r, o.out, obj) && o.out.T? && o.out.i <= o.n
    requires GenExpr(p.table, e.index, o.k, o.n, true).k <= ks
    ensures var i := GenExpr(p.table, e.index, o.k, o.n, true);
            var ei := Eval(p, Compiled, f, e.index, w);
            Simulates(strict, ks, Exec(p, f, ks, i.code + [Do(SubIndex(t, o.out, i.out))], r, s),
              if ei.out.Normal? then Perform(p, AtIndex(obj, ei.out.v), ei.st) else ei, T(t), r0, n, false)
    decreases f, 4, e, 0, 0
  {
    hide Exec, Eval, GenExpr, StepName, StepValue, StepEnd, StepStmt, StepBlock;
    var i := GenExpr(p.table, e.index, o.k, o.n, true);
    ExecThen(p, f, ks, i.code, Do(SubIndex(t, o.out, i.out)), r, s);
    ExprSimulates(strict, p, f, e.index, o.k, o.n, true, ks, r, s, w);
    var mi, ei := Exec(p, f, ks, i.code, r, s), Eval(p, Compiled, f, e.index, w);
    if ei.out.Normal? {
      HeldAfter(ks, r, mi.r, o.out, obj, o.n);
      UntouchedTrans(r0, r, mi.r, n, o.n);
      var act := AtIndex(obj, ei.out.v);
      ToTempSimulates(strict, ks, Perform(p, act, mi.s), Perform(p, act, ei.st), mi.r, t, r0, n);
    }
  }

  /** What stands under `if t is None:` in a subscript: container, check, index, element. */
  lemma {:induction false} IndexSimulates(strict: bool, p: Program, f: nat, e: Expr, k: seq<Const>, t: nat, n: nat,
                                          ks: seq<Const>, r0: Regs, r: Regs, s: State, w: State)
    requires e.Sub? && e.spells.None? && Sound(strict, p) && FitExpr(strict, e) && Same(strict, s, w)
    requires n < t && Untouched(r0, r, n)
    requires var o := GenExpr(p.table, e.obj, k, t, false); GenExpr(p.table, e.index, o.k, o.n, true).k <= ks
    ensures var o := GenExpr(p.table, e.obj, k, t, false);
            var i := GenExpr(p.table, e.index, o.k, o.n, true);
            Simulates(strict, ks,
              Exec(p, f, ks, o.code + [Do(SubBefore(o.out))] + i.code + [Do(SubIndex(t, o.out, i.out))], r, s),
              EvalSub(p, Compiled, f, e, w), T(t), r0, n, false)
    decreases f, 4, e, 0, 1
  {
    hide Exec, Eval, GenExpr, StepName, StepValue, StepEnd, StepStmt, StepBlock;
    var o := GenExpr(p.table, e.obj, k, t, false);
    var i := GenExpr(p.table, e.index, o.k, o.n, true);
    var before := Do(SubBefore(o.out));
    var tail := i.code + [Do(SubIndex(t, o.out, i.out))];
    assert o.code + [before] + i.code + [Do(SubIndex(t, o.out, i.out))] == o.code + [before] + tail;
    ExecAppend(p, f, ks, o.code + [before], tail, r, s);
    ExecThen(p, f, ks, o.code, before, r, s);
    ExprSimulates(strict, p, f, e.obj, k, t, false, ks, r, s, w);
    var mo, eo := Exec(p, f, ks, o.code, r, s), Eval(p, Compiled, f, e.obj, w);
    if eo.out.Normal? {
      var c, d := Perform(p, BeforeIndex(eo.out.v), mo.s), Perform(p, BeforeIndex(eo.out.v), eo.st);
      if d.out.Normal? {
        UntouchedTrans(r0, r, mo.r, n, t);
        IndexRight(strict, p, f, e, o, t, ks, r0, SetTemp(mo.r, o.out.i, V(d.out.v)), n, c.st, d.out.v, d.st);
      }
    }
  }

  lemma SpelledSub(p: Program, f: nat, e: Expr, w: State)
    requires e.Sub? && e.spells.Some?
    ensures EvalSub(p, Compiled, f, e, w) == Run(Normal(TypeV(e.spells.value)), w)
  {}

  lemma {:induction false} SubSimulates(strict: bool, p: Program, f: nat, e: Expr, k: seq<Const>, n: nat,
                                        ks: seq<Const>, r: Regs, s: State, w: State)
    requires e.Sub? && Sound(strict, p) && FitExpr(strict, e) && Close(strict, s, w)
    requires GenSub(p.table, e, k, n).k <= ks
    ensures var g := GenSub(p.table, e, k, n);
            Simulates(strict, ks, Exec(p, f, ks, g.code, r, s),
                      EvalSub(p, Compiled, f, e, Enter(e.pos, w)), g.out, r, n, false)
    decreases f, 4, e, 0
  {
    hide Exec, GenExpr, EvalSub, StepName, StepValue, StepEnd, StepStmt, StepBlock;
    EnterSame(strict, e.pos, s, w);
    var s0, w0 := Enter(e.pos, s), Enter(e.pos, w);
    var t := n + 1;
    var start := Do(SubStart(t, |k|));
    var o := GenExpr(p.table, e.obj, k + [CExpr(e)], t, false);
    var i := GenExpr(p.table, e.index, o.k, o.n, true);
    var inner := o.code + [Do(SubBefore(o.out))] + i.code + [Do(SubIndex(t, o.out, i.out))];
    ExecFirst(p, f, ks, start, [IfElse(IsNone(t), inner, [])], r, s);
    assert ks[|k|] == (k + [CExpr(e)])[|k|];
    var r1 := SetTemp(r, t, if e.spells.Some? then V(TypeV(e.spells.value)) else Absent);
    ExecSingle(p, f, ks, IfElse(IsNone(t), inner, []), r1, s0);
    if e.spells.Some? {
      ExecNothing(p, f, ks, r1, s0);
      SpelledSub(p, f, e, w0);
    } else {
      IndexSimulates(strict, p, f, e, k + [CExpr(e)], t, n, ks, r, r1, s0, w0);
    }
  }

  // ---- statements ------------------------------------------------------------------

  /** Emitted statement code ends as the walk of its statement does, with the
      value in `result`. */
  predicate Finishes(strict: bool, m: MRun, e: Run) {
    (if e.out.Normal? then m.ctl.Next? && m.r.result == e.out.v else m.ctl == Stop(e.out)) &&
    Same(strict, m.s, e.st)
  }

  lemma ToResultFinishes(strict: bool, a: Run, b: Run, r: Regs)
    requires Alike(strict, a, b)
    ensures Finishes(strict, ToResult(a, r), b)
  {}

  // What single lines do, each where its constants are what they were handed out as.

  lemma NoneReturns(p: Program, f: nat, ks: seq<Const>, r: Regs, s: State)
    ensures Exec(p, f, ks, [Do(RaiseNone)], r, s) == MRun(Stop(Returned(NoneV)), r, s)
  {
    hide Exec, StepName, StepValue, StepNode, StepStmt, StepBlock;
    ExecSingle(p, f, ks, Do(RaiseNone), r, s);
  }

  lemma ResultLine(p: Program, f: nat, ks: seq<Const>, o: Operand, v: Value, r: Regs, s: State)
    requires Holds(ks, r, o, v)
    ensures ExecOne(p, f, ks, Do(SetResult(o)), r, s) == MRun(Next, r.(result := v), s)
    ensures ExecOne(p, f, ks, Do(RaiseReturn(o)), r, s) == MRun(Stop(Returned(v)), r, s)
  {
    hide StepName, StepValue, StepNode, StepStmt, StepBlock;
  }

  lemma SetupLine(p: Program, f: nat, ks: seq<Const>, at: nat, t: Stmt, r: Regs, s: State)
    requires t.ForEach? && at < |ks| && ks[at] == CStmt(t)
    ensures var st := ForSetup(p, Compiled, f, t.name, t.iterable, s);
            ExecOne(p, f, ks, Do(SetupFor(at)), r, s)
            == if !st.out.Normal? then MRun(Stop(st.out), r, st.st)
               else MRun(Next, r.(st := if st.out.v.ListV? then Walking(st.out.v.h, t.name) else NotWalking), st.st)
  {
    hide ForSetup, StepName, StepValue, StepNode, StepEnd, StepStmt;
  }

  /** The turns, and what is let go of after them however they end. */
  lemma TryLine(p: Program, f: nat, ks: seq<Const>, body: seq<Code>, h: nat, name: Name, r: Regs, s: State)
    requires r.st == Walking(h, name)
    requires var m := ExecFor(p, f, ks, body, 0, |ListOf(s.core, h)|, r, s); m.r.st == r.st
    ensures var m := ExecFor(p, f, ks, body, 0, |ListOf(s.core, h)|, r, s);
            ExecOne(p, f, ks, Try([ForRange(body)], [Do(EndFor)]), r, s) == MRun(m.ctl, m.r, Release(m.s, name))
  {
    hide Exec, ExecFor, Release, StepName, StepValue, StepNode, StepEnd, StepStmt;
    ExecSingle(p, f, ks, ForRange(body), r, s);
    var m := ExecFor(p, f, ks, body, 0, |ListOf(s.core, h)|, r, s);
    ExecSingle(p, f, ks, Do(EndFor), m.r, m.s);
  }

  lemma BreakRuns(p: Program, f: nat, ks: seq<Const>, o: Operand, v: Value, r: Regs, s: State)
    requires Holds(ks, r, o, v)
    ensures ExecOne(p, f, ks, Do(BreakUnless(o)), r, s) == MRun(if p.ops.truth(v) then Next else BreakLoop, r, s)
  {
    hide StepName, StepValue, StepNode, StepStmt, StepBlock;
  }

  /** Where a loop's code goes after a turn that ended so. */
  function AfterTurn(out: Outcome): Ctl {
    if !out.Normal? then Stop(out) else if out.v == BoolV(false) then BreakLoop else Next
  }

  lemma TurnLine(p: Program, f: nat, ks: seq<Const>, k: nat, at: nat, t: Stmt, r: Regs, s: State)
    requires (t.While? || t.ForEach?) && k < |ks| && at < |ks| && ks[k] == CBlock(t.body) && ks[at] == CStmt(t)
    ensures var turn := LoopTurn(p, Compiled, f, t.body, t.tag, s);
            ExecOne(p, f, ks, Do(Turn(k, at)), r, s)
            == MRun(AfterTurn(turn.out), r, turn.st)
  {
    hide LoopTurn, StepName, StepValue, StepNode, StepEnd, StepStmt;
  }

  lemma BlockLine(p: Program, f: nat, ks: seq<Const>, k: nat, b: seq<Stmt>, r: Regs, s: State)
    requires k < |ks| && ks[k] == CBlock(b)
    ensures Exec(p, f, ks, [Do(RunStmts(k))], r, s) == ToResult(EvalStmts(p, Compiled, f, b, s), r)
  {
    hide Exec, EvalStmts, StepName, StepValue, StepNode, StepEnd, StepStmt;
    ExecSingle(p, f, ks, Do(RunStmts(k)), r, s);
  }

  lemma TruthBranch(p: Program, f: nat, ks: seq<Const>, o: Operand, v: Value, thn: seq<Code>, els: seq<Code>, r: Regs,
                    s: State)
    requires Holds(ks, r, o, v)
    ensures ExecOne(p, f, ks, IfElse(Truth(o), thn, els), r, s)
            == Exec(p, f, ks, if p.ops.truth(v) then thn else els, r, s)
  {
    hide Exec;
  }

  lemma PreLetLine(p: Program, f: nat, ks: seq<Const>, at: nat, t: Stmt, r: Regs, s: State)
    requires t.Let? && at < |ks| && ks[at] == CStmt(t)
    ensures var b := Perform(p, LetPre(t.note, t.name), s);
            ExecOne(p, f, ks, Do(PreLet(at)), r, s)
            == if b.out.Normal? then MRun(Next, r.(borrow := b.out.v), b.st) else MRun(Stop(b.out), r, b.st)
  {
    hide Perform, StepName, StepValue, StepNode, StepEnd, StepBlock;
  }

  lemma FrozenLine(p: Program, f: nat, ks: seq<Const>, at: nat, t: Stmt, r: Regs, s: State)
    requires t.Let? && at < |ks| && ks[at] == CStmt(t)
    ensures var e := LetRefusal(t.name, t.isConst, s.core);
            ExecOne(p, f, ks, Do(LetFrozen(at)), r, s)
            == if e.Some? then MRun(Stop(Failed(e.value)), r, s) else MRun(Next, r, s)
  {
    hide LetRefusal, StepName, StepValue, StepNode, StepEnd, StepBlock;
  }

  lemma BindLine(p: Program, f: nat, ks: seq<Const>, at: nat, o: Operand, v: Value, t: Stmt, r: Regs, s: State)
    requires t.Let? && at < |ks| && ks[at] == CStmt(t) && Holds(ks, r, o, v)
    ensures ExecOne(p, f, ks, Do(BindLet(at, o, t.borrows)), r, s)
            == ToResult(Perform(p, LetBind(t.note, t.name, v, if t.borrows then BoolV(true) else r.borrow), s), r)
  {
    hide Perform, StepName, StepValue, StepNode, StepEnd, StepBlock;
  }

  lemma PreAssignLine(p: Program, f: nat, ks: seq<Const>, k: nat, target: Expr, r: Regs, s: State)
    requires k < |ks| && ks[k] == CExpr(target)
    ensures var pre := AssignPre(p, Compiled, f, target, s);
            ExecOne(p, f, ks, Do(PreAssign(k)), r, s)
            == if pre.out.Normal? then MRun(Next, r.(pre := pre.vals), pre.st) else MRun(Stop(pre.out), r, pre.st)
  {
    hide AssignPre, StepName, StepValue, StepNode, StepEnd, StepBlock;
  }

  lemma InPlaceBranch(p: Program, f: nat, ks: seq<Const>, k: nat, j: nat, t: Stmt, els: seq<Code>, r: Regs, s: State)
    requires t.Assign? && k < |ks| && ks[k] == CExpr(t.target) && j < |ks| && ks[j] == CExpr(t.rhs)
    ensures var d := AssignInPlace(p, Compiled, f, t, s);
            ExecOne(p, f, ks, IfElse(InPlace(k, j), [Do(ResultNone)], els), r, s)
            == if !d.out.Normal? then MRun(Stop(d.out), r, d.st)
               else if d.out.v == BoolV(true) then MRun(Next, r.(result := NoneV), d.st)
               else Exec(p, f, ks, els, r, d.st)
  {
    hide Exec, AssignInPlace, StepName, StepValue, StepNode, StepStmt, StepBlock;
    var d := AssignInPlace(p, Compiled, f, t, s);
    ExecSingle(p, f, ks, Do(ResultNone), r, d.st);
  }

  lemma {:induction false} ExprStmtSimulates(strict: bool, p: Program, f: nat, t: Stmt, k: seq<Const>, n: nat, at: nat,
                                             ks: seq<Const>, r: Regs, s: State, w: State)
    requires (t.ExprStmt? || t.Return?) && Sound(strict, p) && FitStmt(strict, t) && Same(strict, s, w)
    requires GenBody(p.table, t, at, k, n).k <= ks
    ensures Finishes(strict, Exec(p, f, ks, GenBody(p.table, t, at, k, n).code, r, s), StmtBody(p, Compiled, f, t, w))
    decreases f, 4, t, 0
  {
    hide Exec, ExecOne, Eval, GenExpr;
    if t.Return? && t.value.None? {
      NoneReturns(p, f, ks, r, s);
    } else {
      var e := if t.ExprStmt? then t.expr else t.value.value;
      var v := GenExpr(p.table, e, k, n, true);
      ExecThen(p, f, ks, v.code, Do(if t.ExprStmt? then SetResult(v.out) else RaiseReturn(v.out)), r, s);
      ExprSimulates(strict, p, f, e, k, n, true, ks, r, s, w);
      var m, ev := Exec(p, f, ks, v.code, r, s), Eval(p, Compiled, f, e, w);
      if ev.out.Normal? { ResultLine(p, f, ks, v.out, ev.out.v, m.r, m.s); }
    }
  }

  /** A condition, the block it guards, and what is under its else. */
  lemma {:induction false} BranchSimulates(strict: bool, p: Program, f: nat, cond: Expr, body: seq<Stmt>,
                                           els: seq<Code>, other: Run,
                                           k: seq<Const>, n: nat, ks: seq<Const>, r: Regs, s: State, w: State)
    requires Sound(strict, p) && FitExpr(strict, cond) && FitBlock(strict, body) && Same(strict, s, w)
    requires GenExpr(p.table, cond, k, n, true).k + [CBlock(body)] <= ks
    requires var c := GenExpr(p.table, cond, k, n, true);
             var m, ec := Exec(p, f, ks, c.code, r, s), Eval(p, Compiled, f, cond, w);
             ec.out.Normal? && m.ctl.Next? && !p.ops.truth(ec.out.v) && Same(strict, m.s, ec.st)
             ==> Finishes(strict, Exec(p, f, ks, els, m.r, m.s), other)
    ensures var c := GenExpr(p.table, cond, k, n, true);
            var ec := Eval(p, Compiled, f, cond, w);
            Finishes(strict, Exec(p, f, ks, c.code + [IfElse(Truth(c.out), [Do(RunStmts(|c.k|))], els)], r, s),
              if !ec.out.Normal? then ec
              else if p.ops.truth(ec.out.v) then EvalStmts(p, Compiled, f, body, ec.st)
              else other)
    decreases f, 4, cond, 2
  {
    hide Exec, ExecOne, Eval, GenExpr, EvalStmts, ToResult;
    var c := GenExpr(p.table, cond, k, n, true);
    var test := IfElse(Truth(c.out), [Do(RunStmts(|c.k|))], els);
    ExecThen(p, f, ks, c.code, test, r, s);
    ExprSimulates(strict, p, f, cond, k, n, true, ks, r, s, w);
    var m, ec := Exec(p, f, ks, c.code, r, s), Eval(p, Compiled, f, cond, w);
    if ec.out.Normal? { TruthBranch(p, f, ks, c.out, ec.out.v, test.thn, els, m.r, m.s); }
    if ec.out.Normal? && p.ops.truth(ec.out.v) {
      assert ks[|c.k|] == (c.k + [CBlock(body)])[|c.k|];
      BlockLine(p, f, ks, |c.k|, body, m.r, m.s);
      StmtsAgree(strict, p, Compiled, Compiled, f, body, m.s, ec.st);
      ToResultFinishes(strict, EvalStmts(p, Compiled, f, body, m.s), EvalStmts(p, Compiled, f, body, ec.st), m.r);
    }
  }

  /** The elif chain: each condition under the else of the one before. */
  lemma {:induction false} AltSimulates(strict: bool, p: Program, f: nat, alt: Alt, k: seq<Const>, n: nat,
                                        ks: seq<Const>, r: Regs, s: State, w: State)
    requires Sound(strict, p) && FitAlt(strict, alt) && Same(strict, s, w)
    requires GenAlt(p.table, alt, k, n).k <= ks
    ensures Finishes(strict, Exec(p, f, ks, GenAlt(p.table, alt, k, n).code, r, s), WalkAlt(p, Compiled, f, alt, w))
    decreases f, 4, alt, 3
  {
    hide Exec, Eval, GenExpr, EvalStmts, StepName, StepValue, StepNode, StepStmt, StepBlock;
    match alt
    case NoAlt =>
      ExecSingle(p, f, ks, Do(ResultNone), r, s);
    case Else(body) =>
      assert ks[|k|] == (k + [CBlock(body)])[|k|];
      BlockLine(p, f, ks, |k|, body, r, s);
      StmtsAgree(strict, p, Compiled, Compiled, f, body, s, w);
      ToResultFinishes(strict, EvalStmts(p, Compiled, f, body, s), EvalStmts(p, Compiled, f, body, w), r);
    case Elif(cond, body, rest) =>
      var c := GenExpr(p.table, cond, k, n, true);
      var k1 := c.k + [CBlock(body)];
      var m, ec := Exec(p, f, ks, c.code, r, s), Eval(p, Compiled, f, cond, w);
      if Same(strict, m.s, ec.st) {
        AltSimulates(strict, p, f, rest, k1, c.n, ks, m.r, m.s, ec.st);
      }
      BranchSimulates(strict, p, f, cond, body, GenAlt(p.table, rest, k1, c.n).code,
                      WalkAlt(p, Compiled, f, rest, ec.st),
                      k, n, ks, r, s, w);
  }

  lemma {:induction false} IfSimulates(strict: bool, p: Program, f: nat, t: Stmt, k: seq<Const>, n: nat, at: nat,
                                       ks: seq<Const>, r: Regs, s: State, w: State)
    requires t.If? && Sound(strict, p) && FitStmt(strict, t) && Same(strict, s, w)
    requires GenBody(p.table, t, at, k, n).k <= ks
    ensures Finishes(strict, Exec(p, f, ks, GenBody(p.table, t, at, k, n).code, r, s), WalkIf(p, Compiled, f, t, w))
    decreases f, 4, t, 0
  {
    hide Exec, Eval, GenExpr, GenAlt, EvalStmts, WalkAlt, StepName, StepValue, StepNode, StepEnd, StepStmt, StepBlock;
    var c := GenExpr(p.table, t.cond, k, n, true);
    var k1 := c.k + [CBlock(t.cons)];
    var m, ec := Exec(p, f, ks, c.code, r, s), Eval(p, Compiled, f, t.cond, w);
    if Same(strict, m.s, ec.st) {
      AltSimulates(strict, p, f, t.alt, k1, c.n, ks, m.r, m.s, ec.st);
    }
    BranchSimulates(strict, p, f, t.cond, t.cons, GenAlt(p.table, t.alt, k1, c.n).code,
                    WalkAlt(p, Compiled, f, t.alt, ec.st),
                    k, n, ks, r, s, w);
  }

  /** A let, once its initializer is about to be read. */
  lemma {:induction false} BindSimulates(strict: bool, p: Program, f: nat, t: Stmt, k: seq<Const>, n: nat, at: nat,
                                         ks: seq<Const>, r: Regs, s: State, w: State)
    requires t.Let? && Sound(strict, p) && FitStmt(strict, t) && Same(strict, s, w)
    requires GenExpr(p.table, t.init, k, n, true).k <= ks && at < |ks| && ks[at] == CStmt(t)
    ensures var v := GenExpr(p.table, t.init, k, n, true);
            var e := Eval(p, Compiled, f, t.init, w);
            Finishes(strict, Exec(p, f, ks, v.code + [Do(ResultNone)], r, s),
                     if e.out.Normal? then Run(Normal(NoneV), e.st) else e) &&
            Finishes(strict, Exec(p, f, ks, v.code + [Do(BindLet(at, v.out, t.borrows))], r, s),
                     if e.out.Normal? then
                       Perform(p, LetBind(t.note, t.name, e.out.v, if t.borrows then BoolV(true) else r.borrow), e.st)
                     else e)
    decreases f, 4, t, 0
  {
    hide Exec, Eval, GenExpr, Perform, StepName, StepValue, StepNode, StepStmt, StepBlock;
    var v := GenExpr(p.table, t.init, k, n, true);
    ExecThen(p, f, ks, v.code, Do(ResultNone), r, s);
    ExecThen(p, f, ks, v.code, Do(BindLet(at, v.out, t.borrows)), r, s);
    ExprSimulates(strict, p, f, t.init, k, n, true, ks, r, s, w);
    var m, e := Exec(p, f, ks, v.code, r, s), Eval(p, Compiled, f, t.init, w);
    if e.out.Normal? {
      var act := LetBind(t.note, t.name, e.out.v, if t.borrows then BoolV(true) else r.borrow);
      BindLine(p, f, ks, at, v.out, e.out.v, t, m.r, m.s);
      PerformAgrees(strict, p, act, m.s, e.st);
      ToResultFinishes(strict, Perform(p, act, m.s), Perform(p, act, e.st), m.r);
    }
  }

  lemma {:induction false} LetSimulates(strict: bool, p: Program, f: nat, t: Stmt, k: seq<Const>, n: nat, at: nat,
                                        ks: seq<Const>, r: Regs, s: State, w: State)
    requires t.Let? && Sound(strict, p) && FitStmt(strict, t) && Same(strict, s, w)
    requires GenBody(p.table, t, at, k, n).k <= ks && at < |ks| && ks[at] == CStmt(t)
    ensures Finishes(strict, Exec(p, f, ks, GenBody(p.table, t, at, k, n).code, r, s), WalkLet(p, Compiled, f, t, w))
    decreases f, 4, t, 1
  {
    hide Exec, ExecOne, Eval, GenExpr, Perform, LetRefusal;
    var v := GenExpr(p.table, t.init, k, n, true);
    var pre, frozen := Do(PreLet(at)), Do(LetFrozen(at));
    var discard, bind := v.code + [Do(ResultNone)], v.code + [Do(BindLet(at, v.out, t.borrows))];
    assert [pre] + v.code + [Do(ResultNone)] == [pre] + discard;
    assert [pre, frozen] + v.code + [Do(BindLet(at, v.out, t.borrows))] == [pre] + ([frozen] + bind);
    ExecFirst(p, f, ks, pre, if t.name == DISCARD_NAME then discard else [frozen] + bind, r, s);
    PreLetLine(p, f, ks, at, t, r, s);
    PerformAgrees(strict, p, LetPre(t.note, t.name), s, w);
    var a, b := Perform(p, LetPre(t.note, t.name), s), Perform(p, LetPre(t.note, t.name), w);
    if b.out.Normal? {
      var r1 := r.(borrow := b.out.v);
      ExecFirst(p, f, ks, frozen, bind, r1, a.st);
      FrozenLine(p, f, ks, at, t, r1, a.st);
      BindSimulates(strict, p, f, t, k, n, at, ks, r1, a.st, b.st);
    }
  }

  /** `while True:` with its condition inline, against the walk's loop. */
  lemma {:induction false} LoopSimulates(strict: bool, p: Program, f: nat, t: Stmt, k: seq<Const>, n: nat, at: nat,
                                         ks: seq<Const>, r: Regs, s: State, w: State)
    requires t.While? && Sound(strict, p) && FitStmt(strict, t) && Same(strict, s, w)
    requires GenExpr(p.table, t.cond, k, n, true).k + [CBlock(t.body)] <= ks
    requires at < |ks| && ks[at] == CStmt(t)
    ensures var c := GenExpr(p.table, t.cond, k, n, true);
            var m := ExecLoop(p, f, ks, c.code + [Do(BreakUnless(c.out)), Do(Turn(|c.k|, at))], r, s);
            var e := WhileLoop(p, Compiled, f, t.cond, t.body, t.tag, w);
            Same(strict, m.s, e.st) && if e.out.Normal? then m.ctl.Next? && e.out.v == NoneV else m.ctl == Stop(e.out)
    decreases f, 0
  {
    if f != 0 {
      var c := GenExpr(p.table, t.cond, k, n, true);
      LoopBodyRuns(strict, p, f - 1, t, k, n, at, ks, r, s, w);
      var m := Exec(p, f - 1, ks, c.code + [Do(BreakUnless(c.out)), Do(Turn(|c.k|, at))], r, s);
      var ec := Eval(p, Compiled, f - 1, t.cond, w);
      if ec.out.Normal? && p.ops.truth(ec.out.v) {
        var turn := LoopTurn(p, Compiled, f - 1, t.body, t.tag, ec.st);
        if m.ctl.Next? { LoopSimulates(strict, p, f - 1, t, k, n, at, ks, m.r, m.s, turn.st); }
      }
    }
  }

  /** One pass of the loop's lines: the condition, and then a turn. */
  lemma {:induction false} LoopBodyRuns(strict: bool, p: Program, f: nat, t: Stmt, k: seq<Const>, n: nat, at: nat,
                                        ks: seq<Const>, r: Regs, s: State, w: State)
    requires t.While? && Sound(strict, p) && FitStmt(strict, t) && Same(strict, s, w)
    requires GenExpr(p.table, t.cond, k, n, true).k + [CBlock(t.body)] <= ks
    requires at < |ks| && ks[at] == CStmt(t)
    ensures var c := GenExpr(p.table, t.cond, k, n, true);
            var m := Exec(p, f, ks, c.code + [Do(BreakUnless(c.out)), Do(Turn(|c.k|, at))], r, s);
            var ec := Eval(p, Compiled, f, t.cond, w);
            if !ec.out.Normal? then m.ctl == Stop(ec.out) && Same(strict, m.s, ec.st)
            else if !p.ops.truth(ec.out.v) then m.ctl.BreakLoop? && Same(strict, m.s, ec.st)
            else
              var turn := LoopTurn(p, Compiled, f, t.body, t.tag, ec.st);
              Same(strict, m.s, turn.st) &&
              m.ctl == AfterTurn(turn.out)
    decreases f, 4, t, 0
  {
    hide Exec, ExecOne, Eval, GenExpr, LoopTurn;
    var c := GenExpr(p.table, t.cond, k, n, true);
    var check, turn := Do(BreakUnless(c.out)), Do(Turn(|c.k|, at));
    assert c.code + [check, turn] == c.code + [check] + [turn];
    ExecThen(p, f, ks, c.code + [check], turn, r, s);
    ExecThen(p, f, ks, c.code, check, r, s);
    ExprSimulates(strict, p, f, t.cond, k, n, true, ks, r, s, w);
    var m, ec := Exec(p, f, ks, c.code, r, s), Eval(p, Compiled, f, t.cond, w);
    if ec.out.Normal? { BreakRuns(p, f, ks, c.out, ec.out.v, m.r, m.s); }
    if ec.out.Normal? && p.ops.truth(ec.out.v) {
      assert ks[|c.k|] == (c.k + [CBlock(t.body)])[|c.k|];
      TurnLine(p, f, ks, |c.k|, at, t, m.r, m.s);
      TurnAgrees(strict, p, Compiled, Compiled, f, t.body, t.tag, m.s, ec.st);
    }
  }

  lemma {:induction false} WhileSimulates(strict: bool, p: Program, f: nat, t: Stmt, k: seq<Const>, n: nat, at: nat,
                                          ks: seq<Const>, r: Regs, s: State, w: State)
    requires t.While? && Sound(strict, p) && FitStmt(strict, t) && Same(strict, s, w)
    requires GenBody(p.table, t, at, k, n).k <= ks && at < |ks| && ks[at] == CStmt(t)
    ensures Finishes(strict, Exec(p, f, ks, GenBody(p.table, t, at, k, n).code, r, s), StmtBody(p, Compiled, f, t, w))
    decreases f, 4, t, 0
  {
    hide Exec, ExecLoop, GenExpr, WhileLoop, StepName, StepValue, StepNode, StepStmt, StepBlock;
    var c := GenExpr(p.table, t.cond, k, n, true);
    var loop := Loop(c.code + [Do(BreakUnless(c.out)), Do(Turn(|c.k|, at))]);
    assert [loop, Do(ResultNone)] == [loop] + [Do(ResultNone)];
    ExecFirst(p, f, ks, loop, [Do(ResultNone)], r, s);
    LoopSimulates(strict, p, f, t, k, n, at, ks, r, s, w);
    var m := ExecLoop(p, f, ks, loop.body, r, s);
    if m.ctl.Next? { ExecSingle(p, f, ks, Do(ResultNone), m.r, m.s); }
  }

  /** The turns of a foreach, up to the one that finds its list too short. */
  lemma {:induction false} ForSimulates(strict: bool, p: Program, f: nat, t: Stmt, k: nat, at: nat, h: nat, idx: nat,
                                        n: nat,
                                        ks: seq<Const>, r: Regs, s: State, w: State)
    requires t.ForEach? && Sound(strict, p) && FitStmt(strict, t) && Same(strict, s, w)
    requires k + 1 < |ks| && ks[k] == CName(t.name) && ks[k + 1] == CBlock(t.body) && at < |ks| && ks[at] == CStmt(t)
    requires r.st == Walking(h, t.name)
    ensures var m := ExecFor(p, f, ks, [Do(DefineElement(k)), Do(Turn(k + 1, at))], idx, n, r, s);
            var e := ForTurns(p, Compiled, f, t.name, t.body, t.tag, h, idx, n, w);
            Same(strict, m.s, e.st) && m.r.st == r.st &&
            if e.out.Normal? then m.ctl.Next? && e.out.v == NoneV else m.ctl == Stop(e.out)
    decreases f, 2, if idx < n then n - idx else 0
  {
    hide Exec, LoopTurn;
    if idx < n {
      var list, r1 := ListOf(w.core, h), r.(idx := idx);
      TurnRuns(p, f, t, k, at, h, ks, r1, s);
      if idx < |list| {
        var s1, w1 := Define(s, t.name, list[idx]), Define(w, t.name, list[idx]);
        TurnAgrees(strict, p, Compiled, Compiled, f, t.body, t.tag, s1, w1);
        var turn := LoopTurn(p, Compiled, f, t.body, t.tag, w1);
        var m := Exec(p, f, ks, [Do(DefineElement(k)), Do(Turn(k + 1, at))], r1, s);
        if m.ctl.Next? { ForSimulates(strict, p, f, t, k, at, h, idx + 1, n, ks, m.r, m.s, turn.st); }
      }
    }
  }

  lemma TurnRuns(p: Program, f: nat, t: Stmt, k: nat, at: nat, h: nat, ks: seq<Const>, r: Regs, s: State)
    requires t.ForEach? && r.st == Walking(h, t.name)
    requires k + 1 < |ks| && ks[k] == CName(t.name) && ks[k + 1] == CBlock(t.body) && at < |ks| && ks[at] == CStmt(t)
    ensures var m := Exec(p, f, ks, [Do(DefineElement(k)), Do(Turn(k + 1, at))], r, s);
            var list := ListOf(s.core, h);
            m.r == r &&
            if r.idx < |list| then
              var turn := LoopTurn(p, Compiled, f, t.body, t.tag, Define(s, t.name, list[r.idx]));
              m.s == turn.st &&
              m.ctl == AfterTurn(turn.out)
            else m.ctl == Stop(Failed(IndexError)) && m.s == Mark(s, h, r.idx)
  {
    hide Exec, LoopTurn, StepName, StepValue, StepNode, StepEnd, StepStmt;
    assert [Do(DefineElement(k)), Do(Turn(k + 1, at))] == [Do(DefineElement(k))] + [Do(Turn(k + 1, at))];
    ExecFirst(p, f, ks, Do(DefineElement(k)), [Do(Turn(k + 1, at))], r, s);
    var list := ListOf(s.core, h);
    if r.idx < |list| {
      var s1 := Define(s, t.name, list[r.idx]);
      ExecSingle(p, f, ks, Do(Turn(k + 1, at)), r, s1);
      TurnLine(p, f, ks, k + 1, at, t, r, s1);
    }
  }

  /** `try:` the turns, `finally:` the name and the list let go. */
  lemma {:induction false} ForTryRuns(strict: bool, p: Program, f: nat, t: Stmt, k: nat, at: nat, h: nat,
                                      ks: seq<Const>, r: Regs, s: State, w: State)
    requires t.ForEach? && Sound(strict, p) && FitStmt(strict, t) && Same(strict, s, w)
    requires k + 1 < |ks| && ks[k] == CName(t.name) && ks[k + 1] == CBlock(t.body) && at < |ks| && ks[at] == CStmt(t)
    requires r.st == Walking(h, t.name)
    ensures var try := Try([ForRange([Do(DefineElement(k)), Do(Turn(k + 1, at))])], [Do(EndFor)]);
            var m := ExecOne(p, f, ks, try, r, s);
            var e := ForTurns(p, Compiled, f, t.name, t.body, t.tag, h, 0, |ListOf(w.core, h)|, w);
            Same(strict, m.s, Release(e.st, t.name)) &&
            if e.out.Normal? then m.ctl.Next? && e.out.v == NoneV else m.ctl == Stop(e.out)
    decreases f, 3, t, 0
  {
    hide ExecOne, ExecFor, ForTurns, Release;
    var body := [Do(DefineElement(k)), Do(Turn(k + 1, at))];
    var n := |ListOf(w.core, h)|;
    ForSimulates(strict, p, f, t, k, at, h, 0, n, ks, r, s, w);
    var m := ExecFor(p, f, ks, body, 0, n, r, s);
    TryLine(p, f, ks, body, h, t.name, r, s);
    ReleaseSame(strict, m.s, ForTurns(p, Compiled, f, t.name, t.body, t.tag, h, 0, n, w).st, t.name);
  }

  lemma {:induction false} ForEachSimulates(strict: bool, p: Program, f: nat, t: Stmt, k: seq<Const>, n: nat, at: nat,
                                            ks: seq<Const>, r: Regs, s: State, w: State)
    requires t.ForEach? && Sound(strict, p) && FitStmt(strict, t) && Same(strict, s, w)
    requires GenBody(p.table, t, at, k, n).k <= ks && at < |ks| && ks[at] == CStmt(t)
    ensures Finishes(strict, Exec(p, f, ks, GenBody(p.table, t, at, k, n).code, r, s),
                     WalkForEach(p, Compiled, f, t, w))
    decreases f, 4, t, 0
  {
    hide Exec, ExecOne, ForSetup, ForTurns, Release;
    var k1 := k + [CName(t.name), CBlock(t.body)];
    assert ks[|k|] == k1[|k|] && ks[|k| + 1] == k1[|k| + 1];
    var try := Try([ForRange([Do(DefineElement(|k|)), Do(Turn(|k| + 1, at))])], [Do(EndFor)]);
    var branch := IfElse(NoSequence, [Do(ResultNone)], [try, Do(ResultNone)]);
    assert [Do(SetupFor(at)), branch] == [Do(SetupFor(at))] + [branch];
    ExecFirst(p, f, ks, Do(SetupFor(at)), [branch], r, s);
    SetupLine(p, f, ks, at, t, r, s);
    SetupAgrees(strict, p, Compiled, Compiled, f, t.name, t.iterable, s, w);
    var a, b := ForSetup(p, Compiled, f, t.name, t.iterable, s), ForSetup(p, Compiled, f, t.name, t.iterable, w);
    if b.out.Normal? {
      var r1 := r.(st := if b.out.v.ListV? then Walking(b.out.v.h, t.name) else NotWalking);
      WalkingRuns(strict, p, f, t, |k|, at, ks, r1, a.st, b.st, b.out.v);
    }
  }

  /** What a foreach's lines do once the list is settled. */
  lemma {:induction false} WalkingRuns(strict: bool, p: Program, f: nat, t: Stmt, k: nat, at: nat,
                                       ks: seq<Const>, r: Regs, s: State, w: State, v: Value)
    requires t.ForEach? && Sound(strict, p) && FitStmt(strict, t) && Same(strict, s, w)
    requires k + 1 < |ks| && ks[k] == CName(t.name) && ks[k + 1] == CBlock(t.body) && at < |ks| && ks[at] == CStmt(t)
    requires r.st == if v.ListV? then Walking(v.h, t.name) else NotWalking
    ensures var try := Try([ForRange([Do(DefineElement(k)), Do(Turn(k + 1, at))])], [Do(EndFor)]);
            var m := Exec(p, f, ks, [IfElse(NoSequence, [Do(ResultNone)], [try, Do(ResultNone)])], r, s);
            if v.ListV? then
              var e := ForTurns(p, Compiled, f, t.name, t.body, t.tag, v.h, 0, |ListOf(w.core, v.h)|, w);
              Finishes(strict, m, Run(e.out, Release(e.st, t.name)))
            else Finishes(strict, m, Run(Normal(NoneV), w))
    decreases f, 4, t, 0, 0
  {
    hide Exec, ForTurns, Release, StepName, StepValue, StepNode, StepStmt, StepBlock;
    var try := Try([ForRange([Do(DefineElement(k)), Do(Turn(k + 1, at))])], [Do(EndFor)]);
    ExecSingle(p, f, ks, IfElse(NoSequence, [Do(ResultNone)], [try, Do(ResultNone)]), r, s);
    if v.ListV? {
      assert [try, Do(ResultNone)] == [try] + [Do(ResultNone)];
      ExecFirst(p, f, ks, try, [Do(ResultNone)], r, s);
      ForTryRuns(strict, p, f, t, k, at, v.h, ks, r, s, w);
      var m := ExecOne(p, f, ks, try, r, s);
      ExecSingle(p, f, ks, Do(ResultNone), m.r, m.s);
    } else {
      ExecSingle(p, f, ks, Do(ResultNone), r, s);
    }
  }

  lemma ReleaseSame(strict: bool, s: State, w: State, name: Name)
    requires Same(strict, s, w)
    ensures Same(strict, Release(s, name), Release(w, name))
  {}

  /** An assignment's own evaluation of its right side, and the store. */
  lemma {:induction false} StoreSimulates(strict: bool, p: Program, f: nat, t: Stmt, k: seq<Const>, n: nat, at: nat,
                                          ks: seq<Const>, r: Regs, s: State, w: State)
    requires t.Assign? && Sound(strict, p) && FitStmt(strict, t) && Same(strict, s, w)
    requires GenExpr(p.table, t.rhs, k, n, true).k <= ks && at < |ks| && ks[at] == CExpr(t.target)
    ensures var v := GenExpr(p.table, t.rhs, k, n, true);
            var e := Eval(p, Compiled, f, t.rhs, w);
            Finishes(strict, Exec(p, f, ks, v.code + [Do(StoreTo(at, v.out))], r, s),
                     if e.out.Normal? then Perform(p, Store(t.target, r.pre, e.out.v), e.st) else e)
    decreases f, 4, t, 0
  {
    hide Exec, Eval, GenExpr, Perform, StepName, StepValue, StepNode, StepEnd, StepBlock;
    var v := GenExpr(p.table, t.rhs, k, n, true);
    ExecThen(p, f, ks, v.code, Do(StoreTo(at, v.out)), r, s);
    ExprSimulates(strict, p, f, t.rhs, k, n, true, ks, r, s, w);
    var m, e := Exec(p, f, ks, v.code, r, s), Eval(p, Compiled, f, t.rhs, w);
    if e.out.Normal? {
      var act := Store(t.target, r.pre, e.out.v);
      PerformAgrees(strict, p, act, m.s, e.st);
      ToResultFinishes(strict, Perform(p, act, m.s), Perform(p, act, e.st), m.r);
    }
  }

  /** An assignment once its target's own parts are read. */
  lemma {:induction false} WriteSimulates(strict: bool, p: Program, f: nat, t: Stmt, k: seq<Const>, n: nat, at: nat,
                                          ks: seq<Const>, r: Regs, s: State, w: State)
    requires t.Assign? && Sound(strict, p) && FitStmt(strict, t) && Same(strict, s, w)
    requires GenExpr(p.table, t.rhs, k, n, true).k <= ks && at < |ks| && ks[at] == CExpr(t.target)
    requires IsBinOp(t.rhs) ==> at + 1 < |ks| && ks[at + 1] == CExpr(t.rhs)
    ensures var v := GenExpr(p.table, t.rhs, k, n, true);
            var store := v.code + [Do(StoreTo(at, v.out))];
            var d := AssignInPlace(p, Compiled, f, t, w);
            var e := Eval(p, Compiled, f, t.rhs, d.st);
            Finishes(strict,
              Exec(p, f, ks,
                   if IsBinOp(t.rhs) then [IfElse(InPlace(at, at + 1), [Do(ResultNone)], store)] else store, r, s),
              if !d.out.Normal? then d else if d.out.v == BoolV(true) then Run(Normal(NoneV), d.st)
              else if e.out.Normal? then Perform(p, Store(t.target, r.pre, e.out.v), e.st) else e)
    decreases f, 4, t, 1
  {
    hide Exec, ExecOne, Eval, GenExpr, AssignInPlace, Perform;
    var v := GenExpr(p.table, t.rhs, k, n, true);
    var store := v.code + [Do(StoreTo(at, v.out))];
    InPlaceAgrees(strict, p, Compiled, Compiled, f, t, s, w);
    var c, d := AssignInPlace(p, Compiled, f, t, s), AssignInPlace(p, Compiled, f, t, w);
    if IsBinOp(t.rhs) {
      ExecSingle(p, f, ks, IfElse(InPlace(at, at + 1), [Do(ResultNone)], store), r, s);
      InPlaceBranch(p, f, ks, at, at + 1, t, store, r, s);
    } else {
      NotInPlace(p, f, t, s);
      NotInPlace(p, f, t, w);
    }
    if d.out.Normal? && d.out.v != BoolV(true) { StoreSimulates(strict, p, f, t, k, n, at, ks, r, c.st, d.st); }
  }

  lemma {:induction false} AssignSimulates(strict: bool, p: Program, f: nat, t: Stmt, k: seq<Const>, n: nat, at: nat,
                                           ks: seq<Const>, r: Regs, s: State, w: State)
    requires t.Assign? && Sound(strict, p) && FitStmt(strict, t) && Same(strict, s, w)
    requires GenBody(p.table, t, at, k, n).k <= ks
    ensures Finishes(strict, Exec(p, f, ks, GenBody(p.table, t, at, k, n).code, r, s), WalkAssign(p, Compiled, f, t, w))
    decreases f, 4, t, 2
  {
    hide Exec, ExecOne, Eval, GenExpr, AssignPre, AssignInPlace, Perform;
    var k0 := k + [CExpr(t.target)];
    var k1 := if IsBinOp(t.rhs) then k0 + [CExpr(t.rhs)] else k0;
    var v := GenExpr(p.table, t.rhs, k1, n, true);
    var store := v.code + [Do(StoreTo(|k|, v.out))];
    var rest := if IsBinOp(t.rhs) then [IfElse(InPlace(|k|, |k| + 1), [Do(ResultNone)], store)] else store;
    assert GenBody(p.table, t, at, k, n).code == [Do(PreAssign(|k|))] + rest;
    assert ks[|k|] == k1[|k|];
    if IsBinOp(t.rhs) { assert ks[|k| + 1] == k1[|k| + 1]; }
    ExecFirst(p, f, ks, Do(PreAssign(|k|)), rest, r, s);
    PreAssignLine(p, f, ks, |k|, t.target, r, s);
    PreAgrees(strict, p, Compiled, Compiled, f, t.target, s, w);
    var a, b := AssignPre(p, Compiled, f, t.target, s), AssignPre(p, Compiled, f, t.target, w);
    if b.out.Normal? { WriteSimulates(strict, p, f, t, k1, n, |k|, ks, r.(pre := b.vals), a.st, b.st); }
  }

  lemma NotInPlace(p: Program, f: nat, t: Stmt, s: State)
    requires t.Assign? && !IsBinOp(t.rhs)
    ensures AssignInPlace(p, Compiled, f, t, s) == Run(Normal(BoolV(false)), s)
  {}

  lemma HandedLine(p: Program, f: nat, ks: seq<Const>, at: nat, t: Stmt, r: Regs, s: State)
    requires at < |ks| && ks[at] == CStmt(t)
    ensures ExecOne(p, f, ks, Do(Handle(at)), r, s) == ToResult(StmtBody(p, Compiled, f, t, s), r)
    ensures ExecOne(p, f, ks, Do(EvalStmtNode(at)), r, s) == ToResult(WalkStmt(p, Compiled, f, t, s), r)
  {
    hide StmtBody, WalkStmt, ToResult, StepName, StepValue, StepNode, StepEnd, StepStmt;
  }

  /** A statement left to the evaluator. */
  lemma {:induction false} HandedSimulates(strict: bool, p: Program, f: nat, t: Stmt, k: seq<Const>, n: nat, at: nat,
                                           ks: seq<Const>, r: Regs, s: State, w: State)
    requires t.Leave? || t.OpaqueStmt?
    requires Sound(strict, p) && Same(strict, s, w) && Enter(t.At(), s) == s && at < |ks| && ks[at] == CStmt(t)
    ensures Finishes(strict, Exec(p, f, ks, GenBody(p.table, t, at, k, n).code, r, s), StmtBody(p, Compiled, f, t, w))
  {
    hide Exec, ExecOne, ToResult;
    ExecSingle(p, f, ks, Do(if t.Leave? then EvalStmtNode(at) else Handle(at)), r, s);
    HandedLine(p, f, ks, at, t, r, s);
    assert WalkStmt(p, Compiled, f, t, s) == StmtBody(p, Compiled, f, t, s);
    ToResultFinishes(strict, StmtBody(p, Compiled, f, t, s), StmtBody(p, Compiled, f, t, w), r);
  }

  lemma {:induction false} BodySimulates(strict: bool, p: Program, f: nat, t: Stmt, k: seq<Const>, n: nat, at: nat,
                                         ks: seq<Const>, r: Regs, s: State, w: State)
    requires Sound(strict, p) && FitStmt(strict, t) && Same(strict, s, w) && Enter(t.At(), s) == s
    requires GenBody(p.table, t, at, k, n).k <= ks && at < |ks| && ks[at] == CStmt(t)
    ensures Finishes(strict, Exec(p, f, ks, GenBody(p.table, t, at, k, n).code, r, s), StmtBody(p, Compiled, f, t, w))
    decreases f, 4, t, 3
  {
    hide Exec, GenExpr, GenAlt, WalkIf, WalkLet, WalkForEach, WalkAssign, WhileLoop, Eval, WalkReturn, StepName;
    hide StepValue, StepNode, StepEnd, StepStmt;
    match t
    case ExprStmt(_, _) => ExprStmtSimulates(strict, p, f, t, k, n, at, ks, r, s, w);
    case Return(_, _) => ExprStmtSimulates(strict, p, f, t, k, n, at, ks, r, s, w);
    case If(_, _, _, _) => IfSimulates(strict, p, f, t, k, n, at, ks, r, s, w);
    case Let(_, _, _, _, _, _) => LetSimulates(strict, p, f, t, k, n, at, ks, r, s, w);
    case While(_, _, _, _) => WhileSimulates(strict, p, f, t, k, n, at, ks, r, s, w);
    case ForEach(_, _, _, _, _) => ForEachSimulates(strict, p, f, t, k, n, at, ks, r, s, w);
    case Assign(_, _) => AssignSimulates(strict, p, f, t, k, n, at, ks, r, s, w);
    case Leave(_, _, _) => HandedSimulates(strict, p, f, t, k, n, at, ks, r, s, w);
    case OpaqueStmt(_, _) => HandedSimulates(strict, p, f, t, k, n, at, ks, r, s, w);
  }

  lemma {:induction false} StmtSimulates(strict: bool, p: Program, f: nat, t: Stmt, k: seq<Const>, n: nat,
                                         ks: seq<Const>, r: Regs, s: State, w: State)
    requires Sound(strict, p) && FitStmt(strict, t) && Same(strict, s, w)
    requires GenStmt(p.table, t, k, n).k <= ks
    ensures Finishes(strict, Exec(p, f, ks, GenStmt(p.table, t, k, n).code, r, s), WalkStmt(p, Compiled, f, t, w))
    decreases f, 4, t, 4
  {
    hide Exec, GenBody, StmtBody;
    var k0 := k + [CStmt(t)];
    var b := GenBody(p.table, t, |k|, PosConst(t.At(), k0), n);
    assert ks[|k|] == k0[|k|];
    ExecAppend(p, f, ks, PosCode(t.At(), k0), b.code, r, s);
    ExecPos(p, f, t.At(), k0, ks, r, s);
    BodySimulates(strict, p, f, t, PosConst(t.At(), k0), n, |k|, ks, r, Enter(t.At(), s), Enter(t.At(), w));
  }

  lemma {:induction false} CodeSimulates(strict: bool, p: Program, f: nat, b: seq<Stmt>, k: seq<Const>, n: nat,
                                         ks: seq<Const>, r: Regs, s: State, w: State)
    requires Sound(strict, p) && FitBlock(strict, b) && Same(strict, s, w)
    requires GenStmts(p.table, b, k, n).k <= ks
    ensures Finishes(strict, Exec(p, f, ks, GenStmts(p.table, b, k, n).code, r, s),
                     WalkStmts(p, Compiled, f, b, r.result, w))
    decreases f, 4, b, 0
  {
    hide Exec, GenStmt, WalkStmt;
    if b == [] {
      ExecNothing(p, f, ks, r, s);
    } else {
      var c := GenStmt(p.table, b[0], k, n);
      ExecAppend(p, f, ks, c.code, GenStmts(p.table, b[1..], c.k, c.n).code, r, s);
      StmtSimulates(strict, p, f, b[0], k, n, ks, r, s, w);
      var m, e := Exec(p, f, ks, c.code, r, s), WalkStmt(p, Compiled, f, b[0], w);
      if e.out.Normal? { CodeSimulates(strict, p, f, b[1..], c.k, c.n, ks, m.r, m.s, e.st); }
    }
  }

  /** A compiled block runs as the walk of its statements. */
  lemma {:induction false} BlockSimulates(strict: bool, p: Program, f: nat, b: seq<Stmt>, s: State)
    requires Sound(strict, p) && FitBlock(strict, b)
    ensures Alike(strict, RunBlock(p, f, b, s), WalkStmts(p, Compiled, f, b, NoneV, s))
    decreases f, 5
  {
    hide Exec, GenStmts, WalkStmts;
    CodeSimulates(strict, p, f, b, [], 0, GenStmts(p.table, b, [], 0).k, START, s, s);
  }
}
