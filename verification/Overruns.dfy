/** A foreach that reads its turn's element directly, against one that goes round. */
module Overruns {
  import opened Syntax
  import opened Semantics

  /** A walk that overran no list ran the same reading directly.  One that did
      failed there reading directly, at the same turn with everything the same,
      and the failure is the run's. */
  predicate Follows(direct: Run, walked: Run) {
    if walked.st.short.None? then direct == walked
    else direct.out == Failed(IndexError) && direct.st.short == walked.st.short
  }

  predicate FollowsArgs(direct: ArgsRun, walked: ArgsRun) {
    if walked.st.short.None? then direct == walked
    else direct.out == Failed(IndexError) && direct.st.short == walked.st.short
  }

  lemma ReadVarKeeps(p: Program, x: Name, s: State)
    ensures ReadVar(p, x, s).st.short == s.short
  {}

  lemma {:induction false} EvalFollows(p: Program, f: nat, e: Expr, s: State)
    requires s.short.None?
    ensures Follows(Eval(p, Direct, f, e, s), Eval(p, Walked, f, e, s))
    decreases f, 3, e, 1
  {
    hide EvalBinOp, EvalLogic, EvalCoalesce, EvalCall, EvalMethod, EvalAttr, EvalSub, ReadVar;
    var s0 := Enter(e.pos, s);
    match e
    case Lit(_, _) =>
    case Opaque(_, _) =>
    case Var(x, _) => ReadVarKeeps(p, x, s0);
    case Bin(_, _, _, _) => BinOpFollows(p, f, e, s0);
    case Logic(_, _, _, _) => LogicFollows(p, f, e, s0);
    case Coalesce(_, _, _) => CoalesceFollows(p, f, e, s0);
    case Call(_, _, _) => CallFollows(p, f, e, s0);
    case Method(_, _, _, _) => MethodFollows(p, f, e, s0);
    case Attr(_, _, _) => AttrFollows(p, f, e, s0);
    case Sub(_, _, _, _) => SubFollows(p, f, e, s0);
  }

  lemma {:induction false} BinOpFollows(p: Program, f: nat, e: Expr, s: State)
    requires s.short.None? && e.Bin?
    ensures Follows(EvalBinOp(p, Direct, f, e, s), EvalBinOp(p, Walked, f, e, s))
    decreases f, 3, e, 0
  {
    hide Eval;
    EvalFollows(p, f, e.left, s);
    var a := Eval(p, Walked, f, e.left, s);
    if a.out.Normal? && a.st.short.None? { EvalFollows(p, f, e.right, a.st); }
  }

  lemma {:induction false} LogicFollows(p: Program, f: nat, e: Expr, s: State)
    requires s.short.None? && e.Logic?
    ensures Follows(EvalLogic(p, Direct, f, e, s), EvalLogic(p, Walked, f, e, s))
    decreases f, 3, e, 0
  {
    hide Eval;
    EvalFollows(p, f, e.left, s);
    var a := Eval(p, Walked, f, e.left, s);
    if a.out.Normal? && a.st.short.None? { EvalFollows(p, f, e.right, a.st); }
  }

  lemma {:induction false} CoalesceFollows(p: Program, f: nat, e: Expr, s: State)
    requires s.short.None? && e.Coalesce?
    ensures Follows(EvalCoalesce(p, Direct, f, e, s), EvalCoalesce(p, Walked, f, e, s))
    decreases f, 3, e, 0
  {
    hide Eval;
    EvalFollows(p, f, e.left, s);
    var a := Eval(p, Walked, f, e.left, s);
    if a.out.Normal? && a.st.short.None? { EvalFollows(p, f, e.right, a.st); }
  }

  lemma {:induction false} CallFollows(p: Program, f: nat, e: Expr, s: State)
    requires s.short.None? && e.Call?
    ensures Follows(EvalCall(p, Direct, f, e, s), EvalCall(p, Walked, f, e, s))
    decreases f, 3, e, 0
  {
    hide EvalArgs, CallByName;
    ArgsFollow(p, f, e.args, s);
    var a := EvalArgs(p, Walked, f, e.args, s);
    if a.out.Normal? && a.st.short.None? { CallByNameFollows(p, f, e.name, a.vals, a.st); }
  }

  lemma {:induction false} AttrFollows(p: Program, f: nat, e: Expr, s: State)
    requires s.short.None? && e.Attr?
    ensures Follows(EvalAttr(p, Direct, f, e, s), EvalAttr(p, Walked, f, e, s))
    decreases f, 3, e, 0
  {
    hide Eval;
    EvalFollows(p, f, e.obj, s);
  }

  lemma {:induction false} SubFollows(p: Program, f: nat, e: Expr, s: State)
    requires s.short.None? && e.Sub?
    ensures Follows(EvalSub(p, Direct, f, e, s), EvalSub(p, Walked, f, e, s))
    decreases f, 3, e, 0
  {
    hide Eval;
    if e.spells.None? {
      EvalFollows(p, f, e.obj, s);
      var a := Eval(p, Walked, f, e.obj, s);
      if a.out.Normal? && a.st.short.None? {
        var b := Perform(p, BeforeIndex(a.out.v), a.st);
        if b.out.Normal? { EvalFollows(p, f, e.index, b.st); }
      }
    }
  }

  lemma {:induction false} MethodFollows(p: Program, f: nat, e: Expr, s: State)
    requires s.short.None? && e.Method?
    ensures Follows(EvalMethod(p, Direct, f, e, s), EvalMethod(p, Walked, f, e, s))
    decreases f, 3, e, 0
  {
    hide Eval, EvalArgs, CallOn;
    var c := Perform(p, CheckMutating(e), s);
    if c.out.Normal? {
      EvalFollows(p, f, e.obj, c.st);
      var o := Eval(p, Walked, f, e.obj, c.st);
      if o.out.Normal? && o.st.short.None? {
        ArgsFollow(p, f, e.args, o.st);
        var a := EvalArgs(p, Walked, f, e.args, o.st);
        if a.out.Normal? && a.st.short.None? { CallOnFollows(p, f, o.out.v, e.name, a.vals, a.st); }
      }
    }
  }

  lemma {:induction false} ArgsFollow(p: Program, f: nat, args: seq<Expr>, s: State)
    requires s.short.None?
    ensures FollowsArgs(EvalArgs(p, Direct, f, args, s), EvalArgs(p, Walked, f, args, s))
    decreases f, 3, args, 1
  {
    hide Eval;
    if args != [] {
      EvalFollows(p, f, args[0], s);
      var a := Eval(p, Walked, f, args[0], s);
      if a.out.Normal? && a.st.short.None? { ArgsFollow(p, f, args[1..], a.st); }
    }
  }

  lemma {:induction false} CallByNameFollows(p: Program, f: nat, name: Name, args: seq<Value>, s: State)
    requires s.short.None?
    ensures Follows(CallByName(p, Direct, f, name, args, s), CallByName(p, Walked, f, name, args, s))
    decreases f, 2
  {
    hide CallUser, Lookup;
    var v := Lookup(s.core, name);
    if v.Some? && v.value.FuncV? && v.value.id in p.funcs {
      CallUserFollows(p, f, v.value.id, args, s.(trace := s.trace + [Called(name, s.pos)]));
    }
  }

  lemma {:induction false} CallOnFollows(p: Program, f: nat, obj: Value, name: Name, args: seq<Value>, s: State)
    requires s.short.None?
    ensures Follows(CallOn(p, Direct, f, obj, name, args, s), CallOn(p, Walked, f, obj, name, args, s))
    decreases f, 2
  {
    hide CallUser;
    var id := p.ops.methodOf(obj, name, s.core);
    if id.Some? && id.value in p.funcs {
      CallUserFollows(p, f, id.value, [obj] + args, s.(trace := s.trace + [Called(name, s.pos)]));
    }
  }

  lemma {:induction false} CallUserFollows(p: Program, f: nat, id: nat, args: seq<Value>, s: State)
    requires s.short.None? && id in p.funcs
    ensures Follows(CallUser(p, Direct, f, id, args, s), CallUser(p, Walked, f, id, args, s))
    decreases f, 1
  {
    hide EvalStmts;
    match p.ops.bindArgs(id, args, s.core)
    case Refused(_) =>
    case Bound(frame, frozen) =>
      var inner := s.core.(frames := [frame], base := if s.core.base == [] then s.core.frames else s.core.base,
                           frozen := frozen, pure := p.funcs[id].pure);
      StmtsFollow(p, f, p.funcs[id].body, s.(core := inner));
  }

  lemma {:induction false} WalkStmtsFollow(p: Program, f: nat, b: seq<Stmt>, last: Value, s: State)
    requires s.short.None?
    ensures Follows(WalkStmts(p, Direct, f, b, last, s), WalkStmts(p, Walked, f, b, last, s))
    decreases f, 3, b, 1
  {
    hide WalkStmt;
    if b != [] {
      StmtFollows(p, f, b[0], s);
      var a := WalkStmt(p, Walked, f, b[0], s);
      if a.out.Normal? && a.st.short.None? { WalkStmtsFollow(p, f, b[1..], a.out.v, a.st); }
    }
  }

  lemma {:induction false} StmtFollows(p: Program, f: nat, t: Stmt, s: State)
    requires s.short.None?
    ensures Follows(WalkStmt(p, Direct, f, t, s), WalkStmt(p, Walked, f, t, s))
    decreases f, 3, t, 3
  {
    hide StmtBody;
    BodyFollows(p, f, t, Enter(t.At(), s));
  }

  lemma {:induction false} BodyFollows(p: Program, f: nat, t: Stmt, s: State)
    requires s.short.None?
    ensures Follows(StmtBody(p, Direct, f, t, s), StmtBody(p, Walked, f, t, s))
    decreases f, 3, t, 2
  {
    hide Eval, WalkReturn, WalkIf, WalkLet, WalkForEach, WalkAssign, WhileLoop;
    match t
    case ExprStmt(e, _) => EvalFollows(p, f, e, s);
    case Return(_, _) => ReturnFollows(p, f, t, s);
    case If(_, _, _, _) => IfFollows(p, f, t, s);
    case Let(_, _, _, _, _, _) => LetFollows(p, f, t, s);
    case While(cond, body, tag, _) => WhileFollows(p, f, cond, body, tag, s);
    case ForEach(_, _, _, _, _) => ForEachFollows(p, f, t, s);
    case Assign(_, _) => AssignFollows(p, f, t, s);
    case Leave(_, _, _) =>
    case OpaqueStmt(_, _) =>
  }

  lemma {:induction false} ReturnFollows(p: Program, f: nat, t: Stmt, s: State)
    requires s.short.None? && t.Return?
    ensures Follows(WalkReturn(p, Direct, f, t, s), WalkReturn(p, Walked, f, t, s))
    decreases f, 3, t, 1
  {
    hide Eval;
    if t.value.Some? { EvalFollows(p, f, t.value.value, s); }
  }

  lemma {:induction false} IfFollows(p: Program, f: nat, t: Stmt, s: State)
    requires s.short.None? && t.If?
    ensures Follows(WalkIf(p, Direct, f, t, s), WalkIf(p, Walked, f, t, s))
    decreases f, 3, t, 1
  {
    hide Eval, EvalStmts, WalkAlt;
    EvalFollows(p, f, t.cond, s);
    var a := Eval(p, Walked, f, t.cond, s);
    if a.out.Normal? && a.st.short.None? {
      StmtsFollow(p, f, t.cons, a.st);
      AltFollows(p, f, t.alt, a.st);
    }
  }

  lemma {:induction false} LetFollows(p: Program, f: nat, t: Stmt, s: State)
    requires s.short.None? && t.Let?
    ensures Follows(WalkLet(p, Direct, f, t, s), WalkLet(p, Walked, f, t, s))
    decreases f, 3, t, 1
  {
    hide Eval;
    var a := Perform(p, LetPre(t.note, t.name), s);
    if a.out.Normal? { EvalFollows(p, f, t.init, a.st); }
  }

  lemma {:induction false} AltFollows(p: Program, f: nat, alt: Alt, s: State)
    requires s.short.None?
    ensures Follows(WalkAlt(p, Direct, f, alt, s), WalkAlt(p, Walked, f, alt, s))
    decreases f, 3, alt, 1
  {
    hide Eval, EvalStmts;
    match alt
    case NoAlt =>
    case Else(body) => StmtsFollow(p, f, body, s);
    case Elif(cond, body, rest) =>
      EvalFollows(p, f, cond, s);
      var a := Eval(p, Walked, f, cond, s);
      if a.out.Normal? && a.st.short.None? {
        StmtsFollow(p, f, body, a.st);
        AltFollows(p, f, rest, a.st);
      }
  }

  lemma {:induction false} WhileFollows(p: Program, f: nat, cond: Expr, body: seq<Stmt>, tag: Option<Name>, s: State)
    requires s.short.None?
    ensures Follows(WhileLoop(p, Direct, f, cond, body, tag, s), WhileLoop(p, Walked, f, cond, body, tag, s))
    decreases f, 0
  {
    hide Eval, LoopTurn;
    if f != 0 {
      EvalFollows(p, f - 1, cond, s);
      var a := Eval(p, Walked, f - 1, cond, s);
      if a.out.Normal? && a.st.short.None? && p.ops.truth(a.out.v) {
        TurnFollows(p, f - 1, body, tag, a.st);
        var c := LoopTurn(p, Walked, f - 1, body, tag, a.st);
        if c.out.Normal? && c.st.short.None? { WhileFollows(p, f - 1, cond, body, tag, c.st); }
      }
    }
  }

  lemma {:induction false} TurnFollows(p: Program, f: nat, body: seq<Stmt>, tag: Option<Name>, s: State)
    requires s.short.None?
    ensures Follows(LoopTurn(p, Direct, f, body, tag, s), LoopTurn(p, Walked, f, body, tag, s))
    decreases f, 1
  {
    hide EvalStmts;
    StmtsFollow(p, f, body, PushLoop(s, tag));
  }

  lemma {:induction false} SetupFollows(p: Program, f: nat, name: Name, iterable: Expr, s: State)
    requires s.short.None?
    ensures Follows(ForSetup(p, Direct, f, name, iterable, s), ForSetup(p, Walked, f, name, iterable, s))
    decreases f, 3, iterable, 2
  {
    hide Eval;
    EvalFollows(p, f, iterable, s);
  }

  lemma {:induction false} ForEachFollows(p: Program, f: nat, t: Stmt, s: State)
    requires s.short.None? && t.ForEach?
    ensures Follows(WalkForEach(p, Direct, f, t, s), WalkForEach(p, Walked, f, t, s))
    decreases f, 3, t, 1
  {
    hide ForSetup, ForTurns;
    SetupFollows(p, f, t.name, t.iterable, s);
    var a := ForSetup(p, Walked, f, t.name, t.iterable, s);
    if a.out.Normal? && a.out.v.ListV? && a.st.short.None? {
      ForTurnsFollow(p, f, t.name, t.body, t.tag, a.out.v.h, 0, |ListOf(a.st.core, a.out.v.h)|, a.st);
    }
  }

  lemma {:induction false} ForTurnsFollow(p: Program, f: nat, name: Name, body: seq<Stmt>, tag: Option<Name>, h: nat,
                                          idx: nat, n: nat, s: State)
    requires s.short.None?
    ensures Follows(ForTurns(p, Direct, f, name, body, tag, h, idx, n, s),
                    ForTurns(p, Walked, f, name, body, tag, h, idx, n, s))
    decreases f, 2, if idx < n then n - idx else 0
  {
    hide LoopTurn;
    var list := ListOf(s.core, h);
    if idx < n && idx < |list| {
      assert idx % |list| == idx;
      var s1 := Define(s, name, list[idx]);
      TurnFollows(p, f, body, tag, s1);
      var a := LoopTurn(p, Walked, f, body, tag, s1);
      if a.out.Normal? && a.st.short.None? { ForTurnsFollow(p, f, name, body, tag, h, idx + 1, n, a.st); }
    }
  }

  lemma {:induction false} PreFollows(p: Program, f: nat, target: Expr, s: State)
    requires s.short.None?
    ensures FollowsArgs(AssignPre(p, Direct, f, target, s), AssignPre(p, Walked, f, target, s))
    decreases f, 3, target, 2
  {
    hide Eval;
    var a := Perform(p, CheckAssignable(target), Enter(target.pos, s));
    if a.out.Normal? && (target.Attr? || target.Sub?) {
      EvalFollows(p, f, target.obj, a.st);
      var c := Eval(p, Walked, f, target.obj, a.st);
      if c.out.Normal? && c.st.short.None? && target.Sub? { EvalFollows(p, f, target.index, c.st); }
    }
  }

  lemma {:induction false} InPlaceFollows(p: Program, f: nat, t: Stmt, s: State)
    requires s.short.None? && t.Assign?
    ensures Follows(AssignInPlace(p, Direct, f, t, s), AssignInPlace(p, Walked, f, t, s))
    decreases f, 3, t, 0
  {
    hide Eval, PlaceSide;
    if PlaceSide(p, t).Some? {
      EvalFollows(p, f, t.target, s);
      var a := Eval(p, Walked, f, t.target, s);
      if a.out.Normal? && a.st.short.None? {
        EvalFollows(p, f, if PlaceSide(p, t).value then t.rhs.right else t.rhs.left, a.st);
      }
    }
  }

  lemma {:induction false} AssignFollows(p: Program, f: nat, t: Stmt, s: State)
    requires s.short.None? && t.Assign?
    ensures Follows(WalkAssign(p, Direct, f, t, s), WalkAssign(p, Walked, f, t, s))
    decreases f, 3, t, 1
  {
    hide Eval, AssignPre, AssignInPlace;
    PreFollows(p, f, t.target, s);
    var a := AssignPre(p, Walked, f, t.target, s);
    if a.out.Normal? && a.st.short.None? {
      InPlaceFollows(p, f, t, a.st);
      var c := AssignInPlace(p, Walked, f, t, a.st);
      if c.out.Normal? && c.st.short.None? { EvalFollows(p, f, t.rhs, c.st); }
    }
  }

  /** `eval_stmts` both ways, from a state in which nothing was overrun. */
  lemma {:induction false} StmtsFollow(p: Program, f: nat, b: seq<Stmt>, s: State)
    requires s.short.None?
    ensures Follows(EvalStmts(p, Direct, f, b, s), EvalStmts(p, Walked, f, b, s))
    decreases f, 0
  {
    hide WalkStmts;
    if f != 0 { WalkStmtsFollow(p, f - 1, b, NoneV, s); }
  }
}
