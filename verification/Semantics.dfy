/** Running a block: the walk of interp/eval.py, the code a compiled block
    is made of, and the one place a block is handed to either. */
module Semantics {
  import opened Syntax
  import opened Target
  import opened CodeGen

  /** `Direct` is the walk with one line changed: a foreach reads the element of
      its turn as compiled code does. */
  datatype Mode = Walked | Direct | Compiled

  // ---- names ---------------------------------------------------------

  function Innermost(frames: seq<Frame>): Frame {
    if frames == [] then map[] else frames[|frames| - 1]
  }

  /** `Env.lookup`: the call's own frames, then those it was made in. */
  function Lookup(c: Core, x: Name): Option<Value> {
    var own := LookupFrames(c.frames, x);
    if own.Some? then own else LookupFrames(c.base, x)
  }

  function ListOf(c: Core, h: nat): seq<Value> { if h in c.lists then c.lists[h] else [] }

  // ---- small steps shared by both forms -------------------------------

  function Enter(pos: Pos, s: State): State { if pos.NoPos? then s else s.(pos := pos) }

  function Perform(p: Program, a: Act, s: State): Run {
    var e := p.ops.act(a, s.core);
    Run(e.out, State(e.core, if e.pos.NoPos? then s.pos else e.pos, s.trace, s.short))
  }

  function Unwrap(p: Program, v: Value): Value { if v.WrapV? then p.ops.unwrap(v.id) else v }

  /** `_logic_bool(_unwrap_operand(v))` */
  function LogicBool(p: Program, v: Value): Outcome {
    var u := Unwrap(p, v);
    if u.BoolV? then Normal(u) else Failed(NotTruth(u))
  }

  /** `_apply_operator`: two plain integers take the table's handler. */
  function Apply(p: Program, op: string, a: Value, b: Value, s: State): Run {
    if a.IntV? && b.IntV? && op in p.table then Run(p.ops.intOp(op, a.n, b.n), s)
    else Perform(p, Operate(op, a, b), s)
  }

  function Follow(p: Program, v: Value, s: State): Run {
    if v.RefV? then Perform(p, Deref(v.cell), s) else Run(Normal(v), s)
  }

  function FrozenRefusal(x: Name, held: Option<Held>): Option<Error> {
    match held
    case Some(HeldMoved) => Some(UseOfMoved(x))
    case Some(HeldLentMut) => Some(LentOut(x))
    case _ => None
  }

  function HeldAs(c: Core, x: Name): Option<Held> { if x in c.frozen then Some(c.frozen[x]) else None }

  predicate ImpureToRead(p: Program, x: Name, c: Core) {
    c.pure.Some? && x !in Innermost(c.frames) && p.ops.mutableGlobal(x, c)
  }

  /** `_ee_VarRef` in a program of one module. */
  function ReadVar(p: Program, x: Name, s: State): Run {
    if x == DISCARD_NAME then Run(Failed(DiscardRead), s)
    else if FrozenRefusal(x, HeldAs(s.core, x)).Some? then
      Run(Failed(FrozenRefusal(x, HeldAs(s.core, x)).value), s)
    else if ImpureToRead(p, x, s.core) then Run(Failed(ImpureRead(x)), s)
    else match Lookup(s.core, x)
      case Some(v) => Follow(p, v, s)
      case None => Run(if p.ops.typeName(x) then Normal(TypeV(x)) else Failed(Undefined(x)), s)
  }

  function LetRefusal(name: Name, isConst: bool, c: Core): Option<Error> {
    if name in c.frozen && c.frozen[name] != HeldForEach && !isConst
    then Some(CannotRedefine(name)) else None
  }

  function Define(s: State, x: Name, v: Value): State {
    var fs := s.core.frames;
    if fs == [] then s
    else s.(core := s.core.(frames := fs[..|fs| - 1] + [fs[|fs| - 1][x := v]]))
  }

  /** What entering and leaving a foreach does to its name. */
  function Hold(s: State, x: Name): State { s.(core := s.core.(frozen := s.core.frozen[x := HeldForEach])) }

  function Release(s: State, x: Name): State { s.(core := s.core.(frozen := s.core.frozen - {x})) }

  /** A turn overran its list; only the first of a run is kept. */
  function Mark(s: State, h: nat, idx: nat): State {
    if s.short.Some? then s else s.(short := Some(Overrun(h, idx, s.core)))
  }

  /** What was marked stays marked. */
  predicate Keeps(s: State, end: State) { s.short.Some? ==> end.short == s.short }

  predicate SamePlace(a: Expr, b: Expr) {
    if a.Var? && b.Var? then a.name == b.name
    else if a.Attr? && b.Attr? then a.name == b.name && SamePlace(a.obj, b.obj)
    else false
  }

  /** A `break` or a `continue`. */
  function LeaveLoop(isBreak: bool, tag: Option<Name>, s: State): Run {
    if s.core.loops == [] then Run(Failed(OutsideLoop), s)
    else if tag.Some? && tag !in s.core.loops then Run(Failed(NoSuchLoop(tag.value)), s)
    else Run(if isBreak then Broke(tag) else Continued(tag), s)
  }

  predicate IsMine(signal: Option<Name>, tag: Option<Name>) { signal.None? || signal == tag }

  function PushLoop(s: State, tag: Option<Name>): State {
    s.(core := s.core.(loops := s.core.loops + [tag]))
  }

  function PopLoop(s: State): State {
    var ls := s.core.loops;
    s.(core := s.core.(loops := if ls == [] then [] else ls[..|ls| - 1]))
  }

  // ---- the walk --------------------------------------------------------

  /** `eval_expr`: the node's position, and then its kind's handler. */
  function Eval(p: Program, m: Mode, f: nat, e: Expr, s0: State): (end: Run)
    ensures m.Walked? ==> Keeps(s0, end.st)
    decreases f, 3, e, 1
  {
    var s := Enter(e.pos, s0);
    match e
    case Lit(n, _) => Run(Normal(IntV(n)), s)
    case Var(x, _) => ReadVar(p, x, s)
    case Bin(_, _, _, _) => EvalBinOp(p, m, f, e, s)
    case Logic(_, _, _, _) => EvalLogic(p, m, f, e, s)
    case Coalesce(_, _, _) => EvalCoalesce(p, m, f, e, s)
    case Call(_, _, _) => EvalCall(p, m, f, e, s)
    case Method(_, _, _, _) => EvalMethod(p, m, f, e, s)
    case Attr(_, _, _) => EvalAttr(p, m, f, e, s)
    case Sub(_, _, _, _) => EvalSub(p, m, f, e, s)
    case Opaque(id, _) => Perform(p, OpaqueExpr(id), s)
  }

  /** `_ee_BinOp`, an operator strict in both operands ... */
  function EvalBinOp(p: Program, m: Mode, f: nat, e: Expr, s: State): (end: Run)
    requires e.Bin?
    ensures m.Walked? ==> Keeps(s, end.st)
    decreases f, 3, e, 0
  {
    var a := Eval(p, m, f, e.left, s);
    if !a.out.Normal? then a else
    var b := Eval(p, m, f, e.right, a.st);
    if !b.out.Normal? then b else
    Apply(p, e.op, a.out.v, b.out.v, Enter(e.pos, b.st))
  }

  /** ... its short circuit, the right side not read when the left answers ... */
  function EvalLogic(p: Program, m: Mode, f: nat, e: Expr, s: State): (end: Run)
    requires e.Logic?
    ensures m.Walked? ==> Keeps(s, end.st)
    decreases f, 3, e, 0
  {
    var a := Eval(p, m, f, e.left, s);
    if !a.out.Normal? then a else
    var t := LogicBool(p, a.out.v);
    if t.Failed? || t.v == BoolV(!e.isAnd) then Run(t, a.st) else
    var b := Eval(p, m, f, e.right, a.st);
    if !b.out.Normal? then b else
    Run(LogicBool(p, b.out.v), Enter(e.pos, b.st))
  }

  /** ... and `??`. */
  function EvalCoalesce(p: Program, m: Mode, f: nat, e: Expr, s: State): (end: Run)
    requires e.Coalesce?
    ensures m.Walked? ==> Keeps(s, end.st)
    decreases f, 3, e, 0
  {
    var a := Eval(p, m, f, e.left, s);
    if !a.out.Normal? then a else
    match p.ops.coalesce(a.out.v)
    case UseLeft(v) => Run(Normal(v), a.st)
    case ReadRight => Eval(p, m, f, e.right, a.st)
  }

  function EvalCall(p: Program, m: Mode, f: nat, e: Expr, s: State): (end: Run)
    requires e.Call?
    ensures m.Walked? ==> Keeps(s, end.st)
    decreases f, 3, e, 0
  {
    var a := EvalArgs(p, m, f, e.args, s);
    if !a.out.Normal? then Run(a.out, a.st) else
    CallByName(p, m, f, e.name, a.vals, a.st)
  }

  function EvalMethod(p: Program, m: Mode, f: nat, e: Expr, s: State): (end: Run)
    requires e.Method?
    ensures m.Walked? ==> Keeps(s, end.st)
    decreases f, 3, e, 0
  {
    var c := Perform(p, CheckMutating(e), s);
    if !c.out.Normal? then c else
    var o := Eval(p, m, f, e.obj, c.st);
    if !o.out.Normal? then o else
    var a := EvalArgs(p, m, f, e.args, o.st);
    if !a.out.Normal? then Run(a.out, a.st) else
    CallOn(p, m, f, o.out.v, e.name, a.vals, a.st)
  }

  function EvalAttr(p: Program, m: Mode, f: nat, e: Expr, s: State): (end: Run)
    requires e.Attr?
    ensures m.Walked? ==> Keeps(s, end.st)
    decreases f, 3, e, 0
  {
    var o := Eval(p, m, f, e.obj, s);
    if !o.out.Normal? then o else Perform(p, GetAttr(o.out.v, e.name), o.st)
  }

  /** A subscript; one that spells a type is settled before anything is read. */
  function EvalSub(p: Program, m: Mode, f: nat, e: Expr, s: State): (end: Run)
    requires e.Sub?
    ensures m.Walked? ==> Keeps(s, end.st)
    decreases f, 3, e, 0
  {
    if e.spells.Some? then Run(Normal(TypeV(e.spells.value)), s) else
    var o := Eval(p, m, f, e.obj, s);
    if !o.out.Normal? then o else
    var b := Perform(p, BeforeIndex(o.out.v), o.st);
    if !b.out.Normal? then b else
    var i := Eval(p, m, f, e.index, b.st);
    if !i.out.Normal? then i else
    Perform(p, AtIndex(b.out.v, i.out.v), i.st)
  }

  /** A run of expressions, each handing on its value; `out` is `Normal` where all did. */
  datatype ArgsRun = ArgsRun(out: Outcome, vals: seq<Value>, st: State)

  function EvalArgs(p: Program, m: Mode, f: nat, args: seq<Expr>, s: State): (end: ArgsRun)
    ensures m.Walked? ==> Keeps(s, end.st)
    decreases f, 3, args, 0
  {
    if args == [] then ArgsRun(Normal(NoneV), [], s) else
    var a := Eval(p, m, f, args[0], s);
    if !a.out.Normal? then ArgsRun(a.out, [], a.st) else
    var rest := EvalArgs(p, m, f, args[1..], a.st);
    if !rest.out.Normal? then rest else
    ArgsRun(Normal(NoneV), [a.out.v] + rest.vals, rest.st)
  }

  /** `_c_call` */
  function CallByName(p: Program, m: Mode, f: nat, name: Name, args: seq<Value>, s: State): (end: Run)
    ensures m.Walked? ==> Keeps(s, end.st)
    decreases f, 2
  {
    var s1 := s.(trace := s.trace + [Called(name, s.pos)]);
    match Lookup(s1.core, name)
    case None => Run(Failed(Undefined(name)), s1)
    case Some(v) =>
      if v.FuncV? && v.id in p.funcs then CallUser(p, m, f, v.id, args, s1)
      else Perform(p, CallValue(v, args), s1)
  }

  /** `_c_method`: a struct's own method is a user function taking the object first. */
  function CallOn(p: Program, m: Mode, f: nat, obj: Value, name: Name, args: seq<Value>, s: State): (end: Run)
    ensures m.Walked? ==> Keeps(s, end.st)
    decreases f, 2
  {
    var s1 := s.(trace := s.trace + [Called(name, s.pos)]);
    match p.ops.methodOf(obj, name, s1.core)
    case None => Perform(p, CallMethod(obj, name, args), s1)
    case Some(id) =>
      if id in p.funcs then CallUser(p, m, f, id, [obj] + args, s1)
      else Perform(p, CallMethod(obj, name, args), s1)
  }

  /** `_call_user_func`: a frame of its own on the module's, and the caller's
      back afterwards.  A caller with no frames under its own is the module's
      own code, and what the call did to the module's frames it did to those. */
  function CallUser(p: Program, m: Mode, f: nat, id: nat, args: seq<Value>, s: State): (end: Run)
    requires id in p.funcs
    ensures m.Walked? ==> Keeps(s, end.st)
    decreases f, 1
  {
    match p.ops.bindArgs(id, args, s.core)
    case Refused(e) => Run(Failed(e), s)
    case Bound(frame, frozen) =>
      var top := s.core.base == [];
      var inner := s.core.(frames := [frame], base := if top then s.core.frames else s.core.base,
                           frozen := frozen, pure := p.funcs[id].pure);
      var r := EvalStmts(p, m, f, p.funcs[id].body, s.(core := inner));
      var back := r.st.(core := r.st.core.(frames := if top then r.st.core.base else s.core.frames,
                                           base := if top then [] else r.st.core.base,
                                           frozen := s.core.frozen, pure := s.core.pure));
      if r.out.Normal? || r.out.Returned? then Perform(p, Answer(id, r.out.v), back)
      else Run(r.out, back)
  }

  /** `eval_stmts`: the one place every block passes through.  An empty block
      is not compiled. */
  function EvalStmts(p: Program, m: Mode, f: nat, b: seq<Stmt>, s: State): (end: Run)
    ensures m.Walked? ==> Keeps(s, end.st)
    decreases f, 0
  {
    if f == 0 then Run(OutOfFuel, s)
    else if m.Compiled? && b != [] then RunBlock(p, f - 1, b, s)
    else WalkStmts(p, m, f - 1, b, NoneV, s)
  }

  function WalkStmts(p: Program, m: Mode, f: nat, b: seq<Stmt>, last: Value, s: State): (end: Run)
    ensures m.Walked? ==> Keeps(s, end.st)
    decreases f, 3, b, 0
  {
    if b == [] then Run(Normal(last), s) else
    var r := WalkStmt(p, m, f, b[0], s);
    if !r.out.Normal? then r else WalkStmts(p, m, f, b[1..], r.out.v, r.st)
  }

  /** `_eval_stmt` */
  function WalkStmt(p: Program, m: Mode, f: nat, t: Stmt, s: State): (end: Run)
    ensures m.Walked? ==> Keeps(s, end.st)
    decreases f, 3, t, 3
  {
    StmtBody(p, m, f, t, Enter(t.At(), s))
  }

  /** The handler a statement's kind has. */
  function StmtBody(p: Program, m: Mode, f: nat, t: Stmt, s: State): (end: Run)
    ensures m.Walked? ==> Keeps(s, end.st)
    decreases f, 3, t, 2
  {
    match t
    case ExprStmt(e, _) => Eval(p, m, f, e, s)
    case Return(_, _) => WalkReturn(p, m, f, t, s)
    case If(_, _, _, _) => WalkIf(p, m, f, t, s)
    case Let(_, _, _, _, _, _) => WalkLet(p, m, f, t, s)
    case While(cond, body, tag, _) => WhileLoop(p, m, f, cond, body, tag, s)
    case ForEach(_, _, _, _, _) => WalkForEach(p, m, f, t, s)
    case Assign(_, _) => WalkAssign(p, m, f, t, s)
    case Leave(isBreak, tag, _) => LeaveLoop(isBreak, tag, s)
    case OpaqueStmt(id, _) => Perform(p, RunOpaque(id), s)
  }

  function WalkReturn(p: Program, m: Mode, f: nat, t: Stmt, s: State): (end: Run)
    requires t.Return?
    ensures m.Walked? ==> Keeps(s, end.st)
    decreases f, 3, t, 1
  {
    if t.value.None? then Run(Returned(NoneV), s) else
    var r := Eval(p, m, f, t.value.value, s);
    if !r.out.Normal? then r else Run(Returned(r.out.v), r.st)
  }

  /** `_eval_if` */
  function WalkIf(p: Program, m: Mode, f: nat, t: Stmt, s: State): (end: Run)
    requires t.If?
    ensures m.Walked? ==> Keeps(s, end.st)
    decreases f, 3, t, 1
  {
    var c := Eval(p, m, f, t.cond, s);
    if !c.out.Normal? then c
    else if p.ops.truth(c.out.v) then EvalStmts(p, m, f, t.cons, c.st)
    else WalkAlt(p, m, f, t.alt, c.st)
  }

  /** `_es_VarDef` */
  function WalkLet(p: Program, m: Mode, f: nat, t: Stmt, s: State): (end: Run)
    requires t.Let?
    ensures m.Walked? ==> Keeps(s, end.st)
    decreases f, 3, t, 1
  {
    var b := Perform(p, LetPre(t.note, t.name), s);
    if !b.out.Normal? then b
    else if t.name == DISCARD_NAME then
      var r := Eval(p, m, f, t.init, b.st);
      if !r.out.Normal? then r else Run(Normal(NoneV), r.st)
    else if LetRefusal(t.name, t.isConst, b.st.core).Some? then
      Run(Failed(LetRefusal(t.name, t.isConst, b.st.core).value), b.st)
    else
      var r := Eval(p, m, f, t.init, b.st);
      if !r.out.Normal? then r else
      Perform(p, LetBind(t.note, t.name, r.out.v, if t.borrows then BoolV(true) else b.out.v), r.st)
  }

  /** `_eval_foreach`, over one iterable and one plain name */
  function WalkForEach(p: Program, m: Mode, f: nat, t: Stmt, s: State): (end: Run)
    requires t.ForEach?
    ensures m.Walked? ==> Keeps(s, end.st)
    decreases f, 3, t, 1
  {
    var st := ForSetup(p, m, f, t.name, t.iterable, s);
    if !st.out.Normal? then st
    else if !st.out.v.ListV? then Run(Normal(NoneV), st.st)
    else
      var h := st.out.v.h;
      var r := ForTurns(p, m, f, t.name, t.body, t.tag, h, 0, |ListOf(st.st.core, h)|, st.st);
      Run(r.out, Release(r.st, t.name))
  }

  /** The generalized assignment. */
  function WalkAssign(p: Program, m: Mode, f: nat, t: Stmt, s: State): (end: Run)
    requires t.Assign?
    ensures m.Walked? ==> Keeps(s, end.st)
    decreases f, 3, t, 1
  {
    var pre := AssignPre(p, m, f, t.target, s);
    if !pre.out.Normal? then Run(pre.out, pre.st) else
    var done := AssignInPlace(p, m, f, t, pre.st);
    if !done.out.Normal? then done
    else if done.out.v == BoolV(true) then Run(Normal(NoneV), done.st)
    else
      var r := Eval(p, m, f, t.rhs, done.st);
      if !r.out.Normal? then r else Perform(p, Store(t.target, pre.vals, r.out.v), r.st)
  }

  /** The chain of `_eval_if` once a condition was false. */
  function WalkAlt(p: Program, m: Mode, f: nat, alt: Alt, s: State): (end: Run)
    ensures m.Walked? ==> Keeps(s, end.st)
    decreases f, 3, alt, 0
  {
    match alt
    case NoAlt => Run(Normal(NoneV), s)
    case Else(body) => EvalStmts(p, m, f, body, s)
    case Elif(cond, body, rest) =>
      var c := Eval(p, m, f, cond, s);
      if !c.out.Normal? then c
      else if p.ops.truth(c.out.v) then EvalStmts(p, m, f, body, c.st)
      else WalkAlt(p, m, f, rest, c.st)
  }

  function WhileLoop(p: Program, m: Mode, f: nat, cond: Expr, body: seq<Stmt>, tag: Option<Name>, s: State): (end: Run)
    ensures m.Walked? ==> Keeps(s, end.st)
    decreases f, 0
  {
    if f == 0 then Run(OutOfFuel, s) else
    var c := Eval(p, m, f - 1, cond, s);
    if !c.out.Normal? then c
    else if !p.ops.truth(c.out.v) then Run(Normal(NoneV), c.st)
    else
      var t := LoopTurn(p, m, f - 1, body, tag, c.st);
      if !t.out.Normal? then t
      else if t.out.v == BoolV(false) then Run(Normal(NoneV), t.st)
      else WhileLoop(p, m, f - 1, cond, body, tag, t.st)
  }

  /** `_run_loop_body`: `Normal(BoolV(go))` says whether the loop goes on. */
  function LoopTurn(p: Program, m: Mode, f: nat, body: seq<Stmt>, tag: Option<Name>, s: State): (end: Run)
    ensures m.Walked? ==> Keeps(s, end.st)
    decreases f, 1
  {
    var r := EvalStmts(p, m, f, body, PushLoop(s, tag));
    var s1 := PopLoop(r.st);
    match r.out
    case Normal(_) => Run(Normal(BoolV(true)), s1)
    case Continued(l) => if IsMine(l, tag) then Run(Normal(BoolV(true)), s1) else Run(r.out, s1)
    case Broke(l) => if IsMine(l, tag) then Run(Normal(BoolV(false)), s1) else Run(r.out, s1)
    case _ => Run(r.out, s1)
  }

  /** `_c_foreach_setup`: the list to walk, its name frozen. */
  function ForSetup(p: Program, m: Mode, f: nat, name: Name, iterable: Expr, s: State): (end: Run)
    ensures m.Walked? ==> Keeps(s, end.st)
    decreases f, 3, iterable, 2
  {
    var v := Eval(p, m, f, iterable, s);
    if !v.out.Normal? then v else
    var it := Perform(p, Iterate(v.out.v, name), v.st);
    if !it.out.Normal? || !it.out.v.ListV? then it
    else Run(it.out, Hold(it.st, name))
  }

  /** `_c_foreach_run`: how many turns is settled before the first; which
      element a turn binds is read off the list as it then is. */
  function ForTurns(p: Program, m: Mode, f: nat, name: Name, body: seq<Stmt>, tag: Option<Name>,
                    h: nat, idx: nat, n: nat, s: State): (end: Run)
    ensures m.Walked? ==> Keeps(s, end.st)
    decreases f, 2, if idx < n then n - idx else 0
  {
    if idx >= n then Run(Normal(NoneV), s) else
    var list := ListOf(s.core, h);
    var e := if m.Walked? then WalkElement(list, idx) else CompiledElement(list, idx);
    var s1 := if idx < |list| then s else Mark(s, h, idx);
    if !e.Normal? then Run(e, s1) else
    var t := LoopTurn(p, m, f, body, tag, Define(s1, name, e.v));
    if !t.out.Normal? then t
    else if t.out.v == BoolV(false) then Run(Normal(NoneV), t.st)
    else ForTurns(p, m, f, name, body, tag, h, idx + 1, n, t.st)
  }

  /** `seq[idx % len(seq)]`, as the walk reads a turn's element ... */
  function WalkElement(list: seq<Value>, idx: nat): Outcome {
    if |list| == 0 then Failed(ZeroDivision) else Normal(list[idx % |list|])
  }

  /** ... and `seq[idx]`, as a compiled block reads it. */
  function CompiledElement(list: seq<Value>, idx: nat): Outcome {
    if idx < |list| then Normal(list[idx]) else Failed(IndexError)
  }

  /** `_c_assign_pre`: the target's own parts, in order. */
  function AssignPre(p: Program, m: Mode, f: nat, target: Expr, s0: State): (end: ArgsRun)
    ensures m.Walked? ==> Keeps(s0, end.st)
    decreases f, 3, target, 2
  {
    var s := Enter(target.pos, s0);
    var c := Perform(p, CheckAssignable(target), s);
    if !c.out.Normal? then ArgsRun(c.out, [], c.st)
    else if target.Attr? || target.Sub? then
      var o := Eval(p, m, f, target.obj, c.st);
      if !o.out.Normal? then ArgsRun(o.out, [], o.st)
      else if target.Attr? then ArgsRun(Normal(NoneV), [o.out.v], o.st)
      else
        var i := Eval(p, m, f, target.index, o.st);
        if !i.out.Normal? then ArgsRun(i.out, [], i.st)
        else ArgsRun(Normal(NoneV), [o.out.v, i.out.v], i.st)
    else ArgsRun(Normal(NoneV), [], c.st)
  }

  /** Which side of an assigned operator names the place being written, where
      one does and the operator is one that may be carried out there. */
  function PlaceSide(p: Program, t: Stmt): Option<bool>
    requires t.Assign?
    ensures PlaceSide(p, t).Some? ==> t.rhs.Bin?
  {
    if !t.rhs.Bin? || !(t.target.Var? || t.target.Attr?) then None
    else if t.rhs.op != CONCAT && !p.ops.listable(t.rhs.op) then None
    else if SamePlace(t.target, t.rhs.left) then Some(true)
    else if t.rhs.op != CONCAT && SamePlace(t.target, t.rhs.right) then Some(false)
    else None
  }

  /** `_c_assign_in_place`: `Normal(BoolV(done))` says whether the assignment
      was carried out on the array the target names. */
  function AssignInPlace(p: Program, m: Mode, f: nat, t: Stmt, s: State): (end: Run)
    requires t.Assign?
    ensures m.Walked? ==> Keeps(s, end.st)
    decreases f, 3, t, 0
  {
    match PlaceSide(p, t)
    case None => Run(Normal(BoolV(false)), s)
    case Some(onLeft) =>
      var mine := Eval(p, m, f, t.target, s);
      if !mine.out.Normal? then mine
      else if !p.ops.writable(mine.out.v, mine.st.core) then Run(Normal(BoolV(false)), mine.st)
      else
        var other := Eval(p, m, f, if onLeft then t.rhs.right else t.rhs.left, mine.st);
        if !other.out.Normal? then other
        else Perform(p, WriteInPlace(t.rhs.op, onLeft, mine.out.v, other.out.v), other.st)
  }

  // ---- a compiled block ------------------------------------------------

  /** What a Python local of the block's function holds. */
  datatype Cell = V(v: Value) | Found(held: Option<Held>) | Flag(truth: bool) | Absent | Unset

  datatype Walking = NotWalking | Walking(h: nat, name: Name)

  datatype Regs = Regs(
    temps: map<nat, Cell>,
    result: Value,
    borrow: Value,       // b
    pre: seq<Value>,
    st: Walking,
    idx: nat)

  /** How code ends: on to the next line, at a Python `break`, or raising. */
  datatype Ctl = Next | BreakLoop | Stop(out: Outcome)

  datatype MRun = MRun(ctl: Ctl, r: Regs, s: State)

  function Temp(r: Regs, t: nat): Cell { if t in r.temps then r.temps[t] else Unset }

  function SetTemp(r: Regs, t: nat, c: Cell): Regs { r.(temps := r.temps[t := c]) }

  function Read(ks: seq<Const>, r: Regs, o: Operand): Value {
    match o
    case K(i) => if i < |ks| && ks[i].CValue? then ks[i].v else NoneV
    case T(i) => if Temp(r, i).V? then Temp(r, i).v else NoneV
  }

  function ReadAll(ks: seq<Const>, r: Regs, os: seq<Operand>): seq<Value> {
    if os == [] then [] else [Read(ks, r, os[0])] + ReadAll(ks, r, os[1..])
  }

  function KPos(ks: seq<Const>, k: nat): Pos { if k < |ks| && ks[k].CPos? then ks[k].pos else NoPos }
  function KName(ks: seq<Const>, k: nat): Name { if k < |ks| && ks[k].CName? then ks[k].name else "" }
  function KOp(ks: seq<Const>, k: nat): string { if k < |ks| && ks[k].COp? then ks[k].op else "" }
  function KHandles(ks: seq<Const>, k: nat): string { if k < |ks| && ks[k].CHandler? then ks[k].handles else "" }
  function KExpr(ks: seq<Const>, k: nat): Expr { if k < |ks| && ks[k].CExpr? then ks[k].e else Opaque(0, NoPos) }
  function KStmt(ks: seq<Const>, k: nat): Stmt { if k < |ks| && ks[k].CStmt? then ks[k].t else OpaqueStmt(0, NoPos) }
  function KBlock(ks: seq<Const>, k: nat): seq<Stmt> { if k < |ks| && ks[k].CBlock? then ks[k].b else [] }

  /** A step whose answer, where it has one, goes to a temporary. */
  function ToTemp(run: Run, r: Regs, t: nat): MRun {
    if run.out.Normal? then MRun(Next, SetTemp(r, t, V(run.out.v)), run.st) else MRun(Stop(run.out), r, run.st)
  }

  function ToResult(run: Run, r: Regs): MRun {
    if run.out.Normal? then MRun(Next, r.(result := run.out.v), run.st) else MRun(Stop(run.out), r, run.st)
  }

  function Nothing(run: Run, r: Regs): MRun {
    if run.out.Normal? then MRun(Next, r, run.st) else MRun(Stop(run.out), r, run.st)
  }

  function Fail(e: Error, r: Regs, s: State): MRun { MRun(Stop(Failed(e)), r, s) }

  predicate NameOp(op: Op) {
    op.WritePos? || op.FrozenGet? || op.FrozenRefuse? || op.Probe? || op.PureCheck? || op.LookupName? || op.FollowRef?
  }

  predicate ValueOp(op: Op) {
    op.TruthOf? || op.SetBool? || op.MkLogic? || op.IntOp? || op.ApplyOp?
  }

  predicate NodeOp(op: Op) {
    op.CallNode? || op.PreMethod? || op.MethodNode? || op.AttrNode? || op.SubStart? || op.SubBefore? || op.SubIndex? ||
    op.EvalNode?
  }

  predicate EndOp(op: Op) {
    op.SetResult? || op.ResultNone? || op.RaiseReturn? || op.RaiseNone? || op.BreakUnless?
  }

  predicate StmtOp(op: Op) {
    op.PreLet? || op.LetFrozen? || op.BindLet? || op.PreAssign? || op.StoreTo?
  }

  /** The lines of a read. */
  function StepName(p: Program, ks: seq<Const>, op: Op, r: Regs, s: State): MRun
    requires NameOp(op)
  {
    match op
    case WritePos(k) => MRun(Next, r, Enter(KPos(ks, k), s))
    case FrozenGet(t, k) => MRun(Next, SetTemp(r, t, Found(HeldAs(s.core, KName(ks, k)))), s)
    case FrozenRefuse(t, k) =>
      var e := if Temp(r, t).Found? then FrozenRefusal(KName(ks, k), Temp(r, t).held) else None;
      if e.Some? then Fail(e.value, r, s) else MRun(Next, r, s)
    case Probe(t, k) =>
      var frame := Innermost(s.core.frames);
      var x := KName(ks, k);
      MRun(Next, SetTemp(r, t, if x in frame then V(frame[x]) else Absent), s)
    case PureCheck(k) =>
      if ImpureToRead(p, KName(ks, k), s.core) then Fail(ImpureRead(KName(ks, k)), r, s) else MRun(Next, r, s)
    case LookupName(t, k) =>
      var x := KName(ks, k);
      (match Lookup(s.core, x)
       case Some(v) => MRun(Next, SetTemp(r, t, V(v)), s)
       case None => if p.ops.typeName(x) then MRun(Next, SetTemp(r, t, V(TypeV(x))), s)
                    else Fail(Undefined(x), r, s))
    case FollowRef(t) => ToTemp(Follow(p, Read(ks, r, T(t)), s), r, t)
  }

  /** Operators and truth values. */
  function StepValue(p: Program, ks: seq<Const>, op: Op, r: Regs, s: State): MRun
    requires ValueOp(op)
  {
    match op
    case TruthOf(t, a) =>
      var b := LogicBool(p, Read(ks, r, a));
      if b.Normal? && b.v.BoolV? then MRun(Next, SetTemp(r, t, Flag(b.v.b)), s) else MRun(Stop(b), r, s)
    case SetBool(t, truth) => MRun(Next, SetTemp(r, t, V(BoolV(truth))), s)
    case MkLogic(t, a) => ToTemp(Run(LogicBool(p, Read(ks, r, a)), s), r, t)
    case IntOp(t, h, k, a, b) =>
      var x, y := Read(ks, r, a), Read(ks, r, b);
      if x.IntV? && y.IntV? then ToTemp(Run(p.ops.intOp(KHandles(ks, h), x.n, y.n), s), r, t)
      else ToTemp(Apply(p, KOp(ks, k), x, y, s), r, t)
    case ApplyOp(t, k, a, b) => ToTemp(Apply(p, KOp(ks, k), Read(ks, r, a), Read(ks, r, b), s), r, t)
  }

  /** Calls, attributes, subscripts, and nodes handed to the evaluator. */
  function StepNode(p: Program, f: nat, ks: seq<Const>, op: Op, r: Regs, s: State): MRun
    requires NodeOp(op)
    decreases f, 4, op, 0
  {
    match op
    case CallNode(t, k, args) =>
      var e := KExpr(ks, k);
      ToTemp(CallByName(p, Compiled, f, if e.Call? then e.name else "", ReadAll(ks, r, args), s), r, t)
    case PreMethod(k) => Nothing(Perform(p, CheckMutating(KExpr(ks, k)), Enter(KExpr(ks, k).pos, s)), r)
    case MethodNode(t, k, o, args) =>
      var e := KExpr(ks, k);
      ToTemp(CallOn(p, Compiled, f, Read(ks, r, o), if e.Method? then e.name else "", ReadAll(ks, r, args), s), r, t)
    case AttrNode(t, k, o) =>
      var e := KExpr(ks, k);
      ToTemp(Perform(p, GetAttr(Read(ks, r, o), if e.Attr? then e.name else ""), s), r, t)
    case SubStart(t, k) =>
      var e := KExpr(ks, k);
      MRun(Next, SetTemp(r, t, if e.Sub? && e.spells.Some? then V(TypeV(e.spells.value)) else Absent), Enter(e.pos, s))
    case SubBefore(o) =>
      var b := Perform(p, BeforeIndex(Read(ks, r, o)), s);
      if !b.out.Normal? then MRun(Stop(b.out), r, b.st)
      else if o.K? then Fail(ConstantStore, r, b.st)
      else ToTemp(b, r, o.i)
    case SubIndex(t, o, a) => ToTemp(Perform(p, AtIndex(Read(ks, r, o), Read(ks, r, a)), s), r, t)
    case EvalNode(t, k) => ToTemp(Eval(p, Compiled, f, KExpr(ks, k), s), r, t)
  }

  /** Where a statement's value goes. */
  function StepEnd(p: Program, ks: seq<Const>, op: Op, r: Regs, s: State): MRun
    requires EndOp(op)
  {
    match op
    case SetResult(o) => MRun(Next, r.(result := Read(ks, r, o)), s)
    case ResultNone => MRun(Next, r.(result := NoneV), s)
    case RaiseReturn(o) => MRun(Stop(Returned(Read(ks, r, o))), r, s)
    case RaiseNone => MRun(Stop(Returned(NoneV)), r, s)
    case BreakUnless(o) => if p.ops.truth(Read(ks, r, o)) then MRun(Next, r, s) else MRun(BreakLoop, r, s)
  }

  /** A let's and an assignment's own work. */
  function StepStmt(p: Program, f: nat, ks: seq<Const>, op: Op, r: Regs, s: State): MRun
    requires StmtOp(op)
    decreases f, 4, op, 0
  {
    match op
    case PreLet(k) =>
      var t := KStmt(ks, k);
      var b := Perform(p, if t.Let? then LetPre(t.note, t.name) else LetPre(0, ""), s);
      if b.out.Normal? then MRun(Next, r.(borrow := b.out.v), b.st) else MRun(Stop(b.out), r, b.st)
    case LetFrozen(k) =>
      var t := KStmt(ks, k);
      var e := if t.Let? then LetRefusal(t.name, t.isConst, s.core) else None;
      if e.Some? then Fail(e.value, r, s) else MRun(Next, r, s)
    case BindLet(k, o, asBorrow) =>
      var t := KStmt(ks, k);
      var b := if asBorrow then BoolV(true) else r.borrow;
      ToResult(Perform(p, if t.Let? then LetBind(t.note, t.name, Read(ks, r, o), b) else LetBind(0, "", NoneV, b), s),
               r)
    case PreAssign(k) =>
      var pre := AssignPre(p, Compiled, f, KExpr(ks, k), s);
      if pre.out.Normal? then MRun(Next, r.(pre := pre.vals), pre.st) else MRun(Stop(pre.out), r, pre.st)
    case StoreTo(k, o) => ToResult(Perform(p, Store(KExpr(ks, k), r.pre, Read(ks, r, o)), s), r)
  }

  /** What runs other blocks. */
  function StepBlock(p: Program, f: nat, ks: seq<Const>, op: Op, r: Regs, s: State): MRun
    requires !NameOp(op) && !ValueOp(op) && !NodeOp(op) && !EndOp(op) && !StmtOp(op)
    decreases f, 4, op, 0
  {
    match op
    case RunStmts(k) => ToResult(EvalStmts(p, Compiled, f, KBlock(ks, k), s), r)
    case Turn(body, k) =>
      var t := KStmt(ks, k);
      var turn := LoopTurn(p, Compiled, f, KBlock(ks, body), if t.While? || t.ForEach? then t.tag else None, s);
      if !turn.out.Normal? then MRun(Stop(turn.out), r, turn.st)
      else MRun(if turn.out.v == BoolV(false) then BreakLoop else Next, r, turn.st)
    case SetupFor(k) =>
      var t := KStmt(ks, k);
      var st := ForSetup(p, Compiled, f, if t.ForEach? then t.name else "",
                         if t.ForEach? then t.iterable else KExpr([], 0), s);
      if !st.out.Normal? then MRun(Stop(st.out), r, st.st)
      else MRun(Next, r.(st := if st.out.v.ListV? && t.ForEach? then Walking(st.out.v.h, t.name) else NotWalking),
                st.st)
    case DefineElement(k) =>
      var e := CompiledElement(if r.st.Walking? then ListOf(s.core, r.st.h) else [], r.idx);
      if e.Normal? then MRun(Next, r, Define(s, KName(ks, k), e.v))
      else MRun(Stop(e), r, if r.st.Walking? then Mark(s, r.st.h, r.idx) else s)
    case EndFor => MRun(Next, r, if r.st.Walking? then Release(s, r.st.name) else s)
    case Handle(k) => ToResult(StmtBody(p, Compiled, f, KStmt(ks, k), s), r)
    case EvalStmtNode(k) => ToResult(WalkStmt(p, Compiled, f, KStmt(ks, k), s), r)
  }

  /** `Normal(BoolV(holds))`: only the in-place test does anything. */
  function Check(p: Program, f: nat, ks: seq<Const>, test: Test, r: Regs, s: State): Run
    decreases f, 4, test, 0
  {
    match test
    case IsMissing(t) => Run(Normal(BoolV(Temp(r, t).Absent?)), s)
    case IsNone(t) => Run(Normal(BoolV(Temp(r, t).Absent?)), s)
    case IsTrue(t) => Run(Normal(BoolV(Temp(r, t) == Flag(true))), s)
    case IsFalse(t) => Run(Normal(BoolV(Temp(r, t) == Flag(false))), s)
    case Truth(o) => Run(Normal(BoolV(p.ops.truth(Read(ks, r, o)))), s)
    case NoSequence => Run(Normal(BoolV(r.st.NotWalking?)), s)
    case InPlace(target, rhs) => AssignInPlace(p, Compiled, f, Assign(KExpr(ks, target), KExpr(ks, rhs)), s)
  }

  function Exec(p: Program, f: nat, ks: seq<Const>, cs: seq<Code>, r: Regs, s: State): MRun
    decreases f, 4, cs, 0
  {
    if cs == [] then MRun(Next, r, s) else
    var one := ExecOne(p, f, ks, cs[0], r, s);
    if one.ctl.Next? then Exec(p, f, ks, cs[1..], one.r, one.s) else one
  }

  function ExecOne(p: Program, f: nat, ks: seq<Const>, c: Code, r: Regs, s: State): MRun
    decreases f, 4, c, 0
  {
    match c
    case Do(op) =>
      if NameOp(op) then StepName(p, ks, op, r, s)
      else if ValueOp(op) then StepValue(p, ks, op, r, s)
      else if NodeOp(op) then StepNode(p, f, ks, op, r, s)
      else if EndOp(op) then StepEnd(p, ks, op, r, s)
      else if StmtOp(op) then StepStmt(p, f, ks, op, r, s)
      else StepBlock(p, f, ks, op, r, s)
    case IfElse(test, thn, els) =>
      var b := Check(p, f, ks, test, r, s);
      if !b.out.Normal? then MRun(Stop(b.out), r, b.st)
      else if b.out.v == BoolV(true) then Exec(p, f, ks, thn, r, b.st)
      else Exec(p, f, ks, els, r, b.st)
    case Loop(body) => ExecLoop(p, f, ks, body, r, s)
    case ForRange(body) =>
      ExecFor(p, f, ks, body, 0, if r.st.Walking? then |ListOf(s.core, r.st.h)| else 0, r, s)
    case Try(body, fin) =>
      var b := Exec(p, f, ks, body, r, s);
      var e := Exec(p, f, ks, fin, b.r, b.s);
      if e.ctl.Next? then MRun(b.ctl, e.r, e.s) else e
  }

  function ExecLoop(p: Program, f: nat, ks: seq<Const>, body: seq<Code>, r: Regs, s: State): MRun
    decreases f, 0
  {
    if f == 0 then MRun(Stop(OutOfFuel), r, s) else
    var one := Exec(p, f - 1, ks, body, r, s);
    if one.ctl.BreakLoop? then MRun(Next, one.r, one.s)
    else if one.ctl.Next? then ExecLoop(p, f - 1, ks, body, one.r, one.s)
    else one
  }

  function ExecFor(p: Program, f: nat, ks: seq<Const>, body: seq<Code>, idx: nat, n: nat, r: Regs, s: State): MRun
    decreases f, 4, body, if idx < n then 1 + n - idx else 1
  {
    if idx >= n then MRun(Next, r, s) else
    var one := Exec(p, f, ks, body, r.(idx := idx), s);
    if one.ctl.BreakLoop? then MRun(Next, one.r, one.s)
    else if one.ctl.Next? then ExecFor(p, f, ks, body, idx + 1, n, one.r, one.s)
    else one
  }

  const START: Regs := Regs(map[], NoneV, NoneV, [], NotWalking, 0)

  /** A block's function, called: its lines run from the top, and what
      `result` holds at the end is the answer. */
  function RunBlock(p: Program, f: nat, b: seq<Stmt>, s: State): Run
    decreases f, 5
  {
    var g := GenStmts(p.table, b, [], 0);
    var m := Exec(p, f, g.k, g.code, START, s);
    match m.ctl
    case Next => Run(Normal(m.r.result), m.s)
    case BreakLoop => Run(Normal(m.r.result), m.s)
    case Stop(out) => Run(out, m.s)
  }
}
