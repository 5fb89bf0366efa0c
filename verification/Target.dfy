/** The code a compiled block is made of, and the indented lines it is
    written down as. */
module Target {
  import opened Syntax

  const CONCAT: string := "⧺"

  /** One entry of the tuple of constants a block's function is handed. */
  datatype Const =
    | CPos(pos: Pos)
    | CName(name: Name)
    | CValue(v: Value)
    | COp(op: string)
    | CHandler(handles: string)
    | CExpr(e: Expr)
    | CStmt(t: Stmt)
    | CBlock(b: seq<Stmt>)

  /** `K[i]` or a temporary. */
  datatype Operand = K(i: nat) | T(i: nat)

  /** One line that is a statement of its own.  `k` fields index the constants. */
  datatype Op =
    | WritePos(k: nat)                  // ev._last_pos = K[k], and the call stack's copy of it
    | FrozenGet(t: nat, k: nat)         // t = ev._frozen_vars.get(K[k])
    | FrozenRefuse(t: nat, k: nat)      // if t is MOVED or t is LENT_MUT: ev._c_frozen_refuse(K[k], t)
    | Probe(t: nat, k: nat)             // t = ev.env._frames[-1].get(K[k], M)
    | PureCheck(k: nat)                 // if ev._pure_func_name is not None: ev._c_pure_check(K[k])
    | LookupName(t: nat, k: nat)        // t = ev._c_lookup(K[k])
    | FollowRef(t: nat)                 // if isinstance(t, Reference): t = t.get()
    | TruthOf(t: nat, a: Operand)       // t = ev._logic_bool(_unwrap_operand(a))
    | SetBool(t: nat, truth: bool)      // t = mk_bool(truth)
    | MkLogic(t: nat, a: Operand)       // t = mk_bool(ev._logic_bool(_unwrap_operand(a)))
    | IntOp(t: nat, h: nat, k: nat, a: Operand, b: Operand)
                                        // if both are IntValue: t = K[h](a, b)
                                        // else: t = ev._apply_operator(K[k], a, b)
    | ApplyOp(t: nat, k: nat, a: Operand, b: Operand)
    | CallNode(t: nat, k: nat, args: seq<Operand>)
    | PreMethod(k: nat)
    | MethodNode(t: nat, k: nat, o: Operand, args: seq<Operand>)
    | AttrNode(t: nat, k: nat, o: Operand)
    | SubStart(t: nat, k: nat)
    | SubBefore(o: Operand)             // o = ev._c_sub_before(o)
    | SubIndex(t: nat, o: Operand, a: Operand)
    | EvalNode(t: nat, k: nat)          // t = ev.eval_expr(K[k])
    | SetResult(o: Operand)
    | ResultNone
    | RaiseReturn(o: Operand)
    | RaiseNone
    | RunStmts(k: nat)                  // result = ev.eval_stmts(K[k])
    | PreLet(k: nat)                    // b = ev._c_vardef_pre(K[k])
    | LetFrozen(k: nat)
    | BindLet(k: nat, o: Operand, asBorrow: bool)
    | BreakUnless(o: Operand)           // if not to_bool(o): break
    | Turn(body: nat, k: nat)           // if not ev._run_loop_body(K[body], K[k]): break
    | SetupFor(k: nat)                  // st = ev._c_foreach_setup(K[k])
    | DefineElement(k: nat)             // ev.env.define(K[k], seq[idx])
    | EndFor                            // ev._c_foreach_end(st[3])
    | PreAssign(k: nat)                 // pre = ev._c_assign_pre(K[k])
    | StoreTo(k: nat, o: Operand)       // result = ev._c_assign_post(K[k], o, pre)
    | Handle(k: nat)                    // result = handler(ev, K[k])
    | EvalStmtNode(k: nat)              // result = ev._eval_stmt(K[k])

  datatype Test =
    | IsMissing(t: nat)                 // if t is M:
    | IsNone(t: nat)                    // if t is None:
    | IsTrue(t: nat)                    // if t:
    | IsFalse(t: nat)                   // if not t:
    | Truth(o: Operand)                 // if to_bool(o):
    | NoSequence                        // if st is None:
    | InPlace(target: nat, rhs: nat)    // if ev._c_assign_in_place(K[target], K[rhs]):

  /** Code with its nesting in hand.  An `IfElse` whose `els` is empty has no else. */
  datatype Code =
    | Do(op: Op)
    | IfElse(test: Test, thn: seq<Code>, els: seq<Code>)
    | Loop(body: seq<Code>)             // while True:
    | ForRange(body: seq<Code>)         // for idx in range(len(seq)):
    | Try(body: seq<Code>, fin: seq<Code>)

  // ---- written down ----------------------------------------------------

  datatype Text = Simple(op: Op) | IfHead(test: Test) | ElseHead | LoopHead | ForHead | TryHead | FinallyHead

  /** `"    " * depth + text` */
  datatype Line = Line(depth: nat, text: Text)

  /** The lines of a run of code at a depth. */
  function Lines(cs: seq<Code>, d: nat): seq<Line>
    decreases cs, 0
  {
    if cs == [] then [] else LinesOf(cs[0], d) + Lines(cs[1..], d)
  }

  function LinesOf(c: Code, d: nat): seq<Line>
    decreases c, 0
  {
    match c
    case Do(op) => [Line(d, Simple(op))]
    case IfElse(test, thn, els) =>
      [Line(d, IfHead(test))] + Lines(thn, d + 1)
      + (if els == [] then [] else [Line(d, ElseHead)] + Lines(els, d + 1))
    case Loop(body) => [Line(d, LoopHead)] + Lines(body, d + 1)
    case ForRange(body) => [Line(d, ForHead)] + Lines(body, d + 1)
    case Try(body, fin) =>
      [Line(d, TryHead)] + Lines(body, d + 1) + [Line(d, FinallyHead)] + Lines(fin, d + 1)
  }

  // ---- read back ---------------------------------------------------------

  datatype Parsed = Parsed(code: seq<Code>, rest: seq<Line>) | SyntaxError

  predicate HeadsAt(ls: seq<Line>, d: nat, t: Text) { ls != [] && ls[0] == Line(d, t) }

  /** A suite: a block one deeper, which Python does not let be empty. */
  function Suite(ls: seq<Line>, d: nat): (r: Parsed)
    ensures r.Parsed? ==> |r.rest| <= |ls|
    decreases |ls|, 1
  {
    var r := Block(ls, d);
    if r.Parsed? && r.code == [] then SyntaxError else r
  }

  predicate Continues(t: Text) { t.ElseHead? || t.FinallyHead? }

  /** How Python reads indented lines: a block at depth d is the statements
      that start at d, each header taking the deeper suite below it. */
  function Block(ls: seq<Line>, d: nat): (r: Parsed)
    ensures r.Parsed? ==> |r.rest| <= |ls|
    decreases |ls|, 0
  {
    if ls == [] || ls[0].depth < d then Parsed([], ls)
    else if ls[0].depth > d || Continues(ls[0].text) then SyntaxError
    else
      var one := Statement(ls, d);
      if one.SyntaxError? then SyntaxError else
      var more := Block(one.rest, d);
      if more.SyntaxError? then SyntaxError else Parsed(one.code + more.code, more.rest)
  }

  /** One statement, with its suites. */
  function Statement(ls: seq<Line>, d: nat): (r: Parsed)
    requires ls != [] && !Continues(ls[0].text)
    ensures r.Parsed? ==> |r.rest| < |ls|
    decreases |ls|, 0, 0
  {
    match ls[0].text
    case Simple(op) => Parsed([Do(op)], ls[1..])
    case IfHead(test) =>
      var thn := Suite(ls[1..], d + 1);
      if thn.SyntaxError? then SyntaxError
      else if !HeadsAt(thn.rest, d, ElseHead) then Parsed([IfElse(test, thn.code, [])], thn.rest)
      else
        var els := Suite(thn.rest[1..], d + 1);
        if els.SyntaxError? then SyntaxError else Parsed([IfElse(test, thn.code, els.code)], els.rest)
    case LoopHead =>
      var body := Suite(ls[1..], d + 1);
      if body.SyntaxError? then SyntaxError else Parsed([Loop(body.code)], body.rest)
    case ForHead =>
      var body := Suite(ls[1..], d + 1);
      if body.SyntaxError? then SyntaxError else Parsed([ForRange(body.code)], body.rest)
    case TryHead =>
      var body := Suite(ls[1..], d + 1);
      if body.SyntaxError? || !HeadsAt(body.rest, d, FinallyHead) then SyntaxError
      else
        var fin := Suite(body.rest[1..], d + 1);
        if fin.SyntaxError? then SyntaxError else Parsed([Try(body.code, fin.code)], fin.rest)
  }

  /** Code no suite of which is empty. */
  predicate Full(cs: seq<Code>)
    decreases cs, 0
  {
    forall i :: 0 <= i < |cs| ==> FullOf(cs[i])
  }

  predicate FullOf(c: Code)
    decreases c, 0
  {
    match c
    case Do(_) => true
    case IfElse(_, thn, els) => thn != [] && Full(thn) && Full(els)
    case Loop(body) => body != [] && Full(body)
    case ForRange(body) => body != [] && Full(body)
    case Try(body, fin) => body != [] && fin != [] && Full(body) && Full(fin)
  }

  /** Nothing a block at depth d would go on with. */
  predicate Ends(ls: seq<Line>, d: nat) { ls == [] || ls[0].depth < d }

  /** What may stand after a complete statement at depth d. */
  predicate Follows(ls: seq<Line>, d: nat) { Ends(ls, d) || (ls[0].depth == d && !Continues(ls[0].text)) }

  lemma LinesStart(cs: seq<Code>, d: nat)
    requires cs != []
    ensures Lines(cs, d) != [] && Lines(cs, d)[0].depth == d && !Continues(Lines(cs, d)[0].text)
  {
    assert |LinesOf(cs[0], d)| > 0;
  }

  /** Reading back what was written down gives the code that was meant: the
      depths alone say which suite every line, and every else, belongs to. */
  lemma {:induction false} LayoutRoundTrip(cs: seq<Code>, d: nat, tail: seq<Line>)
    requires Full(cs) && Ends(tail, d)
    ensures Block(Lines(cs, d) + tail, d) == Parsed(cs, tail)
    decreases cs, 1
  {
    if cs == [] {
      assert Lines(cs, d) + tail == tail;
    } else {
      var rest := Lines(cs[1..], d) + tail;
      assert Lines(cs, d) + tail == LinesOf(cs[0], d) + rest;
      LinesStart(cs, d);
      LayoutRoundTrip(cs[1..], d, tail);
      if cs[1..] == [] {
        assert rest == tail;
      } else {
        LinesStart(cs[1..], d);
      }
      StatementRoundTrip(cs[0], d, rest);
      assert cs == [cs[0]] + cs[1..];
    }
  }

  lemma {:induction false} SuiteRoundTrip(cs: seq<Code>, d: nat, ls: seq<Line>, tail: seq<Line>)
    requires Full(cs) && cs != [] && Ends(tail, d) && ls == Lines(cs, d) + tail
    ensures Suite(ls, d) == Parsed(cs, tail)
    decreases cs, 2
  {
    LayoutRoundTrip(cs, d, tail);
  }

  lemma {:induction false} IfRoundTrip(c: Code, d: nat, rest: seq<Line>)
    requires c.IfElse? && FullOf(c) && Follows(rest, d)
    ensures Statement(LinesOf(c, d) + rest, d) == Parsed([c], rest)
    decreases c, 0
  {
    var ls := LinesOf(c, d) + rest;
    var tail := if c.els == [] then rest else [Line(d, ElseHead)] + Lines(c.els, d + 1) + rest;
    assert ls[1..] == Lines(c.thn, d + 1) + tail;
    SuiteRoundTrip(c.thn, d + 1, ls[1..], tail);
    if c.els != [] {
      assert tail[1..] == Lines(c.els, d + 1) + rest;
      SuiteRoundTrip(c.els, d + 1, tail[1..], rest);
    }
  }

  lemma {:induction false} TryRoundTrip(c: Code, d: nat, rest: seq<Line>)
    requires c.Try? && FullOf(c) && Follows(rest, d)
    ensures Statement(LinesOf(c, d) + rest, d) == Parsed([c], rest)
    decreases c, 0
  {
    var ls := LinesOf(c, d) + rest;
    var tail := [Line(d, FinallyHead)] + Lines(c.fin, d + 1) + rest;
    assert ls[1..] == Lines(c.body, d + 1) + tail;
    SuiteRoundTrip(c.body, d + 1, ls[1..], tail);
    assert tail[1..] == Lines(c.fin, d + 1) + rest;
    SuiteRoundTrip(c.fin, d + 1, tail[1..], rest);
  }

  lemma {:induction false} LoopRoundTrip(c: Code, d: nat, rest: seq<Line>)
    requires c.Loop? || c.ForRange?
    requires FullOf(c) && Follows(rest, d)
    ensures Statement(LinesOf(c, d) + rest, d) == Parsed([c], rest)
    decreases c, 0
  {
    var ls := LinesOf(c, d) + rest;
    assert ls[1..] == Lines(c.body, d + 1) + rest;
    SuiteRoundTrip(c.body, d + 1, ls[1..], rest);
  }

  lemma {:induction false} StatementRoundTrip(c: Code, d: nat, rest: seq<Line>)
    requires FullOf(c) && Follows(rest, d)
    ensures Statement(LinesOf(c, d) + rest, d) == Parsed([c], rest)
    decreases c, 1
  {
    match c
    case Do(op) =>
      assert (LinesOf(c, d) + rest)[1..] == rest;
    case IfElse(_, _, _) => IfRoundTrip(c, d, rest);
    case Try(_, _) => TryRoundTrip(c, d, rest);
    case _ => LoopRoundTrip(c, d, rest);
  }
}
