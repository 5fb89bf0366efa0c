/** The program text the evaluator walks, and the state it walks it in.
    Modelled on interp/ast.py and on the fields of the evaluator that a
    block of statements reads or writes. */
module Syntax {
  type Name = string

  datatype Option<+T> = None | Some(value: T)

  /** What a node carries as `pos`; a node may carry none. */
  datatype Pos = NoPos | At(line: nat, col: nat)

  const DISCARD_NAME: Name := "_"

  datatype Expr =
    | Lit(n: int, pos: Pos)
    | Var(name: Name, pos: Pos)
    | Bin(op: string, left: Expr, right: Expr, pos: Pos)
    | Logic(isAnd: bool, left: Expr, right: Expr, pos: Pos)
    | Coalesce(left: Expr, right: Expr, pos: Pos)
    | Call(name: Name, args: seq<Expr>, pos: Pos)
    | Method(obj: Expr, name: Name, args: seq<Expr>, pos: Pos)
    | Attr(obj: Expr, name: Name, pos: Pos)
      // `spells` is the type the subscript writes, where it writes one
    | Sub(obj: Expr, index: Expr, spells: Option<Name>, pos: Pos)
      // any other kind of expression
    | Opaque(id: nat, pos: Pos)

  /** The elif chain of an if: what follows the first branch. */
  datatype Alt = NoAlt | Else(body: seq<Stmt>) | Elif(cond: Expr, body: seq<Stmt>, rest: Alt)

  datatype Stmt =
    | ExprStmt(expr: Expr, pos: Pos)
    | Return(value: Option<Expr>, pos: Pos)
    | If(cond: Expr, cons: seq<Stmt>, alt: Alt, pos: Pos)
      // `note` stands for what else the let says: its type and its unit
    | Let(name: Name, init: Expr, borrows: bool, isConst: bool, note: nat, pos: Pos)
    | While(cond: Expr, body: seq<Stmt>, tag: Option<Name>, pos: Pos)
    | ForEach(name: Name, iterable: Expr, body: seq<Stmt>, tag: Option<Name>, pos: Pos)
      // the parser answers a bare tuple for an assignment, so it has no position
    | Assign(target: Expr, rhs: Expr)
    | Leave(isBreak: bool, tag: Option<Name>, pos: Pos)
    | OpaqueStmt(id: nat, pos: Pos)
  {
    function At(): Pos { if Assign? then NoPos else pos }
  }

  datatype Value =
    | NoneV
    | IntV(n: int)
    | BoolV(b: bool)
    | TypeV(name: Name)
    | FuncV(id: nat)      // a user function, where the program holds one of this number
    | RefV(cell: nat)     // a reference, read by following it
    | ListV(h: nat)       // the live element list an iterable answers with
    | WrapV(id: nat)      // an optional or a measured value: an operator unwraps it
    | ObjV(id: nat)

  datatype Error =
    | UseOfMoved(name: Name)
    | LentOut(name: Name)
    | ImpureRead(name: Name)
    | Undefined(name: Name)
    | DiscardRead
    | NotTruth(v: Value)
    | CannotRedefine(name: Name)
    | OutsideLoop
    | NoSuchLoop(tag: Name)
    | IndexError
    | ZeroDivision
    | ConstantStore       // the tuple of a block's constants does not take an item
    | Raised(code: nat)

  datatype Held = HeldLet | HeldBorrowed | HeldForEach | HeldMoved | HeldLent | HeldLentMut

  type Frame = map<Name, Value>

  /** What a name is bound to in the innermost frame that has it. */
  function LookupFrames(frames: seq<Frame>, x: Name): Option<Value> {
    if frames == [] then None
    else if x in frames[|frames| - 1] then Some(frames[|frames| - 1][x])
    else LookupFrames(frames[..|frames| - 1], x)
  }

  /** Everything a statement can read or write except where it stands. */
  datatype Core = Core(
    frames: seq<Frame>,            // the frames of the call in hand, innermost last
    base: seq<Frame>,              // the frames of the environment it was made in
    frozen: map<Name, Held>,
    pure: Option<Name>,
    loops: seq<Option<Name>>,
    lists: map<nat, seq<Value>>,   // the live element lists
    world: int)

  datatype Event = Called(name: Name, pos: Pos)

  /** A foreach's turn that read its element where the list no longer reached:
      the list, the turn's number, and everything as it then was. */
  datatype Overrun = Overrun(h: nat, idx: nat, core: Core)

  /** `pos` is `_last_pos`; `trace` records where each call was made from, and
      `short` the first turn of the run that overran its list. */
  datatype State = State(core: Core, pos: Pos, trace: seq<Event>, short: Option<Overrun>)

  datatype Outcome =
    | Normal(v: Value)
    | Returned(v: Value)
    | Broke(tag: Option<Name>)
    | Continued(tag: Option<Name>)
    | Failed(error: Error)
    | OutOfFuel

  datatype Run = Run(out: Outcome, st: State)

  /** What is done by code outside this model, each with what it is handed. */
  datatype Act =
    | Operate(op: string, left: Value, right: Value)
    | CallValue(f: Value, args: seq<Value>)
    | Answer(func: nat, v: Value)
    | CallMethod(obj: Value, name: Name, args: seq<Value>)
    | CheckMutating(node: Expr)
    | GetAttr(obj: Value, name: Name)
    | BeforeIndex(obj: Value)
    | AtIndex(obj: Value, index: Value)
    | Deref(cell: nat)
    | OpaqueExpr(id: nat)
    | RunOpaque(id: nat)
    | LetPre(note: nat, name: Name)
    | LetBind(note: nat, name: Name, v: Value, borrowed: Value)
    | CheckAssignable(target: Expr)
    | Store(target: Expr, pre: seq<Value>, v: Value)
    | WriteInPlace(op: string, onLeft: bool, mine: Value, other: Value)
    | Iterate(v: Value, name: Name)

  /** An act answers an outcome, a new state of things, and the position it
      left behind where it left one. */
  datatype Effect = Effect(out: Outcome, core: Core, pos: Pos)

  datatype Binding = Bound(frame: Frame, frozen: map<Name, Held>) | Refused(error: Error)

  datatype Coalesced = UseLeft(v: Value) | ReadRight

  datatype Ops = Ops(
    act: (Act, Core) -> Effect,
    unwrap: nat -> Value,
    truth: Value -> bool,
    typeName: Name -> bool,
    mutableGlobal: (Name, Core) -> bool,
    intOp: (string, int, int) -> Outcome,
    coalesce: Value -> Coalesced,
    methodOf: (Value, Name, Core) -> Option<nat>,
    bindArgs: (nat, seq<Value>, Core) -> Binding,
    writable: (Value, Core) -> bool,
    listable: string -> bool)

  datatype Func = Func(body: seq<Stmt>, pure: Option<Name>)

  /** `table` holds the operators the evaluator keeps a handler for. */
  datatype Program = Program(ops: Ops, funcs: map<nat, Func>, table: set<string>)
}
