/** What the `@noreturn` check accepts and what it is worth
    (interp/__main__.py). */
module Noreturn {
  datatype Label = Unnamed | Called(name: string)

  /** Statements, and the pieces their expressions are worked out in.  Since an
      `if` or a `match` may stand as a value and holds statements, an expression
      is what it works out, in order: operations, calls, and such values; what a
      short circuit may skip stands under an `If` with no else.  A call, a
      `std.exit` and an `assert(false)` are `meant` where the name is the one the
      check takes it for and, for a call, what is handed over runs the body:
      neither too little, which answers a function of the rest, nor an array of
      nothing to thread over. */
  datatype Stmt =
    | Work                                     // an operation: goes on, fails, or stops the program
    | Propagate                                // `?`
    | Call(callee: string, args: seq<Stmt>, meant: bool)
    | Parts(parts: seq<Stmt>)                  // a let, an assignment, an expression of any other kind
    | Return(value: seq<Stmt>)
    | Exit(args: seq<Stmt>, meant: bool)
    | AssertFalse(message: seq<Stmt>, meant: bool)
    | Expect(stmt: Stmt)
    | If(branches: seq<Branch>, hasElse: bool)
    | Match(subject: seq<Stmt>, branches: seq<Branch>)
    | While(endless: bool, cond: seq<Stmt>, label_: Label, body: seq<Stmt>)
    | ForEach(over: seq<Stmt>, label_: Label, body: seq<Stmt>)
    | Break(target: Label)
    | Continue(target: Label)
    | Catch(body: seq<Stmt>)

  /** A branch of an `if` chain, or an arm of a `match`; an else and an arm have
      nothing to work out first. */
  datatype Branch = Branch(cond: seq<Stmt>, body: seq<Stmt>)

  // ---- the check -------------------------------------------------------------------

  /** `_leaves_for_good` */
  predicate Leaves(s: Stmt, gone: set<string>)
    decreases s
  {
    match s
    case Expect(t) => Leaves(t, gone)
    case Return(_) => true
    case Exit(_, _) => true
    case AssertFalse(_, _) => true
    case Call(f, _, _) => f in gone
    case If(branches, hasElse) => hasElse && forall i :: 0 <= i < |branches| ==> BlockLeaves(branches[i].body, gone)
    case Match(_, arms) => forall i :: 0 <= i < |arms| ==> BlockLeaves(arms[i].body, gone)
    case While(endless, _, _, body) => endless && !BlockBreaks(body)
    case _ => false
  }

  /** `_block_leaves` */
  predicate BlockLeaves(b: seq<Stmt>, gone: set<string>)
    decreases b
  {
    exists i :: 0 <= i < |b| && Leaves(b[i], gone)
  }

  /** `_block_breaks` */
  predicate BlockBreaks(b: seq<Stmt>)
    decreases b
  {
    exists i :: 0 <= i < |b| && Breaks(b[i], true)
  }

  /** ... looking through one `@expect` and no more. */
  predicate Breaks(s: Stmt, through: bool)
    decreases s
  {
    match s
    case Expect(t) => through && Breaks(t, false)
    case Break(_) => true
    case If(branches, _) => exists i :: 0 <= i < |branches| && BlockBreaks(branches[i].body)
    case Match(_, arms) => exists i :: 0 <= i < |arms| && BlockBreaks(arms[i].body)
    case _ => false
  }

  // ---- how a statement may end ----------------------------------------------------------

  datatype Outcome = Passes | Returns | Exits | Fails | BreaksTo(target: Label) | ContinuesTo(target: Label)

  /** How a call of each function may end for its caller, given the loops in hand
      where it is made: the loops of a caller are in hand in what it calls. */
  type Calls = (string, set<Label>) -> set<Outcome>

  /** `_is_mine`: whether a signal is for the loop of this label. */
  predicate Mine(target: Label, label_: Label) { target.Unnamed? || target == label_ }

  /** Whether there is a loop for a break or a continue to act on. */
  predicate InHand(target: Label, hand: set<Label>) { if target.Unnamed? then hand != {} else target in hand }

  function Signal(o: Outcome, hand: set<Label>): Outcome
    requires o.BreaksTo? || o.ContinuesTo?
  {
    if InHand(o.target, hand) then o else Fails
  }

  /** How a call may end once its arguments are there. */
  function CallWays(f: string, meant: bool, calls: Calls, hand: set<Label>): set<Outcome> {
    if meant then calls(f, hand) else {Passes, Fails, Exits}
  }

  /** How working out an operation may end. */
  predicate Ending(o: Outcome) { o == Passes || o == Fails || o == Exits }

  /** Whether some run, of no more than `n` turns of any loop, ends this way.  An
      `@expect` goes on after a failure, and a `catch` returns after one; both let
      everything else through. */
  predicate Can(s: Stmt, o: Outcome, n: nat, calls: Calls, hand: set<Label>)
    decreases n, s, 2
  {
    match s
    case Work => Ending(o)
    case Propagate => o == Passes || o == Returns || o == Fails
    case Call(f, args, meant) => CanThen(args, o, o in CallWays(f, meant, calls, hand), n, calls, hand)
    case Parts(parts) => CanBlock(parts, o, n, calls, hand)
    case Return(value) => CanThen(value, o, o == Returns, n, calls, hand)
    case Exit(args, meant) => CanThen(args, o, if meant then o == Exits else Ending(o), n, calls, hand)
    case AssertFalse(message, meant) => CanThen(message, o, if meant then o == Fails else Ending(o), n, calls, hand)
    case Expect(t) =>
      if o == Passes || o == Fails then Can(t, Passes, n, calls, hand) || Can(t, Fails, n, calls, hand)
      else Can(t, o, n, calls, hand)
    case If(branches, hasElse) => CanChain(branches, AfterIf(hasElse), o, n, calls, hand)
    case Match(subject, arms) => CanThen(subject, o, CanChain(arms, {Fails}, o, n, calls, hand), n, calls, hand)
    case While(_, _, _, _) => CanRounds(s, o, n, calls, hand)
    case ForEach(over, _, _) => CanThen(over, o, CanRounds(s, o, n, calls, hand), n, calls, hand)
    case Break(t) => o == Signal(BreaksTo(t), hand)
    case Continue(t) => o == Signal(ContinuesTo(t), hand)
    case Catch(body) =>
      o == Fails || CanBlock(body, o, n, calls, hand) || (o == Returns && CanBlock(body, Fails, n, calls, hand))
  }

  /** Some parts first, and what follows where they go on. */
  predicate CanThen(parts: seq<Stmt>, o: Outcome, then_: bool, n: nat, calls: Calls, hand: set<Label>)
    decreases n, parts, 1
  {
    (o != Passes && CanBlock(parts, o, n, calls, hand)) || (CanBlock(parts, Passes, n, calls, hand) && then_)
  }

  /** What an `if` comes to when no condition held. */
  function AfterIf(hasElse: bool): set<Outcome> { if hasElse then {} else {Passes} }

  /** The branches in turn: each condition, and then its body or the rest. */
  predicate CanChain(bs: seq<Branch>, last: set<Outcome>, o: Outcome, n: nat, calls: Calls, hand: set<Label>)
    decreases n, bs, 0
  {
    if bs == [] then o in last else
    CanThen(bs[0].cond, o, CanBlock(bs[0].body, o, n, calls, hand) || CanChain(bs[1..], last, o, n, calls, hand),
            n, calls, hand)
  }

  /** The turns of a loop from here on, a `while` with its condition first. */
  predicate CanRounds(loop: Stmt, o: Outcome, n: nat, calls: Calls, hand: set<Label>)
    requires loop.While? || loop.ForEach?
    decreases n, loop, 1
  {
    if loop.While? then
      CanThen(loop.cond, o, (!loop.endless && o == Passes) || (n > 0 && CanTurn(loop, o, n - 1, calls, hand)),
              n, calls, hand)
    else o == Passes || o == Fails || (n > 0 && CanTurn(loop, o, n - 1, calls, hand))
  }

  /** One turn of a loop, and those after it. */
  predicate CanTurn(loop: Stmt, o: Outcome, n: nat, calls: Calls, hand: set<Label>)
    requires loop.While? || loop.ForEach?
    decreases n, loop, 3
  {
    var l, body, inside := loop.label_, loop.body, hand + {loop.label_};
    (GoesRound(body, l, n, calls, inside) && CanRounds(loop, o, n, calls, hand)) ||
    (o == Passes &&
     (CanBlock(body, BreaksTo(Unnamed), n, calls, inside) || CanBlock(body, BreaksTo(l), n, calls, inside))) ||
    (Leaving(o, l) && CanBlock(body, o, n, calls, inside))
  }

  predicate GoesRound(body: seq<Stmt>, l: Label, n: nat, calls: Calls, hand: set<Label>)
    decreases n, body, 1
  {
    CanBlock(body, Passes, n, calls, hand) || CanBlock(body, ContinuesTo(Unnamed), n, calls, hand) ||
    CanBlock(body, ContinuesTo(l), n, calls, hand)
  }

  /** What a loop lets through. */
  predicate Leaving(o: Outcome, l: Label) {
    match o
    case Passes => false
    case BreaksTo(t) => !Mine(t, l)
    case ContinuesTo(t) => !Mine(t, l)
    case _ => true
  }

  predicate CanBlock(b: seq<Stmt>, o: Outcome, n: nat, calls: Calls, hand: set<Label>)
    decreases n, b, 0
  {
    if b == [] then o == Passes
    else (o != Passes && Can(b[0], o, n, calls, hand)) ||
         (Can(b[0], Passes, n, calls, hand) && CanBlock(b[1..], o, n, calls, hand))
  }

  // ---- exactly how a statement may end -------------------------------------------------------

  /** One thing and, where it goes on, another. */
  function Then(first: set<Outcome>, second: set<Outcome>): set<Outcome> {
    if Passes in first then (first - {Passes}) + second else first
  }

  /** Every way a statement may end, read off its text. */
  function Ends(s: Stmt, calls: Calls, hand: set<Label>): set<Outcome>
    decreases s
  {
    match s
    case Work => {Passes, Fails, Exits}
    case Propagate => {Passes, Returns, Fails}
    case Call(f, args, meant) => Then(BlockEnds(args, calls, hand), CallWays(f, meant, calls, hand))
    case Parts(parts) => BlockEnds(parts, calls, hand)
    case Return(value) => Then(BlockEnds(value, calls, hand), {Returns})
    case Exit(args, meant) => Then(BlockEnds(args, calls, hand), if meant then {Exits} else {Passes, Fails, Exits})
    case AssertFalse(message, meant) =>
      Then(BlockEnds(message, calls, hand), if meant then {Fails} else {Passes, Fails, Exits})
    case Expect(t) =>
      var e := Ends(t, calls, hand);
      if Passes in e || Fails in e then e + {Passes, Fails} else e
    case If(branches, hasElse) => ChainEnds(branches, AfterIf(hasElse), calls, hand)
    case Match(subject, arms) => Then(BlockEnds(subject, calls, hand), ChainEnds(arms, {Fails}, calls, hand))
    case While(endless, cond, l, body) =>
      Then(BlockEnds(cond, calls, hand),
           (if endless then {} else {Passes}) + TurnEnds(l, BlockEnds(body, calls, hand + {l})))
    case ForEach(over, l, body) =>
      Then(BlockEnds(over, calls, hand), {Passes, Fails} + TurnEnds(l, BlockEnds(body, calls, hand + {l})))
    case Break(t) => {Signal(BreaksTo(t), hand)}
    case Continue(t) => {Signal(ContinuesTo(t), hand)}
    case Catch(body) =>
      var e := BlockEnds(body, calls, hand);
      e + {Fails} + (if Fails in e then {Returns} else {})
  }

  function ChainEnds(bs: seq<Branch>, last: set<Outcome>, calls: Calls, hand: set<Label>): set<Outcome>
    decreases bs
  {
    if bs == [] then last else
    Then(BlockEnds(bs[0].cond, calls, hand),
         BlockEnds(bs[0].body, calls, hand) + ChainEnds(bs[1..], last, calls, hand))
  }

  /** How a loop may end by a turn that ended so. */
  function TurnEnds(l: Label, turn: set<Outcome>): set<Outcome> {
    (if BreaksTo(Unnamed) in turn || BreaksTo(l) in turn then {Passes} else {}) + set o | o in turn && Leaving(o, l)
  }

  function BlockEnds(b: seq<Stmt>, calls: Calls, hand: set<Label>): set<Outcome>
    decreases b
  {
    if b == [] then {Passes} else Then(Ends(b[0], calls, hand), BlockEnds(b[1..], calls, hand))
  }

  /** The turns of a loop from here on. */
  function RoundEnds(loop: Stmt, calls: Calls, hand: set<Label>): set<Outcome>
    requires loop.While? || loop.ForEach?
  {
    var turns := TurnEnds(loop.label_, BlockEnds(loop.body, calls, hand + {loop.label_}));
    if loop.While? then Then(BlockEnds(loop.cond, calls, hand), (if loop.endless then {} else {Passes}) + turns)
    else {Passes, Fails} + turns
  }

  /** No run ends in a way the text does not say. */
  lemma {:induction false} RunsEndAsSaid(s: Stmt, o: Outcome, n: nat, calls: Calls, hand: set<Label>)
    requires Can(s, o, n, calls, hand)
    ensures o in Ends(s, calls, hand)
    decreases n, s, 5
  {
    match s
    case Call(_, args, _) => PartsEndAsSaid(args, o, n, calls, hand);
    case Parts(parts) => BlockRunsEndAsSaid(parts, o, n, calls, hand);
    case Return(value) => PartsEndAsSaid(value, o, n, calls, hand);
    case Exit(args, _) => PartsEndAsSaid(args, o, n, calls, hand);
    case AssertFalse(message, _) => PartsEndAsSaid(message, o, n, calls, hand);
    case Expect(t) =>
      if Can(t, Passes, n, calls, hand) { RunsEndAsSaid(t, Passes, n, calls, hand); }
      if Can(t, Fails, n, calls, hand) { RunsEndAsSaid(t, Fails, n, calls, hand); }
      if Can(t, o, n, calls, hand) { RunsEndAsSaid(t, o, n, calls, hand); }
    case If(bs, hasElse) => ChainEndsAsSaid(bs, AfterIf(hasElse), o, n, calls, hand);
    case Match(subject, arms) =>
      PartsEndAsSaid(subject, o, n, calls, hand);
      if CanChain(arms, {Fails}, o, n, calls, hand) { ChainEndsAsSaid(arms, {Fails}, o, n, calls, hand); }
    case While(_, _, _, _) => RoundsEndAsSaid(s, o, n, calls, hand);
    case ForEach(over, _, _) =>
      PartsEndAsSaid(over, o, n, calls, hand);
      if CanRounds(s, o, n, calls, hand) { RoundsEndAsSaid(s, o, n, calls, hand); }
    case Catch(body) =>
      PartsEndAsSaid(body, o, n, calls, hand);
      if CanBlock(body, Fails, n, calls, hand) { BlockRunsEndAsSaid(body, Fails, n, calls, hand); }
    case _ =>
  }

  /** Parts that end so or go on. */
  lemma {:induction false} PartsEndAsSaid(b: seq<Stmt>, o: Outcome, n: nat, calls: Calls, hand: set<Label>)
    ensures CanBlock(b, o, n, calls, hand) ==> o in BlockEnds(b, calls, hand)
    ensures CanBlock(b, Passes, n, calls, hand) ==> Passes in BlockEnds(b, calls, hand)
    decreases n, b, 1
  {
    if CanBlock(b, o, n, calls, hand) { BlockRunsEndAsSaid(b, o, n, calls, hand); }
    if CanBlock(b, Passes, n, calls, hand) { BlockRunsEndAsSaid(b, Passes, n, calls, hand); }
  }

  lemma {:induction false} ChainEndsAsSaid(bs: seq<Branch>, last: set<Outcome>, o: Outcome, n: nat, calls: Calls,
                                           hand: set<Label>)
    requires CanChain(bs, last, o, n, calls, hand)
    ensures o in ChainEnds(bs, last, calls, hand)
    decreases n, bs, 2
  {
    if bs != [] {
      PartsEndAsSaid(bs[0].cond, o, n, calls, hand);
      PartsEndAsSaid(bs[0].body, o, n, calls, hand);
      if CanChain(bs[1..], last, o, n, calls, hand) { ChainEndsAsSaid(bs[1..], last, o, n, calls, hand); }
    }
  }

  lemma {:induction false} RoundsEndAsSaid(s: Stmt, o: Outcome, n: nat, calls: Calls, hand: set<Label>)
    requires (s.While? || s.ForEach?) && CanRounds(s, o, n, calls, hand)
    ensures o in RoundEnds(s, calls, hand)
    decreases n, s, 4
  {
    if s.While? { PartsEndAsSaid(s.cond, o, n, calls, hand); }
    if n > 0 && CanTurn(s, o, n - 1, calls, hand) {
      var l, body, inside := s.label_, s.body, hand + {s.label_};
      PartsEndAsSaid(body, BreaksTo(Unnamed), n - 1, calls, inside);
      PartsEndAsSaid(body, BreaksTo(l), n - 1, calls, inside);
      PartsEndAsSaid(body, o, n - 1, calls, inside);
      if CanRounds(s, o, n - 1, calls, hand) { RoundsEndAsSaid(s, o, n - 1, calls, hand); }
    }
  }

  lemma {:induction false} BlockRunsEndAsSaid(b: seq<Stmt>, o: Outcome, n: nat, calls: Calls, hand: set<Label>)
    requires CanBlock(b, o, n, calls, hand)
    ensures o in BlockEnds(b, calls, hand)
    decreases n, b, 0
  {
    if b != [] {
      if Can(b[0], o, n, calls, hand) { RunsEndAsSaid(b[0], o, n, calls, hand); }
      if Can(b[0], Passes, n, calls, hand) && CanBlock(b[1..], o, n, calls, hand) {
        RunsEndAsSaid(b[0], Passes, n, calls, hand);
        BlockRunsEndAsSaid(b[1..], o, n, calls, hand);
      }
    }
  }

  /** More turns allow whatever fewer did. */
  lemma {:induction false} CanMore(s: Stmt, o: Outcome, n: nat, m: nat, calls: Calls, hand: set<Label>)
    requires n <= m
    ensures Can(s, o, n, calls, hand) ==> Can(s, o, m, calls, hand)
    decreases m, s, 5
  {
    hide CanThen, CanChain, CanRounds;
    match s
    case Call(f, args, meant) =>
      var then_ := o in CallWays(f, meant, calls, hand);
      ThenMore(args, o, then_, then_, n, m, calls, hand);
    case Parts(parts) => BlockMore(parts, o, n, m, calls, hand);
    case Return(value) => ThenMore(value, o, o == Returns, o == Returns, n, m, calls, hand);
    case Exit(args, meant) =>
      var then_ := if meant then o == Exits else Ending(o);
      ThenMore(args, o, then_, then_, n, m, calls, hand);
    case AssertFalse(message, meant) =>
      var then_ := if meant then o == Fails else Ending(o);
      ThenMore(message, o, then_, then_, n, m, calls, hand);
    case Expect(t) =>
      CanMore(t, Passes, n, m, calls, hand);
      CanMore(t, Fails, n, m, calls, hand);
      CanMore(t, o, n, m, calls, hand);
    case If(bs, hasElse) => ChainMore(bs, AfterIf(hasElse), o, n, m, calls, hand);
    case Match(subject, arms) =>
      ChainMore(arms, {Fails}, o, n, m, calls, hand);
      ThenMore(subject, o, CanChain(arms, {Fails}, o, n, calls, hand), CanChain(arms, {Fails}, o, m, calls, hand),
               n, m, calls, hand);
    case While(_, _, _, _) => RoundsMore(s, o, n, m, calls, hand);
    case ForEach(over, _, _) =>
      RoundsMore(s, o, n, m, calls, hand);
      ThenMore(over, o, CanRounds(s, o, n, calls, hand), CanRounds(s, o, m, calls, hand), n, m, calls, hand);
    case Catch(body) =>
      BlockMore(body, o, n, m, calls, hand);
      BlockMore(body, Fails, n, m, calls, hand);
    case _ =>
  }

  lemma {:induction false} ThenMore(b: seq<Stmt>, o: Outcome, then1: bool, then2: bool, n: nat, m: nat, calls: Calls,
                                    hand: set<Label>)
    requires n <= m && (then1 ==> then2)
    ensures CanThen(b, o, then1, n, calls, hand) ==> CanThen(b, o, then2, m, calls, hand)
    decreases m, b, 1
  {
    BlockMore(b, o, n, m, calls, hand);
    BlockMore(b, Passes, n, m, calls, hand);
  }

  lemma {:induction false} ChainMore(bs: seq<Branch>, last: set<Outcome>, o: Outcome, n: nat, m: nat, calls: Calls,
                                     hand: set<Label>)
    requires n <= m
    ensures CanChain(bs, last, o, n, calls, hand) ==> CanChain(bs, last, o, m, calls, hand)
    decreases m, bs, 2
  {
    hide CanThen;
    if bs != [] {
      var body, rest := bs[0].body, bs[1..];
      BlockMore(body, o, n, m, calls, hand);
      ChainMore(rest, last, o, n, m, calls, hand);
      ThenMore(bs[0].cond, o, CanBlock(body, o, n, calls, hand) || CanChain(rest, last, o, n, calls, hand),
               CanBlock(body, o, m, calls, hand) || CanChain(rest, last, o, m, calls, hand), n, m, calls, hand);
    }
  }

  lemma {:induction false} RoundsMore(s: Stmt, o: Outcome, n: nat, m: nat, calls: Calls, hand: set<Label>)
    requires (s.While? || s.ForEach?) && n <= m
    ensures CanRounds(s, o, n, calls, hand) ==> CanRounds(s, o, m, calls, hand)
    decreases m, s, 4
  {
    hide CanThen, CanTurn;
    if n > 0 { TurnMore(s, o, n - 1, m - 1, calls, hand); }
    if s.While? {
      ThenMore(s.cond, o, (!s.endless && o == Passes) || (n > 0 && CanTurn(s, o, n - 1, calls, hand)),
               (!s.endless && o == Passes) || (m > 0 && CanTurn(s, o, m - 1, calls, hand)), n, m, calls, hand);
    }
  }

  lemma {:induction false} TurnMore(s: Stmt, o: Outcome, n: nat, m: nat, calls: Calls, hand: set<Label>)
    requires (s.While? || s.ForEach?) && n <= m
    ensures CanTurn(s, o, n, calls, hand) ==> CanTurn(s, o, m, calls, hand)
    decreases m, s, 6
  {
    hide CanBlock;
    var l, body, inside := s.label_, s.body, hand + {s.label_};
    GoesRoundMore(body, l, n, m, calls, inside);
    BlockMore(body, BreaksTo(Unnamed), n, m, calls, inside);
    BlockMore(body, BreaksTo(l), n, m, calls, inside);
    BlockMore(body, o, n, m, calls, inside);
    RoundsMore(s, o, n, m, calls, hand);
  }

  lemma {:induction false} GoesRoundMore(b: seq<Stmt>, l: Label, n: nat, m: nat, calls: Calls, hand: set<Label>)
    requires n <= m
    ensures GoesRound(b, l, n, calls, hand) ==> GoesRound(b, l, m, calls, hand)
    decreases m, b, 1
  {
    BlockMore(b, Passes, n, m, calls, hand);
    BlockMore(b, ContinuesTo(Unnamed), n, m, calls, hand);
    BlockMore(b, ContinuesTo(l), n, m, calls, hand);
  }

  lemma {:induction false} BlockMore(b: seq<Stmt>, o: Outcome, n: nat, m: nat, calls: Calls, hand: set<Label>)
    requires n <= m
    ensures CanBlock(b, o, n, calls, hand) ==> CanBlock(b, o, m, calls, hand)
    decreases m, b, 0
  {
    if b != [] {
      CanMore(b[0], o, n, m, calls, hand);
      CanMore(b[0], Passes, n, m, calls, hand);
      BlockMore(b[1..], o, n, m, calls, hand);
    }
  }

  /** Every way the text says a statement may end, some run does. */
  lemma {:induction false} SaidEndsHappen(s: Stmt, o: Outcome, calls: Calls, hand: set<Label>) returns (n: nat)
    requires o in Ends(s, calls, hand)
    ensures Can(s, o, n, calls, hand)
    decreases s, 5
  {
    n := 0;
    match s
    case Call(f, args, meant) => n := SaidPartsHappen(args, o, o in CallWays(f, meant, calls, hand), calls, hand);
    case Parts(parts) => n := SaidBlockEndsHappen(parts, o, calls, hand);
    case Return(value) => n := SaidPartsHappen(value, o, o == Returns, calls, hand);
    case Exit(args, meant) => n := SaidPartsHappen(args, o, if meant then o == Exits else Ending(o), calls, hand);
    case AssertFalse(message, meant) =>
      n := SaidPartsHappen(message, o, if meant then o == Fails else Ending(o), calls, hand);
    case Expect(t) =>
      var e := Ends(t, calls, hand);
      if (o == Passes || o == Fails) && Passes in e { n := SaidEndsHappen(t, Passes, calls, hand); }
      else if (o == Passes || o == Fails) && Fails in e { n := SaidEndsHappen(t, Fails, calls, hand); }
      else { n := SaidEndsHappen(t, o, calls, hand); }
    case If(bs, hasElse) => n := SaidChainHappens(bs, AfterIf(hasElse), o, calls, hand);
    case Match(subject, arms) => n := SaidMatchHappens(s, o, calls, hand);
    case While(_, _, _, _) => n := SaidRoundsHappen(s, o, calls, hand);
    case ForEach(_, _, _) => n := SaidWalkHappens(s, o, calls, hand);
    case Catch(body) =>
      if o in BlockEnds(body, calls, hand) { n := SaidBlockEndsHappen(body, o, calls, hand); }
      else if o == Returns { n := SaidBlockEndsHappen(body, Fails, calls, hand); }
    case _ =>
  }

  /** Parts that end so, or go on to what does. */
  lemma {:induction false} SaidPartsHappen(b: seq<Stmt>, o: Outcome, then_: bool, calls: Calls, hand: set<Label>)
    returns (n: nat)
    requires (o != Passes && o in BlockEnds(b, calls, hand)) || (Passes in BlockEnds(b, calls, hand) && then_)
    ensures CanThen(b, o, then_, n, calls, hand)
    decreases b, 1
  {
    if o != Passes && o in BlockEnds(b, calls, hand) {
      n := SaidBlockEndsHappen(b, o, calls, hand);
    } else {
      n := SaidBlockEndsHappen(b, Passes, calls, hand);
    }
  }

  lemma {:induction false} SaidChainHappens(bs: seq<Branch>, last: set<Outcome>, o: Outcome, calls: Calls,
                                            hand: set<Label>) returns (n: nat)
    requires o in ChainEnds(bs, last, calls, hand)
    ensures CanChain(bs, last, o, n, calls, hand)
    decreases bs, 2
  {
    n := 0;
    if bs != [] {
      var cond, body := bs[0].cond, bs[0].body;
      if o != Passes && o in BlockEnds(cond, calls, hand) {
        n := SaidBlockEndsHappen(cond, o, calls, hand);
      } else {
        var m := SaidBlockEndsHappen(cond, Passes, calls, hand);
        if o in BlockEnds(body, calls, hand) {
          var k := SaidBlockEndsHappen(body, o, calls, hand);
          n := m + k;
          BlockMore(body, o, k, n, calls, hand);
        } else {
          var k := SaidChainHappens(bs[1..], last, o, calls, hand);
          n := m + k;
          ChainMore(bs[1..], last, o, k, n, calls, hand);
        }
        BlockMore(cond, Passes, m, n, calls, hand);
      }
    }
  }

  lemma {:induction false} SaidMatchHappens(s: Stmt, o: Outcome, calls: Calls, hand: set<Label>) returns (n: nat)
    requires s.Match? && o in Ends(s, calls, hand)
    ensures Can(s, o, n, calls, hand)
    decreases s, 3
  {
    if o != Passes && o in BlockEnds(s.subject, calls, hand) {
      n := SaidBlockEndsHappen(s.subject, o, calls, hand);
    } else {
      var m := SaidBlockEndsHappen(s.subject, Passes, calls, hand);
      var k := SaidChainHappens(s.branches, {Fails}, o, calls, hand);
      n := m + k;
      BlockMore(s.subject, Passes, m, n, calls, hand);
      ChainMore(s.branches, {Fails}, o, k, n, calls, hand);
    }
  }

  lemma {:induction false} SaidWalkHappens(s: Stmt, o: Outcome, calls: Calls, hand: set<Label>) returns (n: nat)
    requires s.ForEach? && o in Ends(s, calls, hand)
    ensures Can(s, o, n, calls, hand)
    decreases s, 4
  {
    if o != Passes && o in BlockEnds(s.over, calls, hand) {
      n := SaidBlockEndsHappen(s.over, o, calls, hand);
    } else {
      var m := SaidBlockEndsHappen(s.over, Passes, calls, hand);
      var k := SaidRoundsHappen(s, o, calls, hand);
      n := m + k;
      BlockMore(s.over, Passes, m, n, calls, hand);
      RoundsMore(s, o, k, n, calls, hand);
    }
  }

  lemma {:induction false} SaidRoundsHappen(s: Stmt, o: Outcome, calls: Calls, hand: set<Label>) returns (n: nat)
    requires (s.While? || s.ForEach?) && o in RoundEnds(s, calls, hand)
    ensures CanRounds(s, o, n, calls, hand)
    decreases s, 3
  {
    var l, inside := s.label_, hand + {s.label_};
    var turn := BlockEnds(s.body, calls, inside);
    n := 0;
    if s.While? && o != Passes && o in BlockEnds(s.cond, calls, hand) {
      n := SaidBlockEndsHappen(s.cond, o, calls, hand);
    } else {
      var m: nat := 0;
      if s.While? { m := SaidBlockEndsHappen(s.cond, Passes, calls, hand); }
      n := m;
      if o in TurnEnds(l, turn) {
        var o2 := if o == Passes then if BreaksTo(Unnamed) in turn then BreaksTo(Unnamed) else BreaksTo(l) else o;
        var k := SaidBlockEndsHappen(s.body, o2, calls, inside);
        n := m + k + 1;
        BlockMore(s.body, o2, k, n - 1, calls, inside);
        assert CanTurn(s, o, n - 1, calls, hand);
      }
      if s.While? { BlockMore(s.cond, Passes, m, n, calls, hand); }
    }
  }

  lemma {:induction false} SaidBlockEndsHappen(b: seq<Stmt>, o: Outcome, calls: Calls, hand: set<Label>)
    returns (n: nat)
    requires o in BlockEnds(b, calls, hand)
    ensures CanBlock(b, o, n, calls, hand)
    decreases b, 0
  {
    if b == [] {
      n := 0;
    } else if o != Passes && o in Ends(b[0], calls, hand) {
      n := SaidEndsHappen(b[0], o, calls, hand);
    } else {
      var m := SaidEndsHappen(b[0], Passes, calls, hand);
      var k := SaidBlockEndsHappen(b[1..], o, calls, hand);
      n := m + k;
      CanMore(b[0], Passes, m, n, calls, hand);
      BlockMore(b[1..], o, k, n, calls, hand);
    }
  }

  ghost predicate SomeRun(b: seq<Stmt>, o: Outcome, calls: Calls, hand: set<Label>) {
    exists n: nat :: CanBlock(b, o, n, calls, hand)
  }

  /** A block ends some way in some run exactly when its text says it may. */
  lemma EndsExactly(b: seq<Stmt>, o: Outcome, calls: Calls, hand: set<Label>)
    ensures SomeRun(b, o, calls, hand) <==> o in BlockEnds(b, calls, hand)
  {
    if SomeRun(b, o, calls, hand) {
      var n: nat :| CanBlock(b, o, n, calls, hand);
      BlockRunsEndAsSaid(b, o, n, calls, hand);
    }
    if o in BlockEnds(b, calls, hand) {
      var n := SaidBlockEndsHappen(b, o, calls, hand);
      assert CanBlock(b, o, n, calls, hand);
    }
  }

  // ---- what the check does not look into ---------------------------------------------------

  /** The loops around it each function may break out of when it is called: a
      break no loop of its own takes. */
  type Leaks = string -> set<Label>

  /** The loops a break in here may leave, those in here apart. */
  function Escapes(s: Stmt, leaks: Leaks): set<Label>
    decreases s
  {
    match s
    case Break(t) => {t}
    case Call(f, args, meant) => BlockEscapes(args, leaks) + (if meant then leaks(f) else {})
    case Parts(parts) => BlockEscapes(parts, leaks)
    case Return(value) => BlockEscapes(value, leaks)
    case Exit(args, _) => BlockEscapes(args, leaks)
    case AssertFalse(message, _) => BlockEscapes(message, leaks)
    case Expect(t) => Escapes(t, leaks)
    case If(bs, _) => ChainEscapes(bs, leaks)
    case Match(subject, bs) => BlockEscapes(subject, leaks) + ChainEscapes(bs, leaks)
    case While(_, cond, l, body) => BlockEscapes(cond, leaks) + Past(l, BlockEscapes(body, leaks))
    case ForEach(over, l, body) => BlockEscapes(over, leaks) + Past(l, BlockEscapes(body, leaks))
    case Catch(body) => BlockEscapes(body, leaks)
    case _ => {}
  }

  /** The breaks a loop of this label does not take. */
  function Past(l: Label, ts: set<Label>): set<Label> { set t | t in ts && !Mine(t, l) }

  function ChainEscapes(bs: seq<Branch>, leaks: Leaks): set<Label>
    decreases bs
  {
    if bs == [] then {} else
    BlockEscapes(bs[0].cond, leaks) + BlockEscapes(bs[0].body, leaks) + ChainEscapes(bs[1..], leaks)
  }

  function BlockEscapes(b: seq<Stmt>, leaks: Leaks): set<Label>
    decreases b
  {
    if b == [] then {} else Escapes(b[0], leaks) + BlockEscapes(b[1..], leaks)
  }

  /** A break of an outer loop that `_block_breaks` has no eye for: one that
      crosses a loop, stands in a `catch` or under a second `@expect`, in a value
      or a condition, or in a function that is called. */
  predicate Hides(s: Stmt, through: bool, leaks: Leaks)
    decreases s
  {
    match s
    case Expect(t) => if through then Hides(t, false, leaks) else Escapes(t, leaks) != {}
    case If(bs, _) => ChainHides(bs, leaks)
    case Match(subject, bs) => BlockEscapes(subject, leaks) != {} || ChainHides(bs, leaks)
    case Break(_) => false
    case _ => Escapes(s, leaks) != {}
  }

  predicate ChainHides(bs: seq<Branch>, leaks: Leaks)
    decreases bs
  {
    bs != [] &&
    (BlockEscapes(bs[0].cond, leaks) != {} || BlockHides(bs[0].body, leaks) || ChainHides(bs[1..], leaks))
  }

  predicate BlockHides(b: seq<Stmt>, leaks: Leaks)
    decreases b
  {
    exists i :: 0 <= i < |b| && Hides(b[i], true, leaks)
  }

  lemma {:induction false} BlockEscapesIs(b: seq<Stmt>, leaks: Leaks)
    ensures BlockEscapes(b, leaks) == {} <==> forall i :: 0 <= i < |b| ==> Escapes(b[i], leaks) == {}
  {
    hide Escapes;
    if b != [] {
      BlockEscapesIs(b[1..], leaks);
      assert forall i :: 0 <= i < |b[1..]| ==> b[1..][i] == b[i + 1];
      assert forall i :: 1 <= i < |b| ==> b[i] == b[1..][i - 1];
    }
  }

  /** Where nothing is hidden, a body said not to break does not. */
  lemma {:induction false} NoBreakNoEscape(s: Stmt, through: bool, leaks: Leaks)
    requires !Breaks(s, through) && !Hides(s, through, leaks)
    ensures Escapes(s, leaks) == {}
    decreases s, 1
  {
    match s
    case Expect(t) => if through { NoBreakNoEscape(t, false, leaks); }
    case If(bs, _) => NoChainBreakNoEscape(bs, leaks);
    case Match(_, bs) => NoChainBreakNoEscape(bs, leaks);
    case _ =>
  }

  lemma {:induction false} NoChainBreakNoEscape(bs: seq<Branch>, leaks: Leaks)
    requires (forall i :: 0 <= i < |bs| ==> !BlockBreaks(bs[i].body)) && !ChainHides(bs, leaks)
    ensures ChainEscapes(bs, leaks) == {}
    decreases bs, 1
  {
    if bs != [] {
      NoBlockBreakNoEscape(bs[0].body, leaks);
      assert forall i :: 0 <= i < |bs[1..]| ==> bs[1..][i] == bs[i + 1];
      NoChainBreakNoEscape(bs[1..], leaks);
    }
  }

  lemma {:induction false} NoBlockBreakNoEscape(b: seq<Stmt>, leaks: Leaks)
    requires !BlockBreaks(b) && !BlockHides(b, leaks)
    ensures BlockEscapes(b, leaks) == {}
    decreases b, 1
  {
    forall i | 0 <= i < |b| ensures Escapes(b[i], leaks) == {} { NoBreakNoEscape(b[i], true, leaks); }
    BlockEscapesIs(b, leaks);
  }

  /** Calls break no loops but those said. */
  ghost predicate Within(calls: Calls, leaks: Leaks) {
    forall f, hand, t :: BreaksTo(t) in calls(f, hand) ==> t in leaks(f)
  }

  /** A break that gets out is one the text holds. */
  lemma {:induction false} BreaksEscape(s: Stmt, t: Label, calls: Calls, hand: set<Label>, leaks: Leaks)
    requires BreaksTo(t) in Ends(s, calls, hand) && Within(calls, leaks)
    ensures t in Escapes(s, leaks)
    decreases s, 1
  {
    match s
    case Call(_, args, _) => PartsBreaksEscape(args, t, calls, hand, leaks);
    case Parts(parts) => PartsBreaksEscape(parts, t, calls, hand, leaks);
    case Return(value) => PartsBreaksEscape(value, t, calls, hand, leaks);
    case Exit(args, _) => PartsBreaksEscape(args, t, calls, hand, leaks);
    case AssertFalse(message, _) => PartsBreaksEscape(message, t, calls, hand, leaks);
    case Expect(u) => BreaksEscape(u, t, calls, hand, leaks);
    case If(bs, hasElse) => ChainBreaksEscape(bs, AfterIf(hasElse), t, calls, hand, leaks);
    case Match(subject, bs) =>
      PartsBreaksEscape(subject, t, calls, hand, leaks);
      if BreaksTo(t) in ChainEnds(bs, {Fails}, calls, hand) {
        ChainBreaksEscape(bs, {Fails}, t, calls, hand, leaks);
      }
    case While(_, cond, l, body) =>
      PartsBreaksEscape(cond, t, calls, hand, leaks);
      PartsBreaksEscape(body, t, calls, hand + {l}, leaks);
    case ForEach(over, l, body) =>
      PartsBreaksEscape(over, t, calls, hand, leaks);
      PartsBreaksEscape(body, t, calls, hand + {l}, leaks);
    case Catch(body) => PartsBreaksEscape(body, t, calls, hand, leaks);
    case _ =>
  }

  lemma {:induction false} ChainBreaksEscape(bs: seq<Branch>, last: set<Outcome>, t: Label, calls: Calls,
                                             hand: set<Label>, leaks: Leaks)
    requires BreaksTo(t) in ChainEnds(bs, last, calls, hand) && BreaksTo(t) !in last && Within(calls, leaks)
    ensures t in ChainEscapes(bs, leaks)
    decreases bs, 1
  {
    PartsBreaksEscape(bs[0].cond, t, calls, hand, leaks);
    PartsBreaksEscape(bs[0].body, t, calls, hand, leaks);
    if BreaksTo(t) in ChainEnds(bs[1..], last, calls, hand) {
      ChainBreaksEscape(bs[1..], last, t, calls, hand, leaks);
    }
  }

  lemma {:induction false} PartsBreaksEscape(b: seq<Stmt>, t: Label, calls: Calls, hand: set<Label>, leaks: Leaks)
    requires Within(calls, leaks)
    ensures BreaksTo(t) in BlockEnds(b, calls, hand) ==> t in BlockEscapes(b, leaks)
    decreases b, 1
  {
    if b != [] {
      if BreaksTo(t) in Ends(b[0], calls, hand) { BreaksEscape(b[0], t, calls, hand, leaks); }
      PartsBreaksEscape(b[1..], t, calls, hand, leaks);
    }
  }

  // ---- what the check is worth -------------------------------------------------------------------

  /** What cannot fail is safe to expect failures of. */
  predicate CannotFail(s: Stmt) {
    match s
    case Return(value) => value == []
    case Exit(args, meant) => args == [] && meant
    case _ => false
  }

  /** What the check relies on of a statement it accepts: nothing that may fail
      under an `@expect`, no break hidden in an endless loop, and names that are
      what it takes them for. */
  predicate Candid(s: Stmt, gone: set<string>, leaks: Leaks)
    decreases s
  {
    match s
    case Expect(t) => CannotFail(t)
    case If(bs, _) => forall i :: 0 <= i < |bs| ==> CandidBlock(bs[i].body, gone, leaks)
    case Match(_, bs) => forall i :: 0 <= i < |bs| ==> CandidBlock(bs[i].body, gone, leaks)
    case While(_, _, _, body) => !BlockHides(body, leaks)
    case Call(_, _, meant) => meant
    case Exit(_, meant) => meant
    case AssertFalse(_, meant) => meant
    case _ => true
  }

  predicate CandidBlock(b: seq<Stmt>, gone: set<string>, leaks: Leaks)
    decreases b
  {
    forall i :: 0 <= i < |b| && Leaves(b[i], gone) ==> Candid(b[i], gone, leaks)
  }

  /** The functions said to be gone do not come back. */
  ghost predicate Gone(gone: set<string>, calls: Calls) {
    forall f, hand :: f in gone ==> Passes !in calls(f, hand)
  }

  lemma {:induction false} LeavesIsSo(s: Stmt, gone: set<string>, calls: Calls, hand: set<Label>, leaks: Leaks)
    requires Leaves(s, gone) && Candid(s, gone, leaks) && Gone(gone, calls) && Within(calls, leaks)
    ensures Passes !in Ends(s, calls, hand)
    decreases s, 1
  {
    assert BlockEnds([], calls, hand) == {Passes};
    match s
    case If(bs, _) => ChainLeavesIsSo(bs, {}, gone, calls, hand, leaks);
    case Match(_, bs) => ChainLeavesIsSo(bs, {Fails}, gone, calls, hand, leaks);
    case While(_, _, l, body) =>
      NoBlockBreakNoEscape(body, leaks);
      PartsBreaksEscape(body, Unnamed, calls, hand + {l}, leaks);
      PartsBreaksEscape(body, l, calls, hand + {l}, leaks);
    case _ =>
  }

  lemma {:induction false} ChainLeavesIsSo(bs: seq<Branch>, last: set<Outcome>, gone: set<string>, calls: Calls,
                                           hand: set<Label>, leaks: Leaks)
    requires forall i :: 0 <= i < |bs| ==> BlockLeaves(bs[i].body, gone) && CandidBlock(bs[i].body, gone, leaks)
    requires Gone(gone, calls) && Within(calls, leaks) && Passes !in last
    ensures Passes !in ChainEnds(bs, last, calls, hand)
    decreases bs, 1
  {
    if bs != [] {
      BlockLeavesIsSo(bs[0].body, gone, calls, hand, leaks);
      assert forall i :: 0 <= i < |bs[1..]| ==> bs[1..][i] == bs[i + 1];
      ChainLeavesIsSo(bs[1..], last, gone, calls, hand, leaks);
    }
  }

  lemma {:induction false} BlockLeavesIsSo(b: seq<Stmt>, gone: set<string>, calls: Calls, hand: set<Label>,
                                           leaks: Leaks)
    requires BlockLeaves(b, gone) && CandidBlock(b, gone, leaks) && Gone(gone, calls) && Within(calls, leaks)
    ensures Passes !in BlockEnds(b, calls, hand)
    decreases b, 1
  {
    var i :| 0 <= i < |b| && Leaves(b[i], gone);
    LeavesIsSo(b[i], gone, calls, hand, leaks);
    StopsAt(b, i, calls, hand);
  }

  lemma {:induction false} StopsAt(b: seq<Stmt>, i: nat, calls: Calls, hand: set<Label>)
    requires i < |b| && Passes !in Ends(b[i], calls, hand)
    ensures Passes !in BlockEnds(b, calls, hand)
    decreases i
  {
    if i > 0 {
      assert b[1..][i - 1] == b[i];
      StopsAt(b[1..], i - 1, calls, hand);
    }
  }

  /** A block the check accepts is never come to the end of, in any run, where
      nothing it relies on is hidden from it. */
  lemma AcceptedNeverPasses(b: seq<Stmt>, gone: set<string>, calls: Calls, hand: set<Label>, leaks: Leaks)
    requires BlockLeaves(b, gone) && CandidBlock(b, gone, leaks) && Gone(gone, calls) && Within(calls, leaks)
    ensures !SomeRun(b, Passes, calls, hand)
  {
    BlockLeavesIsSo(b, gone, calls, hand, leaks);
    EndsExactly(b, Passes, calls, hand);
  }

  /** What the check may take at its word where it refuses: nothing in the text
      keeps a statement from being passed but what the check looks at.  A jump to a
      loop is not such a statement: it is neither passed nor a way out for good. */
  predicate Plain(s: Stmt, gone: set<string>, calls: Calls, hand: set<Label>)
    decreases s
  {
    match s
    case Call(f, args, meant) =>
      Passes in BlockEnds(args, calls, hand) && (f !in gone ==> Passes in CallWays(f, meant, calls, hand))
    case Parts(parts) => Passes in BlockEnds(parts, calls, hand)
    case Expect(t) => Plain(t, gone, calls, hand)
    case If(bs, _) => ChainPlain(bs, gone, calls, hand)
    case Match(subject, bs) => Passes in BlockEnds(subject, calls, hand) && ChainPlain(bs, gone, calls, hand)
    case While(endless, cond, l, body) =>
      Passes in BlockEnds(cond, calls, hand) &&
      (endless && BlockBreaks(body) ==>
         BreaksTo(Unnamed) in BlockEnds(body, calls, hand + {l}) || BreaksTo(l) in BlockEnds(body, calls, hand + {l}))
    case ForEach(over, _, _) => Passes in BlockEnds(over, calls, hand)
    case Catch(body) => Passes in BlockEnds(body, calls, hand)
    case Break(_) => false
    case Continue(_) => false
    case _ => true
  }

  predicate ChainPlain(bs: seq<Branch>, gone: set<string>, calls: Calls, hand: set<Label>)
    decreases bs
  {
    bs == [] ||
    (Passes in BlockEnds(bs[0].cond, calls, hand) && BlockPlain(bs[0].body, gone, calls, hand) &&
     ChainPlain(bs[1..], gone, calls, hand))
  }

  predicate BlockPlain(b: seq<Stmt>, gone: set<string>, calls: Calls, hand: set<Label>)
    decreases b
  {
    b == [] || (Plain(b[0], gone, calls, hand) && BlockPlain(b[1..], gone, calls, hand))
  }

  lemma {:induction false} RefusedIsPassed(s: Stmt, gone: set<string>, calls: Calls, hand: set<Label>)
    requires Plain(s, gone, calls, hand) && !Leaves(s, gone)
    ensures Passes in Ends(s, calls, hand)
    decreases s, 1
  {
    match s
    case Expect(t) => RefusedIsPassed(t, gone, calls, hand);
    case If(bs, hasElse) => RefusedChainIsPassed(bs, AfterIf(hasElse), gone, calls, hand);
    case Match(_, bs) => RefusedChainIsPassed(bs, {Fails}, gone, calls, hand);
    case _ =>
  }

  lemma {:induction false} RefusedChainIsPassed(bs: seq<Branch>, last: set<Outcome>, gone: set<string>, calls: Calls,
                                                hand: set<Label>)
    requires ChainPlain(bs, gone, calls, hand)
    requires Passes in last || exists i :: 0 <= i < |bs| && !BlockLeaves(bs[i].body, gone)
    ensures Passes in ChainEnds(bs, last, calls, hand)
    decreases bs, 1
  {
    if bs != [] {
      if BlockLeaves(bs[0].body, gone) {
        assert forall i :: 1 <= i < |bs| ==> bs[i] == bs[1..][i - 1];
        RefusedChainIsPassed(bs[1..], last, gone, calls, hand);
      } else {
        RefusedBlockIsPassed(bs[0].body, gone, calls, hand);
      }
    }
  }

  lemma {:induction false} RefusedBlockIsPassed(b: seq<Stmt>, gone: set<string>, calls: Calls, hand: set<Label>)
    requires BlockPlain(b, gone, calls, hand) && !BlockLeaves(b, gone)
    ensures Passes in BlockEnds(b, calls, hand)
    decreases b, 1
  {
    if b != [] {
      RefusedIsPassed(b[0], gone, calls, hand);
      assert forall i :: 0 <= i < |b[1..]| ==> b[1..][i] == b[i + 1];
      RefusedBlockIsPassed(b[1..], gone, calls, hand);
    }
  }

  /** Where nothing is hidden from it either way, the check accepts exactly the
      blocks no run comes to the end of. */
  lemma AcceptsExactly(b: seq<Stmt>, gone: set<string>, calls: Calls, hand: set<Label>, leaks: Leaks)
    requires BlockPlain(b, gone, calls, hand) && CandidBlock(b, gone, leaks)
    requires Gone(gone, calls) && Within(calls, leaks)
    ensures BlockLeaves(b, gone) <==> !SomeRun(b, Passes, calls, hand)
  {
    if BlockLeaves(b, gone) { AcceptedNeverPasses(b, gone, calls, hand, leaks); }
    else { RefusedBlockIsPassed(b, gone, calls, hand); EndsExactly(b, Passes, calls, hand); }
  }

  /** `@expect` is looked through, however many there are, for what leaves ... */
  lemma ExpectIsLookedThrough(s: Stmt, gone: set<string>)
    ensures BlockLeaves([Expect(s)], gone) <==> BlockLeaves([s], gone)
  {
    hide Leaves;
    assert Leaves([Expect(s)][0], gone) <==> Leaves(Expect(s), gone);
    assert Leaves([s][0], gone) <==> Leaves(s, gone);
    assert Leaves(Expect(s), gone) == Leaves(s, gone) by { ExpectLeaves(s, gone); }
  }

  lemma ExpectLeaves(s: Stmt, gone: set<string>)
    ensures Leaves(Expect(s), gone) == Leaves(s, gone)
  {}

  /** ... but only once for what breaks: a break under one refuses an endless loop,
      under two it does not, and the loop is left all the same. */
  lemma TwiceExpectedBreakPasses(calls: Calls, hand: set<Label>)
    ensures !BlockLeaves([While(true, [], Unnamed, [Expect(Break(Unnamed))])], {})
    ensures var b := [While(true, [], Unnamed, [Expect(Expect(Break(Unnamed)))])];
            BlockLeaves(b, {}) && SomeRun(b, Passes, calls, hand)
  {
    var inside := hand + {Unnamed};
    var once, twice := Expect(Break(Unnamed)), Expect(Expect(Break(Unnamed)));
    assert Breaks([once][0], true) && BlockBreaks([once]);
    assert BreaksTo(Unnamed) in Ends(twice, calls, inside);
    OnlyStatement(twice, BreaksTo(Unnamed), calls, inside);
    assert !Breaks(Expect(Break(Unnamed)), false) && !Breaks([twice][0], true);
    BrokenLoopPasses(Unnamed, [twice], Unnamed, calls, hand);
  }

  /** A break or a continue fails outside any loop, and where it names one outside
      those of that name; else it is on its way. */
  lemma JumpIs(l: string, m: string, o: Outcome, calls: Calls)
    requires l != m
    ensures SomeRun([Break(Unnamed)], o, calls, {}) <==> o == Fails
    ensures SomeRun([Break(Unnamed)], o, calls, {Called(l)}) <==> o == BreaksTo(Unnamed)
    ensures SomeRun([Break(Called(l))], o, calls, {Called(l)}) <==> o == BreaksTo(Called(l))
    ensures SomeRun([Break(Called(m))], o, calls, {Called(l)}) <==> o == Fails
    ensures SomeRun([Continue(Unnamed)], o, calls, {}) <==> o == Fails
    ensures SomeRun([Continue(Called(l))], o, calls, {Called(l)}) <==> o == ContinuesTo(Called(l))
  {
    JumpEnds(Break(Unnamed), o, calls, {});
    JumpEnds(Break(Unnamed), o, calls, {Called(l)});
    JumpEnds(Break(Called(l)), o, calls, {Called(l)});
    JumpEnds(Break(Called(m)), o, calls, {Called(l)});
    JumpEnds(Continue(Unnamed), o, calls, {});
    JumpEnds(Continue(Called(l)), o, calls, {Called(l)});
  }

  lemma JumpEnds(s: Stmt, o: Outcome, calls: Calls, hand: set<Label>)
    requires s.Break? || s.Continue?
    ensures SomeRun([s], o, calls, hand)
            <==> o == Signal(if s.Break? then BreaksTo(s.target) else ContinuesTo(s.target), hand)
  {
    EndsExactly([s], o, calls, hand);
    OnlyStatement(s, o, calls, hand);
  }

  // ---- a whole program -------------------------------------------------------------------------

  type Program = map<string, seq<Stmt>>

  /** What a call comes to for its caller when the body ended so; binding its
      arguments, its conditions and its answer's type may fail of themselves. */
  function Came(body: set<Outcome>): set<Outcome> {
    (body - {Passes, Returns}) + {Fails, Exits} + if Passes in body || Returns in body then {Passes} else {}
  }

  /** How calls may end in runs of no more than `k` nested calls; what is not a
      function of the program is an operation. */
  function CallEnds(p: Program, k: nat): Calls {
    if k == 0 then (f, hand) => {Fails, Exits}
    else
      var inner := CallEnds(p, k - 1);
      (f, hand) => if f in p then Came(BlockEnds(p[f], inner, hand)) else {Passes, Fails, Exits}
  }

  lemma CalledEnds(p: Program, k: nat, f: string, hand: set<Label>)
    ensures CallEnds(p, 0)(f, hand) == {Fails, Exits}
    ensures CallEnds(p, k + 1)(f, hand)
            == if f in p then Came(BlockEnds(p[f], CallEnds(p, k), hand)) else {Passes, Fails, Exits}
  {
    hide BlockEnds, Came;
  }

  /** No `return` in a body, nor a `?`, nor a `catch`, which makes one of a failure;
      not in its values either. */
  predicate NeverReturns(s: Stmt)
    decreases s
  {
    match s
    case Return(_) => false
    case Propagate => false
    case Catch(_) => false
    case Call(_, args, _) => BlockNeverReturns(args)
    case Parts(parts) => BlockNeverReturns(parts)
    case Exit(args, _) => BlockNeverReturns(args)
    case AssertFalse(message, _) => BlockNeverReturns(message)
    case Expect(t) => NeverReturns(t)
    case If(bs, _) => ChainNeverReturns(bs)
    case Match(subject, bs) => BlockNeverReturns(subject) && ChainNeverReturns(bs)
    case While(_, cond, _, body) => BlockNeverReturns(cond) && BlockNeverReturns(body)
    case ForEach(over, _, body) => BlockNeverReturns(over) && BlockNeverReturns(body)
    case _ => true
  }

  predicate ChainNeverReturns(bs: seq<Branch>)
    decreases bs
  {
    bs == [] || (BlockNeverReturns(bs[0].cond) && BlockNeverReturns(bs[0].body) && ChainNeverReturns(bs[1..]))
  }

  predicate BlockNeverReturns(b: seq<Stmt>)
    decreases b
  {
    b == [] || (NeverReturns(b[0]) && BlockNeverReturns(b[1..]))
  }

  /** A `return` stops at the call it is in. */
  ghost predicate ReturnsStop(calls: Calls) { forall f, hand :: Returns !in calls(f, hand) }

  lemma {:induction false} NeverReturnsIsSo(s: Stmt, calls: Calls, hand: set<Label>)
    requires NeverReturns(s) && ReturnsStop(calls)
    ensures Returns !in Ends(s, calls, hand)
    decreases s, 1
  {
    match s
    case Call(_, args, _) => BlockNeverReturnsIsSo(args, calls, hand);
    case Parts(parts) => BlockNeverReturnsIsSo(parts, calls, hand);
    case Exit(args, _) => BlockNeverReturnsIsSo(args, calls, hand);
    case AssertFalse(message, _) => BlockNeverReturnsIsSo(message, calls, hand);
    case Expect(t) => NeverReturnsIsSo(t, calls, hand);
    case If(bs, hasElse) => ChainNeverReturnsIsSo(bs, AfterIf(hasElse), calls, hand);
    case Match(subject, bs) =>
      BlockNeverReturnsIsSo(subject, calls, hand);
      ChainNeverReturnsIsSo(bs, {Fails}, calls, hand);
    case While(_, cond, l, body) =>
      BlockNeverReturnsIsSo(cond, calls, hand);
      BlockNeverReturnsIsSo(body, calls, hand + {l});
    case ForEach(over, l, body) =>
      BlockNeverReturnsIsSo(over, calls, hand);
      BlockNeverReturnsIsSo(body, calls, hand + {l});
    case _ =>
  }

  lemma {:induction false} ChainNeverReturnsIsSo(bs: seq<Branch>, last: set<Outcome>, calls: Calls, hand: set<Label>)
    requires ChainNeverReturns(bs) && ReturnsStop(calls) && Returns !in last
    ensures Returns !in ChainEnds(bs, last, calls, hand)
    decreases bs, 1
  {
    if bs != [] {
      BlockNeverReturnsIsSo(bs[0].cond, calls, hand);
      BlockNeverReturnsIsSo(bs[0].body, calls, hand);
      ChainNeverReturnsIsSo(bs[1..], last, calls, hand);
    }
  }

  lemma {:induction false} BlockNeverReturnsIsSo(b: seq<Stmt>, calls: Calls, hand: set<Label>)
    requires BlockNeverReturns(b) && ReturnsStop(calls)
    ensures Returns !in BlockEnds(b, calls, hand)
    decreases b, 1
  {
    if b != [] {
      NeverReturnsIsSo(b[0], calls, hand);
      BlockNeverReturnsIsSo(b[1..], calls, hand);
    }
  }

  /** The labels said to leak cover every break that leaves a function. */
  predicate Covers(p: Program, leaks: Leaks) { forall f :: f in p ==> BlockEscapes(p[f], leaks) <= leaks(f) }

  lemma {:induction false} CallsBreakWithin(p: Program, k: nat, leaks: Leaks)
    requires Covers(p, leaks)
    ensures Within(CallEnds(p, k), leaks) && ReturnsStop(CallEnds(p, k))
  {
    hide CallEnds, BlockEnds, BlockEscapes;
    var calls := CallEnds(p, k);
    if k > 0 { CallsBreakWithin(p, k - 1, leaks); }
    forall f, hand, t | BreaksTo(t) in calls(f, hand) ensures t in leaks(f) {
      CalledEnds(p, if k > 0 then k - 1 else 0, f, hand);
      if k > 0 && f in p { PartsBreaksEscape(p[f], t, CallEnds(p, k - 1), hand, leaks); }
    }
    forall f, hand ensures Returns !in calls(f, hand) { CalledEnds(p, if k > 0 then k - 1 else 0, f, hand); }
  }

  /** Where the check accepts every `@noreturn` function, each by what the
      others promise, nothing it relies on is hidden from it, and none of them
      says `return`, none comes back however deep the calls go, rings of them
      included, whatever loops it is called in. */
  lemma {:induction false} NoreturnKeepsItsWord(p: Program, gone: set<string>, leaks: Leaks, k: nat)
    requires gone <= p.Keys && Covers(p, leaks)
    requires forall f :: f in gone ==> BlockLeaves(p[f], gone) && CandidBlock(p[f], gone, leaks)
    requires forall f :: f in gone ==> BlockNeverReturns(p[f])
    ensures Gone(gone, CallEnds(p, k))
  {
    hide CallEnds, BlockEnds, BlockEscapes, BlockLeaves, CandidBlock, BlockNeverReturns, Within, ReturnsStop, Covers;
    var calls := CallEnds(p, k);
    if k > 0 {
      NoreturnKeepsItsWord(p, gone, leaks, k - 1);
      CallsBreakWithin(p, k - 1, leaks);
    }
    forall f, hand | f in gone ensures Passes !in calls(f, hand) {
      CalledEnds(p, if k > 0 then k - 1 else 0, f, hand);
      if k > 0 {
        BlockLeavesIsSo(p[f], gone, CallEnds(p, k - 1), hand, leaks);
        BlockNeverReturnsIsSo(p[f], CallEnds(p, k - 1), hand);
      }
    }
  }

  // ---- blocks the check accepts that some run comes to the end of -----------------------------

  /** A failure that was expected ... */
  lemma ExpectedFailurePasses(calls: Calls, hand: set<Label>)
    ensures var b := [Expect(AssertFalse([], true))];
            BlockLeaves(b, {}) && SomeRun(b, Passes, calls, hand)
  {
    var b := [Expect(AssertFalse([], true))];
    assert Leaves(b[0], {});
    OnlyStatement(b[0], Passes, calls, hand);
    EndsExactly(b, Passes, calls, hand);
  }

  lemma OnlyStatement(s: Stmt, o: Outcome, calls: Calls, hand: set<Label>)
    ensures o in BlockEnds([s], calls, hand) <==> o in Ends(s, calls, hand)
  {
    hide Ends;
    assert [s][1..] == [] && BlockEnds([], calls, hand) == {Passes};
  }

  /** An endless loop whose body may break it is left. */
  lemma BrokenLoopPasses(l: Label, body: seq<Stmt>, t: Label, calls: Calls, hand: set<Label>)
    requires Mine(t, l) && BreaksTo(t) in BlockEnds(body, calls, hand + {l}) && !BlockBreaks(body)
    ensures var b := [While(true, [], l, body)]; BlockLeaves(b, {}) && SomeRun(b, Passes, calls, hand)
  {
    hide Ends;
    var b := [While(true, [], l, body)];
    assert Leaves(b[0], {});
    LoopBreaks(l, body, t, calls, hand);
    OnlyStatement(b[0], Passes, calls, hand);
    EndsExactly(b, Passes, calls, hand);
  }

  lemma LoopBreaks(l: Label, body: seq<Stmt>, t: Label, calls: Calls, hand: set<Label>)
    requires Mine(t, l) && BreaksTo(t) in BlockEnds(body, calls, hand + {l})
    ensures Passes in Ends(While(true, [], l, body), calls, hand)
  {
    assert BlockEnds([], calls, hand) == {Passes};
  }

  /** ... a break written in a `catch` ... */
  lemma CaughtBreakPasses(calls: Calls, hand: set<Label>)
    ensures var b := [While(true, [], Unnamed, [Catch([Break(Unnamed)])])];
            BlockLeaves(b, {}) && SomeRun(b, Passes, calls, hand)
  {
    var s := Catch([Break(Unnamed)]);
    OnlyStatement(Break(Unnamed), BreaksTo(Unnamed), calls, hand + {Unnamed});
    OnlyStatement(s, BreaksTo(Unnamed), calls, hand + {Unnamed});
    BrokenLoopPasses(Unnamed, [s], Unnamed, calls, hand);
  }

  /** ... one that names a loop around the one it is in ... */
  lemma CrossingBreakPasses(l: string, calls: Calls, hand: set<Label>)
    ensures var b := [While(true, [], Called(l), [ForEach([], Unnamed, [Break(Called(l))])])];
            BlockLeaves(b, {}) && SomeRun(b, Passes, calls, hand)
  {
    var inside := hand + {Called(l)};
    var named, s := Break(Called(l)), ForEach([], Unnamed, [Break(Called(l))]);
    OnlyStatement(named, BreaksTo(Called(l)), calls, inside + {Unnamed});
    assert BlockEnds([], calls, inside) == {Passes};
    assert BreaksTo(Called(l)) in Ends(s, calls, inside);
    OnlyStatement(s, BreaksTo(Called(l)), calls, inside);
    BrokenLoopPasses(Called(l), [s], Called(l), calls, hand);
  }

  /** `if c { first } else { second }` standing as a value. */
  function Choice(first: seq<Stmt>, second: seq<Stmt>): Stmt {
    Parts([If([Branch([Work], first), Branch([], second)], true)])
  }

  lemma ChoiceEnds(first: seq<Stmt>, second: seq<Stmt>, o: Outcome, calls: Calls, hand: set<Label>)
    requires o in BlockEnds(first, calls, hand) || o in BlockEnds(second, calls, hand)
    ensures o in Ends(Choice(first, second), calls, hand)
  {
    var bs := [Branch([Work], first), Branch([], second)];
    OnlyStatement(Work, Passes, calls, hand);
    assert BlockEnds([], calls, hand) == {Passes};
    assert bs[1..][1..] == [] && bs[1..][0] == Branch([], second);
    assert o in BlockEnds(second, calls, hand) ==> o in ChainEnds(bs[1..], {}, calls, hand);
    assert o in ChainEnds(bs, {}, calls, hand);
    OnlyStatement(If(bs, true), o, calls, hand);
  }

  /** ... one in a branch of an `if` that stands as a value: `let x := if c { break; }
      else { 1 }` ... */
  lemma ValueBreakPasses(calls: Calls, hand: set<Label>)
    ensures var b := [While(true, [], Unnamed, [Choice([Break(Unnamed)], [])])];
            BlockLeaves(b, {}) && SomeRun(b, Passes, calls, hand)
  {
    var s, inside := Choice([Break(Unnamed)], []), hand + {Unnamed};
    OnlyStatement(Break(Unnamed), BreaksTo(Unnamed), calls, inside);
    ChoiceEnds([Break(Unnamed)], [], BreaksTo(Unnamed), calls, inside);
    OnlyStatement(s, BreaksTo(Unnamed), calls, inside);
    BrokenLoopPasses(Unnamed, [s], Unnamed, calls, hand);
  }

  /** ... one in a function that is called, outside any loop of its own, which
      acts on the caller's: the check for that looks at no else ... */
  lemma LeakedBreakPasses(g: string, hand: set<Label>)
    ensures var p: Program := map[g := [If([Branch([Work], []), Branch([], [Break(Unnamed)])], true)]];
            var b := [While(true, [], Unnamed, [Call(g, [], true)])];
            BlockLeaves(b, {}) && SomeRun(b, Passes, CallEnds(p, 1), hand)
  {
    var s := If([Branch([Work], []), Branch([], [Break(Unnamed)])], true);
    var p: Program := map[g := [s]];
    var inner, calls, inside := CallEnds(p, 0), CallEnds(p, 1), hand + {Unnamed};
    OnlyStatement(Break(Unnamed), BreaksTo(Unnamed), inner, inside);
    ChoiceEnds([], [Break(Unnamed)], BreaksTo(Unnamed), inner, inside);
    assert BlockEnds([s], inner, inside) == Ends(Choice([], [Break(Unnamed)]), inner, inside);
    CalledEnds(p, 0, g, inside);
    assert BreaksTo(Unnamed) in calls(g, inside);
    assert BlockEnds([], calls, inside) == {Passes};
    OnlyStatement(Call(g, [], true), BreaksTo(Unnamed), calls, inside);
    BrokenLoopPasses(Unnamed, [Call(g, [], true)], Unnamed, calls, hand);
  }

  /** ... or a call by name that does not run what it names, as one that hands a
      `@noreturn` function of one parameter nothing. */
  lemma CallNotRunPasses(f: string, calls: Calls, hand: set<Label>)
    ensures var b := [Call(f, [], false)];
            BlockLeaves(b, {f}) && SomeRun(b, Passes, calls, hand)
  {
    var b := [Call(f, [], false)];
    assert BlockEnds([], calls, hand) == {Passes};
    assert Leaves(b[0], {f}) && Passes in Ends(b[0], calls, hand);
    OnlyStatement(b[0], Passes, calls, hand);
    EndsExactly(b, Passes, calls, hand);
  }

  /** A `return` satisfies the check and comes back all the same ... */
  lemma ReturnGoesUnnoticed(f: string, value: seq<Stmt>, leaks: Leaks, hand: set<Label>)
    requires Passes in BlockEnds(value, CallEnds(map[f := [Return(value)]], 0), hand)
    ensures var p: Program := map[f := [Return(value)]];
            BlockLeaves(p[f], {f}) && CandidBlock(p[f], {f}, leaks) && Passes in CallEnds(p, 1)(f, hand)
  {
    var p: Program := map[f := [Return(value)]];
    assert Leaves(p[f][0], {f});
    OnlyStatement(Return(value), Returns, CallEnds(p, 0), hand);
  }

  /** ... and so does one in a value before an endless loop. */
  lemma ValueReturnGoesUnnoticed(f: string, leaks: Leaks, hand: set<Label>)
    ensures var p: Program := map[f := [Choice([Return([])], []), While(true, [], Unnamed, [])]];
            BlockLeaves(p[f], {f}) && CandidBlock(p[f], {f}, leaks) && Passes in CallEnds(p, 1)(f, hand)
  {
    var b := [Choice([Return([])], []), While(true, [], Unnamed, [])];
    var p: Program := map[f := b];
    var inner := CallEnds(p, 0);
    assert Leaves(b[1], {f});
    assert BlockEnds([], inner, hand) == {Passes};
    OnlyStatement(Return([]), Returns, inner, hand);
    ChoiceEnds([Return([])], [], Returns, inner, hand);
    assert Returns in BlockEnds(b, inner, hand);
  }
}
