/** Replacing every macro invocation in a tree with what it answers
    (interp/macros.py). */
module Expansion {
  import opened Syntax
  import opened Matching
  import opened Hygiene

  /** How many rewritings deep one expansion may go. */
  const MAX_DEPTH: nat := 64

  datatype Rule = Rule(patterns: seq<Tree>, template: Tree)
  datatype Macro = ByRules(rules: seq<Rule>) | ByFunction(params: nat)

  /** What a macro function answers.  A tree or a run of statements is what its
      quotes wrote, a hole marking each place where a piece of the caller's was
      put back by `$`; those pieces are `spliced`. */
  datatype Quoted = QuotedTree(tree: Tree, spliced: Binds)
  datatype QuotedBlock = QuotedBlock(body: seq<Tree>, spliced: Binds)
  type ClosedTree = q: Quoted | Holes(q.tree) <= q.spliced.Keys witness QuotedTree(Num(0), map[])
  type ClosedBlock = q: QuotedBlock | AllHoles(q.body) <= q.spliced.Keys witness QuotedBlock([], map[])
  datatype Answer = Piece(tree: ClosedTree) | Block(block: ClosedBlock) | OtherValue | Raised

  /** Every macro there is, the functions there are, and what running a macro
      function answers, given the arguments and all that was expanded before. */
  datatype Macros = Macros(table: map<Ident, Macro>, functions: set<Ident>, runner: (Ident, seq<Tree>, nat) -> Answer)

  datatype Refusal =
    | TooDeep(name: Ident)
    | CalledAsFunction(name: Ident)
    | StatementsAsValue(name: Ident)
    | NoSuchMacro(name: Ident)
    | WrongCount(name: Ident)
    | NoRuleMatches(name: Ident)
    | NothingMatched
    | NotAPiece(name: Ident)
    | MacroRaised(name: Ident)

  /** What one invocation is replaced by. */
  datatype Writing = One(one: Tree) | Statements(body: seq<Tree>) | Declined(why: Refusal)

  /** What expanding a tree gives: a tree, or statements still on their way to
      the line they replace. */
  datatype Expanded = Done(t: Tree) | Lines(ts: seq<Tree>, writer: Ident) | Stopped(why: Refusal)
  datatype ExpandedAll = AllDone(ts: seq<Tree>) | AllStopped(why: Refusal)

  function NameOf(t: Tree): Ident { if t.Node? && t.name.Some? then t.name.value else Written("") }

  function ArgsOf(t: Tree): seq<Tree> {
    if t.Node? && |t.fields| > 0 && t.fields[0].List? then t.fields[0].items else []
  }

  predicate IsCall(t: Tree) { t.Node? && t.kind.MacroCall? }

  /** A macro invocation on a line of its own. */
  predicate IsMacroLine(t: Tree) { IsLine(t) && IsCall(t.fields[0]) && t.fields[1].Atom? }

  /** A macro written the way a function is called. */
  predicate IsMiscall(t: Tree, ms: Macros) {
    t.Node? && t.kind.FuncCall? && NameOf(t) in ms.table && NameOf(t) !in ms.functions
  }

  predicate Fits(r: Rule, args: seq<Tree>) {
    |r.patterns| == |args| && MatchAll(r.patterns, args, map[]).Some?
  }

  function FirstFit(rules: seq<Rule>, args: seq<Tree>): Option<Rule> {
    if rules == [] then None
    else if Fits(rules[0], args) then Some(rules[0])
    else FirstFit(rules[1..], args)
  }

  /** `_apply_rules` */
  function ApplyRules(rules: seq<Rule>, call: Tree, n: nat): (Writing, nat) {
    var args := ArgsOf(call);
    match FirstFit(rules, args)
    case None =>
      if exists i :: 0 <= i < |rules| && |rules[i].patterns| == |args|
      then (Declined(NoRuleMatches(NameOf(call))), n) else (Declined(WrongCount(NameOf(call))), n)
    case Some(rule) =>
      FirstFitFits(rules, args);
      var (bound, m) := Collect(rule.template, map[], n);
      match Fill(Rename(rule.template, bound), MatchAll(rule.patterns, args, map[]).value)
      case None => (Declined(NothingMatched), m)
      case Some(filled) => (if filled.List? then Statements(filled.items) else One(filled), m)
  }

  lemma {:induction false} FirstFitFits(rules: seq<Rule>, args: seq<Tree>)
    ensures FirstFit(rules, args).Some? ==> Fits(FirstFit(rules, args).value, args)
  {
    if rules != [] { FirstFitFits(rules[1..], args); }
  }

  /** `_apply_func` */
  function ApplyFunction(params: nat, call: Tree, ms: Macros, n: nat): (Writing, nat) {
    var name := NameOf(call);
    if |ArgsOf(call)| != params then (Declined(WrongCount(name)), n) else
    match ms.runner(name, ArgsOf(call), n)
    case OtherValue => (Declined(NotAPiece(name)), n)
    case Raised => (Declined(MacroRaised(name)), n)
    case Piece(q) =>
      var (bound, m) := Collect(q.tree, map[], n);
      Fillable(q.tree, bound, q.spliced);
      (One(Fill(Rename(q.tree, bound), q.spliced).value), m)
    case Block(q) =>
      var (bound, m) := CollectAll(q.body, map[], n);
      AllFillable(q.body, bound, q.spliced);
      (Statements(FillAll(RenameAll(q.body, bound), q.spliced).value), m)
  }

  /** `_apply` */
  function Apply(call: Tree, ms: Macros, n: nat): (Writing, nat) {
    if NameOf(call) !in ms.table then (Declined(NoSuchMacro(NameOf(call))), n) else
    match ms.table[NameOf(call)]
    case ByRules(rules) => ApplyRules(rules, call, n)
    case ByFunction(params) => ApplyFunction(params, call, ms, n)
  }

  /** `expand`: an invocation before what is written inside it, and what comes
      out of one in turn, one rewriting deeper. */
  function Expand(t: Tree, ms: Macros, depth: nat, n: nat): (Expanded, nat)
    requires depth <= MAX_DEPTH
    decreases MAX_DEPTH - depth, t
  {
    if IsCall(t) then
      if depth >= MAX_DEPTH then (Stopped(TooDeep(NameOf(t))), n) else
      var (w, m) := Apply(t, ms, n);
      match w
      case Declined(why) => (Stopped(why), m)
      case One(u) => Expand(u, ms, depth + 1, m)
      case Statements(us) =>
        var (all, k) := ExpandAll(us, true, ms, depth + 1, m);
        (if all.AllStopped? then Stopped(all.why) else Lines(all.ts, NameOf(t)), k)
    else if IsMiscall(t, ms) then (Stopped(CalledAsFunction(NameOf(t))), n)
    else if IsMacroLine(t) then
      var (e, m) := Expand(t.fields[0], ms, depth, n);
      (OnALine(t, e), m)
    else if t.Node? then
      var (all, m) := ExpandAll(t.fields, false, ms, depth, n);
      (if all.AllStopped? then Stopped(all.why) else Done(t.(fields := all.ts)), m)
    else if t.List? then
      var (all, m) := ExpandAll(t.items, true, ms, depth, n);
      (if all.AllStopped? then Stopped(all.why) else Done(List(all.ts)), m)
    else if t.Tuple? then
      var (all, m) := ExpandAll(t.items, false, ms, depth, n);
      (if all.AllStopped? then Stopped(all.why) else Done(Tuple(all.ts)), m)
    else (Done(t), n)
  }

  /** What a line holding an invocation becomes. */
  function OnALine(t: Tree, e: Expanded): Expanded
    requires IsMacroLine(t)
  {
    match e
    case Lines(us, _) => Done(List(us))
    case Done(u) => Done(t.(fields := [u] + t.fields[1..]))
    case Stopped(why) => e
  }

  /** One thing after another.  Where `splice`, a list that came from something
      that was not one is put in place of it. */
  function ExpandAll(ts: seq<Tree>, splice: bool, ms: Macros, depth: nat, n: nat): (ExpandedAll, nat)
    requires depth <= MAX_DEPTH
    decreases MAX_DEPTH - depth, ts
  {
    if ts == [] then (AllDone([]), n) else
    var (e, m) := Expand(ts[0], ms, depth, n);
    if !e.Done? then (AllStopped(WhyNot(e)), m) else
    var (rest, k) := ExpandAll(ts[1..], splice, ms, depth, m);
    (if rest.AllStopped? then rest else AllDone(InPlaceOf(ts[0], e.t, splice) + rest.ts), k)
  }

  /** `_one` */
  function WhyNot(e: Expanded): Refusal
    requires !e.Done?
  {
    if e.Stopped? then e.why else StatementsAsValue(e.writer)
  }

  function InPlaceOf(t: Tree, u: Tree, splice: bool): seq<Tree> {
    if splice && u.List? && !t.List? then u.items else [u]
  }

  // ---- the rule that decides ---------------------------------------------------------

  lemma {:induction false} FirstFitIs(rules: seq<Rule>, args: seq<Tree>, i: nat)
    requires i < |rules| && Fits(rules[i], args) && forall j :: 0 <= j < i ==> !Fits(rules[j], args)
    ensures FirstFit(rules, args) == Some(rules[i])
  {
    if i > 0 {
      assert rules[1..][i - 1] == rules[i];
      forall j | 0 <= j < i - 1 ensures !Fits(rules[1..][j], args) { assert rules[1..][j] == rules[j + 1]; }
      FirstFitIs(rules[1..], args, i - 1);
    }
  }

  lemma {:induction false} NoFit(rules: seq<Rule>, args: seq<Tree>)
    ensures FirstFit(rules, args).None? <==> forall i :: 0 <= i < |rules| ==> !Fits(rules[i], args)
  {
    if rules != [] {
      NoFit(rules[1..], args);
      assert forall i :: 1 <= i < |rules| ==> rules[i] == rules[1..][i - 1];
      assert forall i :: 0 <= i < |rules[1..]| ==> rules[1..][i] == rules[i + 1];
    }
  }

  /** Some substitution makes a rule's patterns the arguments. */
  ghost predicate Describes(r: Rule, args: seq<Tree>) {
    exists s :: Instance(List(r.patterns), List(args), s)
  }

  /** An invocation is rewritten by the first rule some substitution makes the
      arguments of, and refused exactly where there is none. */
  lemma FirstRuleDecides(rules: seq<Rule>, args: seq<Tree>, i: nat)
    requires AllHoleFree(args) && i < |rules|
    ensures Describes(rules[i], args) && (forall j :: 0 <= j < i ==> !Describes(rules[j], args))
            ==> FirstFit(rules, args) == Some(rules[i])
    ensures FirstFit(rules, args).None? <==> forall j :: 0 <= j < |rules| ==> !Describes(rules[j], args)
  {
    forall j | 0 <= j < |rules| ensures Describes(rules[j], args) <==> Fits(rules[j], args) {
      MatchExactly(List(rules[j].patterns), List(args));
    }
    if Describes(rules[i], args) && forall j :: 0 <= j < i ==> !Describes(rules[j], args) {
      FirstFitIs(rules, args, i);
    }
    NoFit(rules, args);
  }

  /** What rules answer: the template of the first that fits, its own names renamed
      by numbers new to the counter and its holes filled with what was matched, as
      statements where it is a list and as one tree where it is not; and where none
      fits, whether any takes so many arguments. */
  lemma RulesAnswer(rules: seq<Rule>, call: Tree, n: nat)
    ensures var args := ArgsOf(call);
            var (w, m) := ApplyRules(rules, call, n);
            match FirstFit(rules, args)
            case None =>
              m == n && w == Declined(if exists i :: 0 <= i < |rules| && |rules[i].patterns| == |args|
                                      then NoRuleMatches(NameOf(call)) else WrongCount(NameOf(call)))
            case Some(rule) =>
              Fits(rule, args) && n <= m &&
              exists bound :: Fresh(bound, n, m) && bound.Keys == Defined(rule.template) &&
                var filled := Fill(Rename(rule.template, bound), MatchAll(rule.patterns, args, map[]).value);
                if filled.None? then w == Declined(NothingMatched)
                else if filled.value.List? then w == Statements(filled.value.items) else w == One(filled.value)
  {
    hide Collect, Fill, Rename, MatchAll, Fresh, Defined, Fits;
    var args := ArgsOf(call);
    FirstFitFits(rules, args);
    if FirstFit(rules, args).Some? {
      var rule := FirstFit(rules, args).value;
      FittingIs(rule, args);
      Collected(rule.template, n);
      var (bound, m) := Collect(rule.template, map[], n);
      var filled := Fill(Rename(rule.template, bound), MatchAll(rule.patterns, args, map[]).value);
      assert ApplyRules(rules, call, n)
             == (if filled.None? then Declined(NothingMatched)
                 else if filled.value.List? then Statements(filled.value.items) else One(filled.value), m);
    }
  }

  lemma FittingIs(r: Rule, args: seq<Tree>)
    ensures Fits(r, args) ==> |r.patterns| == |args| && MatchAll(r.patterns, args, map[]).Some?
  {}

  lemma Collected(t: Tree, n: nat)
    ensures var (bound, m) := Collect(t, map[], n);
            Fresh(bound, n, m) && bound.Keys == Defined(t) && n <= m
  {
    CollectFresh(t, map[], n, n);
    assert Collect(t, map[], n).0.Keys == Defined(t);
  }

  /** A macro of no such name, and a function asked with the wrong count, that
      raised, or that answered no piece of program, is each told as such. */
  lemma RefusalsAre(call: Tree, ms: Macros, n: nat)
    ensures var x, w := NameOf(call), Apply(call, ms, n).0;
            if x !in ms.table then w == Declined(NoSuchMacro(x))
            else if ms.table[x].ByFunction? then
              var a := ms.runner(x, ArgsOf(call), n);
              if |ArgsOf(call)| != ms.table[x].params then w == Declined(WrongCount(x))
              else (a.OtherValue? ==> w == Declined(NotAPiece(x))) && (a.Raised? ==> w == Declined(MacroRaised(x))) &&
                   (a.Block? ==> w.Statements?) && (a.Piece? ==> w.One?)
            else true
  {}

  /** A macro written the way a function is called is refused, unless there is a
      function of that name too. */
  lemma MiscallIsRefused(x: Ident, args: seq<Tree>, pos: nat, ms: Macros, depth: nat, n: nat)
    requires depth <= MAX_DEPTH && x in ms.table
    ensures var call := Node(FuncCall, Some(x), [List(args)], pos);
            (x !in ms.functions ==> Expand(call, ms, depth, n) == (Stopped(CalledAsFunction(x)), n)) &&
            (x in ms.functions && AllSettled(args, ms) ==> Expand(call, ms, depth, n) == (Done(call), n))
  {
    var call := Node(FuncCall, Some(x), [List(args)], pos);
    if x in ms.functions && AllSettled(args, ms) {
      OneSettled(List(args), ms);
      SettledStays(call, ms, depth, n);
    }
  }

  /** A piece a macro function answers takes the place of the call, its own names
      renamed and the caller's pieces as they were. */
  lemma PieceAnswers(call: Tree, ms: Macros, q: ClosedTree, n: nat)
    requires NameOf(call) in ms.table && ms.table[NameOf(call)] == ByFunction(|ArgsOf(call)|)
    requires ms.runner(NameOf(call), ArgsOf(call), n) == Piece(q)
    ensures var (w, m) := Apply(call, ms, n);
            exists bound :: Fresh(bound, n, m) && bound.Keys == Defined(q.tree) &&
              Fill(Rename(q.tree, bound), q.spliced).Some? && w == One(Fill(Rename(q.tree, bound), q.spliced).value)
  {
    CollectFresh(q.tree, map[], n, n);
    var bound := Collect(q.tree, map[], n).0;
    Fillable(q.tree, bound, q.spliced);
    assert bound.Keys == Defined(q.tree);
  }

  /** What an invocation is answered by keeps the meaning its rule's template has
      apart: the statements written, renamed and filled, do to the caller's names
      what the template does where its own names live apart from them. */
  lemma RuleKeepsMeaning(rules: seq<Rule>, call: Tree, rule: Rule, n: nat, caller: Env, ops: Operators)
    requires FirstFit(rules, ArgsOf(call)) == Some(rule) && rule.template.List?
    requires AllHoleFree(ArgsOf(call)) && AllBelow(ArgsOf(call), n) && AllBelow(rule.template.items, n)
    requires forall y :: y in caller ==> Below(y, n)
    requires forall i :: 0 <= i < |rule.template.items| ==> !rule.template.items[i].Hole?
    requires AllHoles(rule.template.items) <= AllHoles(rule.patterns)
    ensures |rule.patterns| == |ArgsOf(call)| && MatchAll(rule.patterns, ArgsOf(call), map[]).Some?
    ensures var w := ApplyRules(rules, call, n).0;
            var ts, b := rule.template.items, MatchAll(rule.patterns, ArgsOf(call), map[]).value;
            w.Statements? &&
            SameToCaller(RunAll(w.body, caller, ops), RunAllApart(ts, AllDefined(ts), b, Envs(map[], caller), ops), n)
  {
    hide RunAll, RunAllApart, SameToCaller;
    var args, ts := ArgsOf(call), rule.template.items;
    FirstFitFits(rules, args);
    MatchExactly(List(rule.patterns), List(args));
    var b := MatchAll(rule.patterns, args, map[]).value;
    MatchedAreBelow(rule.patterns, args, n);
    MatchAllKeeps(rule.patterns, args, map[]);
    CollectAllFresh(ts, map[], n, n);
    assert CollectAll(ts, map[], n).0.Keys == AllDefined(ts);
    HygieneKeepsMeaning(ts, b, n, caller, ops);
  }

  lemma MatchedAreBelow(ps: seq<Tree>, ts: seq<Tree>, n: nat)
    requires |ps| == |ts| && AllBelow(ts, n) && MatchAll(ps, ts, map[]).Some?
    ensures BindsBelow(MatchAll(ps, ts, map[]).value, n)
  {
    var b := MatchAll(ps, ts, map[]).value;
    MatchBindsPieces(List(ps), List(ts), map[]);
    forall h | h in b ensures TreeBelow(b[h], n) {
      var path :| PieceAt(List(ps), List(ts), path, h, b[h]);
      UnderBelow(List(ts), n, path);
    }
  }

  /** The same for what a macro function's quotes wrote. */
  lemma FunctionKeepsMeaning(params: nat, call: Tree, ms: Macros, q: ClosedBlock, n: nat, caller: Env, ops: Operators)
    requires |ArgsOf(call)| == params && ms.runner(NameOf(call), ArgsOf(call), n) == Block(q)
    requires AllBelow(q.body, n) && BindsBelow(q.spliced, n) && BindsAreNodes(q.spliced)
    requires forall y :: y in caller ==> Below(y, n)
    requires forall i :: 0 <= i < |q.body| ==> !q.body[i].Hole?
    ensures var w := ApplyFunction(params, call, ms, n).0;
            w.Statements? &&
            SameToCaller(RunAll(w.body, caller, ops),
                         RunAllApart(q.body, AllDefined(q.body), q.spliced, Envs(map[], caller), ops), n)
  {
    hide RunAll, RunAllApart, SameToCaller;
    CollectAllFresh(q.body, map[], n, n);
    assert CollectAll(q.body, map[], n).0.Keys == AllDefined(q.body);
    HygieneKeepsMeaning(q.body, q.spliced, n, caller, ops);
  }

  // ---- what is left when expansion succeeds ----------------------------------------------

  /** No invocation at any depth, and no call of what is a macro and not also a
      function. */
  predicate Settled(t: Tree, ms: Macros)
    decreases t, 0
  {
    match t
    case Node(_, _, fs, _) => !IsCall(t) && !IsMiscall(t, ms) && AllSettled(fs, ms)
    case List(ts) => AllSettled(ts, ms)
    case Tuple(ts) => AllSettled(ts, ms)
    case _ => true
  }

  predicate AllSettled(ts: seq<Tree>, ms: Macros)
    decreases ts, 0
  {
    ts == [] || (Settled(ts[0], ms) && AllSettled(ts[1..], ms))
  }

  lemma {:induction false} SettledAppend(ts: seq<Tree>, us: seq<Tree>, ms: Macros)
    requires AllSettled(ts, ms) && AllSettled(us, ms)
    ensures AllSettled(ts + us, ms)
  {
    if ts == [] {
      assert ts + us == us;
    } else {
      assert (ts + us)[1..] == ts[1..] + us;
      SettledAppend(ts[1..], us, ms);
    }
  }

  /** Whatever the macros write and however often, a tree that expands is left
      with no macro in it. */
  lemma {:induction false} ExpandSettles(t: Tree, ms: Macros, depth: nat, n: nat)
    requires depth <= MAX_DEPTH
    ensures var e := Expand(t, ms, depth, n).0;
            (e.Done? ==> Settled(e.t, ms)) && (e.Lines? ==> AllSettled(e.ts, ms))
    decreases MAX_DEPTH - depth, t
  {
    hide Apply, IsMiscall;
    if IsCall(t) {
      if depth < MAX_DEPTH {
        var (w, m) := Apply(t, ms, n);
        match w
        case Declined(_) =>
        case One(u) => ExpandSettles(u, ms, depth + 1, m);
        case Statements(us) => ExpandAllSettles(us, true, ms, depth + 1, m);
      }
    } else if IsMiscall(t, ms) {
    } else if IsMacroLine(t) {
      ExpandSettles(t.fields[0], ms, depth, n);
      LineSettles(t, Expand(t.fields[0], ms, depth, n).0, ms);
    } else if t.Node? {
      ExpandAllSettles(t.fields, false, ms, depth, n);
      SameMiscall(t, ExpandAll(t.fields, false, ms, depth, n).0, ms);
    } else if t.List? {
      ExpandAllSettles(t.items, true, ms, depth, n);
    } else if t.Tuple? {
      ExpandAllSettles(t.items, false, ms, depth, n);
    }
  }

  lemma SameMiscall(t: Tree, all: ExpandedAll, ms: Macros)
    requires t.Node?
    ensures all.AllDone? ==> (IsMiscall(t.(fields := all.ts), ms) <==> IsMiscall(t, ms))
  {}

  lemma OneSettled(t: Tree, ms: Macros)
    requires Settled(t, ms)
    ensures AllSettled([t], ms)
  {
    assert [t][1..] == [];
  }

  lemma LineSettles(t: Tree, e: Expanded, ms: Macros)
    requires IsMacroLine(t) && (e.Done? ==> Settled(e.t, ms)) && (e.Lines? ==> AllSettled(e.ts, ms))
    requires !IsMiscall(t, ms)
    ensures var r := OnALine(t, e); r.Done? ==> Settled(r.t, ms)
    ensures !OnALine(t, e).Lines?
  {
    assert t.fields[1..] == [t.fields[1]];
    if e.Done? {
      OneSettled(t.fields[1], ms);
      OneSettled(e.t, ms);
      SettledAppend([e.t], t.fields[1..], ms);
    }
  }

  lemma {:induction false} ExpandAllSettles(ts: seq<Tree>, splice: bool, ms: Macros, depth: nat, n: nat)
    requires depth <= MAX_DEPTH
    ensures var r := ExpandAll(ts, splice, ms, depth, n).0;
            r.AllDone? ==> AllSettled(r.ts, ms)
    decreases MAX_DEPTH - depth, ts
  {
    hide Apply, IsMiscall, Expand;
    if ts != [] {
      ExpandSettles(ts[0], ms, depth, n);
      var (e, m) := Expand(ts[0], ms, depth, n);
      if e.Done? {
        ExpandAllSettles(ts[1..], splice, ms, depth, m);
        var rest := ExpandAll(ts[1..], splice, ms, depth, m).0;
        if rest.AllDone? { SettledAppend(InPlaceOf(ts[0], e.t, splice), rest.ts, ms); }
      }
    }
  }

  // ---- a tree with no macro in it is left as it is ---------------------------------------

  lemma {:induction false} SettledStays(t: Tree, ms: Macros, depth: nat, n: nat)
    requires depth <= MAX_DEPTH && Settled(t, ms)
    ensures Expand(t, ms, depth, n) == (Done(t), n)
    decreases t, 1
  {
    match t
    case Node(_, _, fs, _) =>
      assert fs == [] || Settled(fs[0], ms);
      AllSettledStay(fs, false, ms, depth, n);
    case List(ts) => AllSettledStay(ts, true, ms, depth, n);
    case Tuple(ts) => AllSettledStay(ts, false, ms, depth, n);
    case _ =>
  }

  lemma {:induction false} AllSettledStay(ts: seq<Tree>, splice: bool, ms: Macros, depth: nat, n: nat)
    requires depth <= MAX_DEPTH && AllSettled(ts, ms)
    ensures ExpandAll(ts, splice, ms, depth, n) == (AllDone(ts), n)
    decreases ts, 1
  {
    if ts != [] {
      SettledStays(ts[0], ms, depth, n);
      AllSettledStay(ts[1..], splice, ms, depth, n);
      assert [ts[0]] + ts[1..] == ts;
    }
  }

  /** Expanding what expansion made changes nothing: one pass is enough. */
  lemma ExpandingAgain(t: Tree, ms: Macros, n: nat, depth: nat, m: nat)
    requires depth <= MAX_DEPTH && Expand(t, ms, 0, n).0.Done?
    ensures var r := Expand(t, ms, 0, n).0.t;
            Expand(r, ms, depth, m) == (Done(r), m)
  {
    ExpandSettles(t, ms, 0, n);
    SettledStays(Expand(t, ms, 0, n).0.t, ms, depth, m);
  }

  // ---- the bound on depth only ever stops an expansion -------------------------------------

  predicate CutOff(e: Expanded) { e.Stopped? && e.why.TooDeep? }

  /** Whatever is not stopped for its depth comes out the same with more depth
      to spare: the bound decides whether there is an answer, never which. */
  lemma {:induction false} DepthOnlyStops(t: Tree, ms: Macros, depth: nat, shallower: nat, n: nat)
    requires shallower <= depth <= MAX_DEPTH && !CutOff(Expand(t, ms, depth, n).0)
    ensures Expand(t, ms, shallower, n) == Expand(t, ms, depth, n)
    decreases MAX_DEPTH - depth, t
  {
    hide Apply, IsMiscall;
    if IsCall(t) {
      var (w, m) := Apply(t, ms, n);
      match w
      case Declined(_) =>
      case One(u) => DepthOnlyStops(u, ms, depth + 1, shallower + 1, m);
      case Statements(us) => DepthOnlyStopsAll(us, true, ms, depth + 1, shallower + 1, m);
    } else if IsMiscall(t, ms) {
    } else if IsMacroLine(t) {
      DepthOnlyStops(t.fields[0], ms, depth, shallower, n);
    } else if t.Node? {
      DepthOnlyStopsAll(t.fields, false, ms, depth, shallower, n);
    } else if t.List? {
      DepthOnlyStopsAll(t.items, true, ms, depth, shallower, n);
    } else if t.Tuple? {
      DepthOnlyStopsAll(t.items, false, ms, depth, shallower, n);
    }
  }

  lemma {:induction false} DepthOnlyStopsAll(ts: seq<Tree>, splice: bool, ms: Macros, depth: nat, shallower: nat,
                                             n: nat)
    requires shallower <= depth <= MAX_DEPTH
    requires var r := ExpandAll(ts, splice, ms, depth, n).0; !(r.AllStopped? && r.why.TooDeep?)
    ensures ExpandAll(ts, splice, ms, shallower, n) == ExpandAll(ts, splice, ms, depth, n)
    decreases MAX_DEPTH - depth, ts
  {
    hide Apply, IsMiscall, Expand;
    if ts != [] {
      DepthOnlyStops(ts[0], ms, depth, shallower, n);
      var (e, m) := Expand(ts[0], ms, depth, n);
      if e.Done? { DepthOnlyStopsAll(ts[1..], splice, ms, depth, shallower, m); }
    }
  }

  /** A macro that writes itself is stopped, at the bound and not before. */
  lemma {:induction false} SelfWritingIsStopped(ms: Macros, x: Ident, pos: nat, depth: nat, n: nat)
    requires depth <= MAX_DEPTH
    requires x in ms.table && ms.table[x] == ByRules([Rule([], Node(MacroCall, Some(x), [List([])], pos))])
    ensures Expand(Node(MacroCall, Some(x), [List([])], pos), ms, depth, n) == (Stopped(TooDeep(x)), n)
    decreases MAX_DEPTH - depth
  {
    if depth < MAX_DEPTH {
      var t := Node(MacroCall, Some(x), [List([])], pos);
      assert RenameAll([List([])], map[]) == [List([])] && FillAll([List([])], map[]) == Some([List([])]);
      assert Collect(t, map[], n) == (map[], n);
      assert Apply(t, ms, n) == (One(t), n);
      SelfWritingIsStopped(ms, x, pos, depth + 1, n);
    }
  }

  // ---- where statements a macro wrote may stand ------------------------------------------------

  /** An invocation is answered by statements, or by one invocation of which that holds. */
  predicate WritesStatements(call: Tree, ms: Macros, depth: nat, n: nat)
    requires depth <= MAX_DEPTH
    decreases MAX_DEPTH - depth
  {
    depth < MAX_DEPTH && IsCall(call) &&
    var (w, m) := Apply(call, ms, n);
    w.Statements? || (w.One? && WritesStatements(w.one, ms, depth + 1, m))
  }

  /** Statements come out of an invocation exactly where it is answered by some. */
  lemma {:induction false} LinesExactly(t: Tree, ms: Macros, depth: nat, n: nat)
    requires depth <= MAX_DEPTH
    ensures var e := Expand(t, ms, depth, n).0;
            (e.Lines? ==> WritesStatements(t, ms, depth, n)) && (WritesStatements(t, ms, depth, n) ==> !e.Done?)
    decreases MAX_DEPTH - depth
  {
    hide Apply, IsMiscall, ExpandAll;
    if IsCall(t) && depth < MAX_DEPTH {
      var (w, m) := Apply(t, ms, n);
      if w.One? { LinesExactly(w.one, ms, depth + 1, m); }
    }
  }

  /** The invocation a tree comes down to is on a line of its own and is answered
      by statements: the tree is such a line, or an invocation replaced by a list,
      or by one tree of which this holds. */
  predicate EndsInALine(t: Tree, ms: Macros, depth: nat, n: nat)
    requires depth <= MAX_DEPTH
    decreases MAX_DEPTH - depth
  {
    if IsCall(t) then
      depth < MAX_DEPTH &&
      var (w, m) := Apply(t, ms, n);
      w.One? && (w.one.List? || EndsInALine(w.one, ms, depth + 1, m))
    else IsMacroLine(t) && WritesStatements(t.fields[0], ms, depth, n)
  }

  /** A list takes the place of a single tree exactly where that comes down to an
      invocation on its own line that writes statements.  Everywhere else a node
      stays one node, of its kind and name and with as many fields, or the
      expansion is refused. */
  lemma {:induction false} StatementsOnlyOnLines(t: Tree, ms: Macros, depth: nat, n: nat)
    requires depth <= MAX_DEPTH && !t.List? && Expand(t, ms, depth, n).0.Done?
    ensures var r := Expand(t, ms, depth, n).0.t;
            (r.List? <==> EndsInALine(t, ms, depth, n)) &&
            (t.Node? && !IsCall(t) && !IsMacroLine(t) ==>
               r.Node? && r.kind == t.kind && r.name == t.name && r.pos == t.pos && |r.fields| == |t.fields|)
    decreases MAX_DEPTH - depth
  {
    hide Apply, IsMiscall;
    if IsCall(t) {
      var (w, m) := Apply(t, ms, n);
      if w.One? && !w.one.List? { StatementsOnlyOnLines(w.one, ms, depth + 1, m); }
    } else if IsMacroLine(t) {
      LinesExactly(t.fields[0], ms, depth, n);
    } else if t.Node? && !IsMacroLine(t) && !IsMiscall(t, ms) {
      OneForOne(t.fields, ms, depth, n);
    }
  }

  /** Outside a list of statements, as many things come out as went in. */
  lemma {:induction false} OneForOne(ts: seq<Tree>, ms: Macros, depth: nat, n: nat)
    requires depth <= MAX_DEPTH
    ensures var r := ExpandAll(ts, false, ms, depth, n).0; r.AllDone? ==> |r.ts| == |ts|
    decreases ts
  {
    hide Expand;
    if ts != [] {
      var (e, m) := Expand(ts[0], ms, depth, n);
      OneForOne(ts[1..], ms, depth, m);
    }
  }

  // ---- the pass as it is written -----------------------------------------------------------

  /** What one item of a list becomes joins the list made so far. */
  lemma {:induction false} ExpandAllAppend(ts: seq<Tree>, t: Tree, splice: bool, ms: Macros, depth: nat, n: nat)
    requires depth <= MAX_DEPTH
    ensures var (done, m) := ExpandAll(ts, splice, ms, depth, n);
            ExpandAll(ts + [t], splice, ms, depth, n) ==
              if done.AllStopped? then (done, m) else
              var (e, k) := Expand(t, ms, depth, m);
              (if e.Done? then AllDone(done.ts + InPlaceOf(t, e.t, splice)) else AllStopped(WhyNot(e)), k)
    decreases |ts|
  {
    hide Expand;
    if ts == [] {
      assert [t][1..] == [];
      var (e, k) := Expand(t, ms, depth, n);
      if e.Done? { assert InPlaceOf(t, e.t, splice) + [] == [] + InPlaceOf(t, e.t, splice); }
    } else {
      assert (ts + [t])[1..] == ts[1..] + [t];
      var (e, m) := Expand(ts[0], ms, depth, n);
      if e.Done? {
        ExpandAllAppend(ts[1..], t, splice, ms, depth, m);
        var (done, m1) := ExpandAll(ts[1..], splice, ms, depth, m);
        var last := Expand(t, ms, depth, m1).0;
        if done.AllDone? && last.Done? {
          var first := InPlaceOf(ts[0], e.t, splice);
          assert (first + done.ts) + InPlaceOf(t, last.t, splice) == first + (done.ts + InPlaceOf(t, last.t, splice));
        }
      }
    }
  }

  lemma {:induction false} StoppedStays(ts: seq<Tree>, us: seq<Tree>, splice: bool, ms: Macros, depth: nat, n: nat)
    requires depth <= MAX_DEPTH && ExpandAll(ts, splice, ms, depth, n).0.AllStopped?
    ensures ExpandAll(ts + us, splice, ms, depth, n) == ExpandAll(ts, splice, ms, depth, n)
    decreases |ts|
  {
    hide Expand;
    assert (ts + us)[1..] == ts[1..] + us;
    var (e, m) := Expand(ts[0], ms, depth, n);
    if e.Done? { StoppedStays(ts[1..], us, splice, ms, depth, m); }
  }

  lemma StoppedThere(ts: seq<Tree>, i: nat, splice: bool, ms: Macros, depth: nat, n: nat)
    requires depth <= MAX_DEPTH && i < |ts| && ExpandAll(ts[..i], splice, ms, depth, n).0.AllDone?
    requires Expand(ts[i], ms, depth, ExpandAll(ts[..i], splice, ms, depth, n).1).0.Lines?
    ensures var e := Expand(ts[i], ms, depth, ExpandAll(ts[..i], splice, ms, depth, n).1).0;
            ExpandAll(ts, splice, ms, depth, n).0 == AllStopped(StatementsAsValue(e.writer))
  {
    hide Expand;
    assert ts[..i] + [ts[i]] == ts[..i + 1] && ts[..i + 1] + ts[i + 1..] == ts;
    ExpandAllAppend(ts[..i], ts[i], splice, ms, depth, n);
    StoppedStays(ts[..i + 1], ts[i + 1..], splice, ms, depth, n);
  }

  /** An invocation that writes statements, reached as a field, an item or a part
      rather than on its own line, refuses whatever holds it. */
  lemma StatementsRefusedAsValue(t: Tree, i: nat, us: seq<Tree>, ms: Macros, depth: nat, n: nat)
    requires depth < MAX_DEPTH && !IsCall(t) && !IsMiscall(t, ms) && !IsMacroLine(t)
    requires i < |Parts(t)| && IsCall(Parts(t)[i]) && AllSettled(us, ms)
    requires var (done, m) := ExpandAll(Parts(t)[..i], t.List?, ms, depth, n);
             done.AllDone? && Apply(Parts(t)[i], ms, m).0 == Statements(us)
    ensures Expand(t, ms, depth, n).0 == Stopped(StatementsAsValue(NameOf(Parts(t)[i])))
  {
    hide Apply, IsMiscall, AllSettled;
    var m := ExpandAll(Parts(t)[..i], t.List?, ms, depth, n).1;
    AllSettledStay(us, true, ms, depth + 1, Apply(Parts(t)[i], ms, m).1);
    StoppedThere(Parts(t), i, t.List?, ms, depth, n);
  }

  /** A line held in a field rather than in a list of statements slips past that
      refusal: what the field holds afterwards is a list. */
  lemma HeldLineBecomesList(held: Tree, us: seq<Tree>, kind: Kind, pos: nat, ms: Macros, depth: nat, n: nat)
    requires depth < MAX_DEPTH && IsMacroLine(held) && Apply(held.fields[0], ms, n).0 == Statements(us)
    requires AllSettled(us, ms)
    requires !kind.MacroCall? && !kind.FuncCall? && !kind.ExprLine?
    ensures Expand(Node(kind, None, [held], pos), ms, depth, n).0 == Done(Node(kind, None, [List(us)], pos))
  {
    AllSettledStay(us, true, ms, depth + 1, Apply(held.fields[0], ms, n).1);
    assert !IsMiscall(held, ms);
    assert Expand(held, ms, depth, n).0 == Done(List(us));
    assert [held][1..] == [] && [List(us)] + [] == [List(us)];
    assert ExpandAll([held], false, ms, depth, n).0 == AllDone([List(us)]);
  }

  // ---- what a body and a node expand to --------------------------------------------------

  /** How something is answered: it has no macro in it and stays, or the invocation
      it is, or is a line of, is answered by one tree or by statements. */
  datatype Answered = Stays | Becomes(one: Tree) | Writes(body: seq<Tree>)

  predicate LineAnswered(t: Tree, a: Answered, ms: Macros, n: nat, m: nat) {
    match a
    case Stays => Settled(t, ms) && m == n
    case Becomes(u) => IsMacroLine(t) && Apply(t.fields[0], ms, n) == (One(u), m) && Settled(u, ms)
    case Writes(us) => IsMacroLine(t) && Apply(t.fields[0], ms, n) == (Statements(us), m) && AllSettled(us, ms)
  }

  /** A line with another tree on it. */
  function Relined(line: Tree, u: Tree): Tree {
    if IsLine(line) then Node(ExprLine, line.name, [u, line.fields[1]], line.pos) else line
  }

  /** The lines that stay, and in the place of every other what it is answered by,
      all of it and in order. */
  function AllAnswers(ts: seq<Tree>, as_: seq<Answered>): seq<Tree>
    requires |as_| == |ts|
  {
    if ts == [] then [] else
    (match as_[0]
     case Stays => [ts[0]]
     case Becomes(u) => [Relined(ts[0], u)]
     case Writes(us) => us) + AllAnswers(ts[1..], as_[1..])
  }

  /** A body of lines, each settled or an invocation answered by what is settled,
      comes to just that; `ns` is the counter before each. */
  lemma {:induction false} BodyExpands(ts: seq<Tree>, as_: seq<Answered>, ns: seq<nat>, ms: Macros, depth: nat)
    requires depth < MAX_DEPTH && |as_| == |ts| && |ns| == |ts| + 1
    requires forall i :: 0 <= i < |ts| ==> LineAnswered(ts[i], as_[i], ms, ns[i], ns[i + 1])
    ensures Expand(List(ts), ms, depth, ns[0]) == (Done(List(AllAnswers(ts, as_))), ns[|ts|])
  {
    hide Apply, LineAnswered;
    AllAnswered(ts, as_, ns, ms, depth);
  }

  lemma {:induction false} AllAnswered(ts: seq<Tree>, as_: seq<Answered>, ns: seq<nat>, ms: Macros, depth: nat)
    requires depth < MAX_DEPTH && |as_| == |ts| && |ns| == |ts| + 1
    requires forall i :: 0 <= i < |ts| ==> LineAnswered(ts[i], as_[i], ms, ns[i], ns[i + 1])
    ensures ExpandAll(ts, true, ms, depth, ns[0]) == (AllDone(AllAnswers(ts, as_)), ns[|ts|])
    decreases ts
  {
    hide Expand, LineAnswered;
    if ts != [] {
      assert LineAnswered(ts[0], as_[0], ms, ns[0], ns[1]);
      LineExpands(ts[0], as_[0], ms, depth, ns[0], ns[1]);
      forall i | 0 <= i < |ts[1..]|
        ensures LineAnswered(ts[1..][i], as_[1..][i], ms, ns[1..][i], ns[1..][i + 1])
      {
        assert LineAnswered(ts[i + 1], as_[i + 1], ms, ns[i + 1], ns[i + 2]);
      }
      AllAnswered(ts[1..], as_[1..], ns[1..], ms, depth);
    }
  }

  /** One line of a body, and what it leaves there. */
  lemma LineExpands(t: Tree, a: Answered, ms: Macros, depth: nat, n: nat, m: nat)
    requires depth < MAX_DEPTH && LineAnswered(t, a, ms, n, m)
    ensures var (e, k) := Expand(t, ms, depth, n);
            e.Done? && k == m &&
            match a
            case Stays => e.t == t
            case Becomes(u) => e.t == Relined(t, u) && !e.t.List?
            case Writes(us) => e.t == List(us) && !t.List?
  {
    hide Apply, ExpandAll;
    match a
    case Stays => SettledStays(t, ms, depth, n);
    case Becomes(u) => SettledStays(u, ms, depth + 1, m);
    case Writes(us) => AllSettledStay(us, true, ms, depth + 1, m);
  }

  predicate PartAnswered(t: Tree, a: Answered, ms: Macros, n: nat, m: nat) {
    match a
    case Stays => Settled(t, ms) && m == n
    case Becomes(u) => IsCall(t) && Apply(t, ms, n) == (One(u), m) && Settled(u, ms)
    case Writes(us) => false
  }

  /** A node whose fields are settled or invocations answered by one settled tree
      is that node with each such tree in its field. */
  lemma NodeExpands(t: Tree, as_: seq<Answered>, ns: seq<nat>, ms: Macros, depth: nat)
    requires depth < MAX_DEPTH && t.Node? && !IsCall(t) && !IsMiscall(t, ms) && !IsMacroLine(t)
    requires |as_| == |t.fields| && |ns| == |t.fields| + 1
    requires forall i :: 0 <= i < |as_| ==> PartAnswered(t.fields[i], as_[i], ms, ns[i], ns[i + 1])
    ensures var (e, m) := Expand(t, ms, depth, ns[0]);
            e.Done? && m == ns[|as_|] && e.t.Node? && e.t.kind == t.kind && e.t.name == t.name && e.t.pos == t.pos &&
            |e.t.fields| == |as_| &&
            forall i :: 0 <= i < |as_| ==> e.t.fields[i] == if as_[i].Becomes? then as_[i].one else t.fields[i]
  {
    hide Apply, IsMiscall, PartAnswered;
    PartsExpand(t.fields, as_, ns, ms, depth);
  }

  lemma {:induction false} PartsExpand(ts: seq<Tree>, as_: seq<Answered>, ns: seq<nat>, ms: Macros, depth: nat)
    requires depth < MAX_DEPTH && |as_| == |ts| && |ns| == |ts| + 1
    requires forall i :: 0 <= i < |ts| ==> PartAnswered(ts[i], as_[i], ms, ns[i], ns[i + 1])
    ensures var (r, m) := ExpandAll(ts, false, ms, depth, ns[0]);
            r.AllDone? && m == ns[|ts|] && |r.ts| == |ts| &&
            forall i :: 0 <= i < |ts| ==> r.ts[i] == if as_[i].Becomes? then as_[i].one else ts[i]
    decreases ts
  {
    hide Expand, PartAnswered;
    if ts != [] {
      assert PartAnswered(ts[0], as_[0], ms, ns[0], ns[1]);
      PartExpands(ts[0], as_[0], ms, depth, ns[0], ns[1]);
      forall i | 0 <= i < |ts[1..]| ensures PartAnswered(ts[1..][i], as_[1..][i], ms, ns[1..][i], ns[1..][i + 1]) {
        assert PartAnswered(ts[i + 1], as_[i + 1], ms, ns[i + 1], ns[i + 2]);
      }
      PartsExpand(ts[1..], as_[1..], ns[1..], ms, depth);
    }
  }

  lemma PartExpands(t: Tree, a: Answered, ms: Macros, depth: nat, n: nat, m: nat)
    requires depth < MAX_DEPTH && PartAnswered(t, a, ms, n, m)
    ensures Expand(t, ms, depth, n) == (Done(if a.Becomes? then a.one else t), m)
  {
    hide Apply, ExpandAll;
    match a
    case Stays => SettledStays(t, ms, depth, n);
    case Becomes(u) => SettledStays(u, ms, depth + 1, m);
    case Writes(_) =>
  }

  /** The expander, with the counter every renaming draws on. */
  class Expander {
    const ms: Macros
    var counter: nat

    constructor (ms: Macros)
      ensures this.ms == ms && counter == 0
    {
      this.ms := ms;
      counter := 0;
    }

    /** `expand` */
    method ExpandTree(t: Tree, depth: nat) returns (e: Expanded)
      requires depth <= MAX_DEPTH
      modifies this`counter
      ensures (e, counter) == Expand(t, ms, depth, old(counter))
      decreases MAX_DEPTH - depth, t
    {
      if IsCall(t) {
        if depth >= MAX_DEPTH { return Stopped(TooDeep(NameOf(t))); }
        var (w, m) := Apply(t, ms, counter);
        counter := m;
        match w
        case Declined(why) => return Stopped(why);
        case One(u) =>
          e := ExpandTree(u, depth + 1);
          return;
        case Statements(us) =>
          var all := ExpandItems(us, true, depth + 1);
          return if all.AllStopped? then Stopped(all.why) else Lines(all.ts, NameOf(t));
      }
      if IsMiscall(t, ms) { return Stopped(CalledAsFunction(NameOf(t))); }
      if IsMacroLine(t) {
        e := ExpandTree(t.fields[0], depth);
        return OnALine(t, e);
      }
      if t.Node? {
        var all := ExpandItems(t.fields, false, depth);
        return if all.AllStopped? then Stopped(all.why) else Done(t.(fields := all.ts));
      }
      if t.List? {
        var all := ExpandItems(t.items, true, depth);
        return if all.AllStopped? then Stopped(all.why) else Done(List(all.ts));
      }
      if t.Tuple? {
        var all := ExpandItems(t.items, false, depth);
        return if all.AllStopped? then Stopped(all.why) else Done(Tuple(all.ts));
      }
      e := Done(t);
    }

    method ExpandItems(ts: seq<Tree>, splice: bool, depth: nat) returns (r: ExpandedAll)
      requires depth <= MAX_DEPTH
      modifies this`counter
      ensures (r, counter) == ExpandAll(ts, splice, ms, depth, old(counter))
      decreases MAX_DEPTH - depth, ts
    {
      hide Expand, ExpandAll;
      var made := [];
      EmptyExpands(splice, ms, depth, counter);
      assert ts[..0] == [];
      for i := 0 to |ts|
        invariant ExpandAll(ts[..i], splice, ms, depth, old(counter)) == (AllDone(made), counter)
      {
        ExpandAllAppend(ts[..i], ts[i], splice, ms, depth, old(counter));
        assert ts[..i] + [ts[i]] == ts[..i + 1];
        var e := ExpandTree(ts[i], depth);
        if !e.Done? {
          assert ts[..i + 1] + ts[i + 1..] == ts;
          StoppedStays(ts[..i + 1], ts[i + 1..], splice, ms, depth, old(counter));
          return AllStopped(WhyNot(e));
        }
        made := made + InPlaceOf(ts[i], e.t, splice);
      }
      assert ts[..|ts|] == ts;
      r := AllDone(made);
    }
  }

  lemma EmptyExpands(splice: bool, ms: Macros, depth: nat, n: nat)
    requires depth <= MAX_DEPTH
    ensures ExpandAll([], splice, ms, depth, n) == (AllDone([]), n)
  {}
}
