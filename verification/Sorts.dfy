/** Expansion and the shape a tree's fields must have (interp/macros.py). */
module Sorts {
  import opened Syntax
  import opened Matching
  import opened Hygiene
  import opened Expansion

  /** What stands at a place: one tree that is no line; a line or one tree, an
      assignment being a line; a statement held by itself, as `@expect` holds one,
      which is no invocation on its own line; anything with no line in it; a
      sequence; a fixed group; or a group that another such may follow in its last
      place, as the elifs and the else of an `if` do. */
  datatype Sort =
    | OneTree
    | Line
    | Held
    | Anything
    | Many(of: Sort)
    | Group(parts: seq<Sort>)
    | Chain(parts: seq<Sort>)

  /** What the fields of each kind of node hold.  A node that may hold either one
      tree or a body, as a lambda or a quote, is of one kind or another by that. */
  type Grammar = Kind -> seq<Sort>

  /** What the i-th thing in a sequence of this sort is; a line stands only in a list. */
  function Inner(s: Sort, i: nat): Sort {
    match s
    case Many(of) => of
    case Group(parts) => if i < |parts| && !parts[i].Line? then parts[i] else OneTree
    case Chain(parts) => if i >= |parts| then s else if parts[i].Line? then OneTree else parts[i]
    case Anything => Anything
    case _ => OneTree
  }

  /** Whether a tuple of these may be of this sort. */
  predicate TupleFits(ts: seq<Tree>, s: Sort) {
    match s
    case OneTree => false
    case Line => IsAssign(Tuple(ts))
    case Held => IsAssign(Tuple(ts))
    case Anything => true
    case Many(of) => !of.Line?
    case Group(parts) => |ts| == |parts|
    case Chain(parts) => |parts| <= |ts| <= |parts| + 1
  }

  /** A place for one tree, whatever else might stand there. */
  predicate Single(s: Sort) { s.OneTree? || s.Anything? }

  /** A node that may stand here: an expression line only as a line, or held where
      what is on it is there to see and no invocation. */
  predicate NodeFits(k: Kind, fs: seq<Tree>, s: Sort) {
    s.Line? || (Single(s) && !k.ExprLine?) ||
    (s.Held? && (k.ExprLine? ==> fs != [] && !IsCall(fs[0]) && !fs[0].Hole?))
  }

  /** The tree has everything where its grammar puts it; no hole of `loose`, which
      may be a line's, stands where one tree must. */
  predicate OfSort(t: Tree, s: Sort, g: Grammar, loose: set<string>)
    decreases t, 0
  {
    match t
    case Hole(h, _) => s.Line? || ((Single(s) || s.Held?) && h !in loose)
    case Node(k, _, fs, _) =>
      NodeFits(k, fs, s) && |fs| == |g(k)| && AllOfSort(fs, Group(g(k)), 0, g, loose)
    case List(ts) => (s.Many? || s.Anything?) && AllOfSort(ts, s, 0, g, loose)
    case Tuple(ts) => TupleFits(ts, s) && AllOfSort(ts, s, 0, g, loose)
    case _ => true
  }

  predicate AllOfSort(ts: seq<Tree>, s: Sort, i: nat, g: Grammar, loose: set<string>)
    decreases ts, 0
  {
    ts == [] || (OfSort(ts[0], Inner(s, i), g, loose) && AllOfSort(ts[1..], s, i + 1, g, loose))
  }

  /** The holes of a pattern that may be matched with a line. */
  function Loose(p: Tree, s: Sort, g: Grammar): set<string>
    decreases p, 0
  {
    match p
    case Hole(h, _) => if s.Line? || s.Held? then {h} else {}
    case Node(k, _, fs, _) => AllLoose(fs, Group(g(k)), 0, g)
    case List(ps) => AllLoose(ps, s, 0, g)
    case Tuple(ps) => AllLoose(ps, s, 0, g)
    case _ => {}
  }

  function AllLoose(ps: seq<Tree>, s: Sort, i: nat, g: Grammar): set<string>
    decreases ps, 0
  {
    if ps == [] then {} else Loose(ps[0], Inner(s, i), g) + AllLoose(ps[1..], s, i + 1, g)
  }

  const BODY: Sort := Many(Line)
  const ARGS: Sort := Many(OneTree)

  /** A template writes one tree or a body, and uses what may be a line only where
      a line may stand. */
  predicate Writes(template: Tree, g: Grammar, loose: set<string>) {
    OfSort(template, if template.List? then BODY else OneTree, g, loose)
  }

  /** The pieces put back into what a macro function wrote that are lines. */
  function LinePieces(b: Binds): set<string> { set h | h in b && b[h].Node? && b[h].kind.ExprLine? }

  /** What fills the holes: single trees, and for a loose one perhaps a line. */
  predicate Pieces(b: Binds, g: Grammar, loose: set<string>) {
    forall h :: h in b ==> OfSort(b[h], if h in loose then Line else OneTree, g, {})
  }

  predicate AnswerWrites(a: Answer, g: Grammar) {
    match a
    case Piece(q) => OfSort(q.tree, OneTree, g, LinePieces(q.spliced)) && Pieces(q.spliced, g, LinePieces(q.spliced))
    case Block(q) => AllOfSort(q.body, BODY, 0, g, LinePieces(q.spliced)) && Pieces(q.spliced, g, LinePieces(q.spliced))
    case _ => true
  }

  /** An invocation is handed single trees, a line holds one, and everything the
      macros write is of its grammar: no line held anywhere but in a list. */
  ghost predicate Grammatical(ms: Macros, g: Grammar) {
    |g(MacroCall)| > 0 && g(MacroCall)[0] == ARGS && g(ExprLine) == [OneTree, OneTree] &&
    (forall x, i :: x in ms.table && ms.table[x].ByRules? && 0 <= i < |ms.table[x].rules| ==>
       RuleWrites(ms.table[x].rules[i], g)) &&
    (forall x, args, n :: AllOfSort(args, ARGS, 0, g, {}) ==> AnswerWrites(ms.runner(x, args, n), g))
  }

  predicate RuleWrites(r: Rule, g: Grammar) { Writes(r.template, g, AllLoose(r.patterns, ARGS, 0, g)) }

  // ---- matching, renaming and filling ------------------------------------------------

  /** One tree may stand wherever one tree may. */
  lemma OneIsLine(t: Tree, g: Grammar, loose: set<string>)
    requires OfSort(t, OneTree, g, loose) || (IsNode(t) && OfSort(t, Anything, g, loose))
    ensures OfSort(t, OneTree, g, loose) && OfSort(t, Line, g, loose) && OfSort(t, Anything, g, loose)
    ensures OfSort(t, Held, g, loose)
  {}

  lemma HeldIsLine(t: Tree, g: Grammar, loose: set<string>)
    requires IsNode(t) && OfSort(t, Held, g, loose)
    ensures OfSort(t, Line, g, loose)
  {}

  lemma {:induction false} MatchLearns(p: Tree, t: Tree, b: Binds, s: Sort, g: Grammar, loose: set<string>)
    requires OfSort(t, s, g, {}) && Loose(p, s, g) <= loose && Pieces(b, g, loose)
    ensures Match(p, t, b).Some? ==> Pieces(Match(p, t, b).value, g, loose)
    decreases p, 1
  {
    match p
    case Hole(h, _) =>
      if Single(s) && IsNode(t) { OneIsLine(t, g, {}); }
      if s.Held? && IsNode(t) { HeldIsLine(t, g, {}); }
    case Node(k, _, fs, _) =>
      if t.Node? && k == t.kind && |fs| == |t.fields| {
        MatchAllLearns(fs, t.fields, b, Group(g(k)), 0, g, loose);
      }
    case List(ps) => if IsSeq(t) && |ps| == |t.items| { MatchAllLearns(ps, t.items, b, s, 0, g, loose); }
    case Tuple(ps) => if IsSeq(t) && |ps| == |t.items| { MatchAllLearns(ps, t.items, b, s, 0, g, loose); }
    case _ =>
  }

  lemma {:induction false} MatchAllLearns(ps: seq<Tree>, ts: seq<Tree>, b: Binds, s: Sort, i: nat, g: Grammar,
                                          loose: set<string>)
    requires |ps| == |ts| && AllOfSort(ts, s, i, g, {}) && AllLoose(ps, s, i, g) <= loose && Pieces(b, g, loose)
    ensures MatchAll(ps, ts, b).Some? ==> Pieces(MatchAll(ps, ts, b).value, g, loose)
    decreases ps, 1
  {
    hide Pieces;
    if ps != [] {
      MatchLearns(ps[0], ts[0], b, Inner(s, i), g, loose);
      var b1 := Match(ps[0], ts[0], b);
      if b1.Some? { MatchAllLearns(ps[1..], ts[1..], b1.value, s, i + 1, g, loose); }
    }
  }

  lemma {:induction false} RenameKeepsSort(t: Tree, bound: Renaming, s: Sort, g: Grammar, loose: set<string>)
    requires OfSort(t, s, g, loose)
    ensures OfSort(Rename(t, bound), s, g, loose) && (Rename(t, bound).List? <==> t.List?)
    decreases t, 1
  {
    match t
    case Node(k, _, fs, _) =>
      RenameAllKeepsSort(fs, bound, Group(g(k)), 0, g, loose);
      assert fs != [] ==> RenameAll(fs, bound)[0] == Rename(fs[0], bound);
    case List(ts) => RenameAllKeepsSort(ts, bound, s, 0, g, loose);
    case Tuple(ts) =>
      RenameAllKeepsSort(ts, bound, s, 0, g, loose);
      assert ts != [] ==> RenameAll(ts, bound)[0] == Rename(ts[0], bound);
    case _ =>
  }

  lemma {:induction false} RenameAllKeepsSort(ts: seq<Tree>, bound: Renaming, s: Sort, i: nat, g: Grammar,
                                              loose: set<string>)
    requires AllOfSort(ts, s, i, g, loose)
    ensures AllOfSort(RenameAll(ts, bound), s, i, g, loose)
    decreases ts, 1
  {
    if ts != [] {
      RenameKeepsSort(ts[0], bound, Inner(s, i), g, loose);
      RenameAllKeepsSort(ts[1..], bound, s, i + 1, g, loose);
      assert RenameAll(ts, bound)[1..] == RenameAll(ts[1..], bound);
    }
  }

  lemma {:induction false} FillKeepsSort(t: Tree, b: Binds, s: Sort, g: Grammar, loose: set<string>)
    requires OfSort(t, s, g, loose) && Pieces(b, g, loose) && Fill(t, b).Some?
    ensures OfSort(Fill(t, b).value, s, g, {}) && (Fill(t, b).value.List? <==> t.List?)
    decreases t, 1
  {
    match t
    case Hole(h, _) => if h !in loose { OneIsLine(b[h], g, {}); }
    case Node(k, _, fs, _) => FillAllKeepsSort(fs, b, Group(g(k)), 0, g, loose);
    case List(ts) => FillAllKeepsSort(ts, b, s, 0, g, loose);
    case Tuple(ts) => FillAllKeepsSort(ts, b, s, 0, g, loose);
    case _ =>
  }

  lemma {:induction false} FillAllKeepsSort(ts: seq<Tree>, b: Binds, s: Sort, i: nat, g: Grammar, loose: set<string>)
    requires AllOfSort(ts, s, i, g, loose) && Pieces(b, g, loose) && FillAll(ts, b).Some?
    ensures AllOfSort(FillAll(ts, b).value, s, i, g, {})
    decreases ts, 1
  {
    hide Pieces;
    if ts != [] {
      FillKeepsSort(ts[0], b, Inner(s, i), g, loose);
      FillAllKeepsSort(ts[1..], b, s, i + 1, g, loose);
      assert FillAll(ts, b).value[1..] == FillAll(ts[1..], b).value;
    }
  }

  // ---- one invocation --------------------------------------------------------------------

  predicate OfSortWritten(w: Writing, g: Grammar) {
    match w
    case One(u) => OfSort(u, OneTree, g, {})
    case Statements(us) => AllOfSort(us, BODY, 0, g, {})
    case Declined(_) => true
  }

  lemma {:induction false} FirstFitIsOne(rules: seq<Rule>, args: seq<Tree>)
    ensures FirstFit(rules, args).Some? ==> FirstFit(rules, args).value in rules
  {
    if rules != [] { FirstFitIsOne(rules[1..], args); }
  }

  lemma RulesWriteSorts(rules: seq<Rule>, call: Tree, g: Grammar, n: nat)
    requires AllOfSort(ArgsOf(call), ARGS, 0, g, {})
    requires forall i :: 0 <= i < |rules| ==> RuleWrites(rules[i], g)
    ensures OfSortWritten(ApplyRules(rules, call, n).0, g)
  {
    var args := ArgsOf(call);
    FirstFitIsOne(rules, args);
    FirstFitFits(rules, args);
    match FirstFit(rules, args)
    case None =>
    case Some(rule) =>
      var loose := AllLoose(rule.patterns, ARGS, 0, g);
      assert RuleWrites(rule, g);
      var b := MatchAll(rule.patterns, args, map[]).value;
      MatchAllLearns(rule.patterns, args, map[], ARGS, 0, g, loose);
      var bound := Collect(rule.template, map[], n).0;
      var s := if rule.template.List? then BODY else OneTree;
      RenameKeepsSort(rule.template, bound, s, g, loose);
      if Fill(Rename(rule.template, bound), b).Some? { FillKeepsSort(Rename(rule.template, bound), b, s, g, loose); }
  }

  lemma FunctionWritesSorts(params: nat, call: Tree, ms: Macros, g: Grammar, n: nat)
    requires Grammatical(ms, g) && AllOfSort(ArgsOf(call), ARGS, 0, g, {})
    ensures OfSortWritten(ApplyFunction(params, call, ms, n).0, g)
  {
    if |ArgsOf(call)| == params {
      assert AnswerWrites(ms.runner(NameOf(call), ArgsOf(call), n), g);
      match ms.runner(NameOf(call), ArgsOf(call), n)
      case Piece(q) =>
        var bound := Collect(q.tree, map[], n).0;
        Fillable(q.tree, bound, q.spliced);
        RenameKeepsSort(q.tree, bound, OneTree, g, LinePieces(q.spliced));
        FillKeepsSort(Rename(q.tree, bound), q.spliced, OneTree, g, LinePieces(q.spliced));
      case Block(q) =>
        var bound := CollectAll(q.body, map[], n).0;
        AllFillable(q.body, bound, q.spliced);
        RenameAllKeepsSort(q.body, bound, BODY, 0, g, LinePieces(q.spliced));
        FillAllKeepsSort(RenameAll(q.body, bound), q.spliced, BODY, 0, g, LinePieces(q.spliced));
      case _ =>
    }
  }

  /** Whatever an invocation of its grammar is replaced by is of its grammar. */
  lemma ApplyKeepsSort(call: Tree, s: Sort, ms: Macros, g: Grammar, n: nat)
    requires Grammatical(ms, g) && IsCall(call) && OfSort(call, s, g, {})
    ensures OfSortWritten(Apply(call, ms, n).0, g)
  {
    hide ApplyRules, ApplyFunction, OfSortWritten, RuleWrites, AnswerWrites;
    assert AllOfSort(ArgsOf(call), ARGS, 0, g, {}) by {
      if ArgsOf(call) != [] { assert OfSort(call.fields[0], Inner(Group(g(MacroCall)), 0), g, {}); }
    }
    var x := NameOf(call);
    if x in ms.table {
      match ms.table[x]
      case ByRules(rules) => RulesWriteSorts(rules, call, g, n);
      case ByFunction(params) => FunctionWritesSorts(params, call, ms, g, n);
    } else {
      assert OfSortWritten(Declined(NoSuchMacro(x)), g) by { DeclinedWrites(NoSuchMacro(x), g); }
    }
  }

  lemma DeclinedWrites(why: Refusal, g: Grammar)
    ensures OfSortWritten(Declined(why), g)
  {}

  // ---- expansion --------------------------------------------------------------------------

  /** What a tree of this sort expands to: one of that sort, or a body in place of
      a line. */
  predicate KeptSort(t: Tree, e: Expanded, s: Sort, g: Grammar) {
    match e
    case Done(r) =>
      (OfSort(r, s, g, {}) && (r.List? ==> t.List?)) || (s.Line? && !t.List? && r.List? && OfSort(r, BODY, g, {}))
    case Lines(us, _) => AllOfSort(us, BODY, 0, g, {})
    case Stopped(_) => true
  }

  lemma {:induction false} ExpandSorts(t: Tree, s: Sort, ms: Macros, g: Grammar, depth: nat, n: nat)
    requires depth <= MAX_DEPTH && Grammatical(ms, g) && OfSort(t, s, g, {})
    ensures KeptSort(t, Expand(t, ms, depth, n).0, s, g)
    decreases MAX_DEPTH - depth, t
  {
    hide Apply, IsMiscall, Grammatical;
    if IsCall(t) {
      if depth < MAX_DEPTH {
        ApplyKeepsSort(t, s, ms, g, n);
        var (w, m) := Apply(t, ms, n);
        match w
        case Declined(_) =>
        case One(u) =>
          ExpandSorts(u, OneTree, ms, g, depth + 1, m);
          var e := Expand(u, ms, depth + 1, m).0;
          if e.Done? { OneIsLine(e.t, g, {}); }
        case Statements(us) => ExpandBodySorts(us, ms, g, depth + 1, m);
      }
    } else if IsMiscall(t, ms) {
    } else if IsMacroLine(t) {
      LineSorts(t, s, ms, g, depth, n);
    } else if t.Node? {
      ExpandAllSorts(t.fields, Group(g(t.kind)), 0, ms, g, depth, n);
      OneForOne(t.fields, ms, depth, n);
    } else if t.List? {
      if s == BODY {
        ExpandBodySorts(t.items, ms, g, depth, n);
      } else {
        ExpandListSorts(t.items, s, 0, ms, g, depth, n);
      }
    } else if t.Tuple? {
      ExpandAllSorts(t.items, s, 0, ms, g, depth, n);
      OneForOne(t.items, ms, depth, n);
    }
  }

  /** An invocation on a line of its own. */
  lemma {:induction false} LineSorts(t: Tree, s: Sort, ms: Macros, g: Grammar, depth: nat, n: nat)
    requires depth <= MAX_DEPTH && Grammatical(ms, g) && OfSort(t, s, g, {}) && IsMacroLine(t) && !IsMiscall(t, ms)
    ensures KeptSort(t, Expand(t, ms, depth, n).0, s, g)
    decreases MAX_DEPTH - depth, t, 0
  {
    hide Apply, IsMiscall;
    assert OfSort(t.fields[0], Inner(Group(g(ExprLine)), 0), g, {});
    assert OfSort(t.fields[0], OneTree, g, {});
    ExpandSorts(t.fields[0], OneTree, ms, g, depth, n);
    var e := Expand(t.fields[0], ms, depth, n).0;
    assert t.fields[1..] == [t.fields[1]];
    if e.Done? {
      var fs := [e.t] + t.fields[1..];
      assert fs[1..] == t.fields[1..];
      assert AllOfSort(fs, Group(g(ExprLine)), 0, g, {});
    }
  }

  /** Things not in a body, one for one. */
  lemma {:induction false} ExpandAllSorts(ts: seq<Tree>, s: Sort, i: nat, ms: Macros, g: Grammar, depth: nat, n: nat)
    requires depth <= MAX_DEPTH && Grammatical(ms, g) && AllOfSort(ts, s, i, g, {}) && s != BODY
    ensures var r := ExpandAll(ts, false, ms, depth, n).0; r.AllDone? ==> AllOfSort(r.ts, s, i, g, {})
    decreases MAX_DEPTH - depth, ts, 1
  {
    hide Apply, IsMiscall, Expand, Grammatical;
    if ts != [] {
      assert !Inner(s, i).Line?;
      ExpandSorts(ts[0], Inner(s, i), ms, g, depth, n);
      var (e, m) := Expand(ts[0], ms, depth, n);
      if e.Done? {
        ExpandAllSorts(ts[1..], s, i + 1, ms, g, depth, m);
        var rest := ExpandAll(ts[1..], false, ms, depth, m).0;
        if rest.AllDone? { assert ([e.t] + rest.ts)[1..] == rest.ts; }
      }
    }
  }

  /** A list of other things: nothing in it becomes a list that was not one. */
  lemma {:induction false} ExpandListSorts(ts: seq<Tree>, s: Sort, i: nat, ms: Macros, g: Grammar, depth: nat, n: nat)
    requires depth <= MAX_DEPTH && Grammatical(ms, g) && AllOfSort(ts, s, i, g, {}) && s != BODY
    ensures var r := ExpandAll(ts, true, ms, depth, n).0; r.AllDone? ==> AllOfSort(r.ts, s, i, g, {})
    decreases MAX_DEPTH - depth, ts, 1
  {
    hide Apply, IsMiscall, Expand, Grammatical;
    if ts != [] {
      assert !Inner(s, i).Line?;
      ExpandSorts(ts[0], Inner(s, i), ms, g, depth, n);
      var (e, m) := Expand(ts[0], ms, depth, n);
      if e.Done? {
        ExpandListSorts(ts[1..], s, i + 1, ms, g, depth, m);
        var rest := ExpandAll(ts[1..], true, ms, depth, m).0;
        if rest.AllDone? { assert ([e.t] + rest.ts)[1..] == rest.ts; }
      }
    }
  }

  /** A body: what a line becomes joins it. */
  lemma {:induction false} ExpandBodySorts(ts: seq<Tree>, ms: Macros, g: Grammar, depth: nat, n: nat)
    requires depth <= MAX_DEPTH && Grammatical(ms, g) && AllOfSort(ts, BODY, 0, g, {})
    ensures var r := ExpandAll(ts, true, ms, depth, n).0; r.AllDone? ==> AllOfSort(r.ts, BODY, 0, g, {})
    decreases MAX_DEPTH - depth, ts, 1
  {
    hide Apply, IsMiscall, Expand, Grammatical;
    if ts != [] {
      ExpandSorts(ts[0], Line, ms, g, depth, n);
      var (e, m) := Expand(ts[0], ms, depth, n);
      if e.Done? {
        SameSorts(ts[1..], 1, 0, g);
        ExpandBodySorts(ts[1..], ms, g, depth, m);
        var rest := ExpandAll(ts[1..], true, ms, depth, m).0;
        if rest.AllDone? {
          var first := InPlaceOf(ts[0], e.t, true);
          assert AllOfSort([e.t][1..], BODY, 1, g, {});
          assert AllOfSort(first, BODY, 0, g, {});
          BodyAppend(first, rest.ts, 0, g);
        }
      }
    }
  }

  /** Where one thing stands in a body makes no difference. */
  lemma {:induction false} SameSorts(ts: seq<Tree>, i: nat, j: nat, g: Grammar)
    requires AllOfSort(ts, BODY, i, g, {})
    ensures AllOfSort(ts, BODY, j, g, {})
    decreases ts
  {
    if ts != [] { SameSorts(ts[1..], i + 1, j + 1, g); }
  }

  lemma {:induction false} BodyAppend(ts: seq<Tree>, us: seq<Tree>, i: nat, g: Grammar)
    requires AllOfSort(ts, BODY, i, g, {}) && AllOfSort(us, BODY, 0, g, {})
    ensures AllOfSort(ts + us, BODY, i, g, {})
    decreases ts
  {
    if ts == [] {
      assert ts + us == us;
      SameSorts(us, 0, i, g);
    } else {
      assert (ts + us)[1..] == ts[1..] + us;
      BodyAppend(ts[1..], us, i + 1, g);
    }
  }

  /** A program whose lines stand only in lists of statements, and macros that
      write no other: expansion, where it is not refused, leaves a tree with no
      macro in it whose every field at every depth holds what its grammar says. */
  lemma ExpansionKeepsSorts(t: Tree, s: Sort, ms: Macros, g: Grammar, n: nat)
    requires Grammatical(ms, g) && OfSort(t, s, g, {}) && !s.Line?
    ensures var e := Expand(t, ms, 0, n).0; e.Done? ==> OfSort(e.t, s, g, {}) && Settled(e.t, ms)
  {
    ExpandSorts(t, s, ms, g, 0, n);
    ExpandSettles(t, ms, 0, n);
  }

  // ---- at every depth -------------------------------------------------------------------------

  lemma {:induction false} PartOfSort(ts: seq<Tree>, s: Sort, i: nat, g: Grammar, j: nat)
    requires AllOfSort(ts, s, i, g, {}) && j < |ts|
    ensures OfSort(ts[j], Inner(s, i + j), g, {})
    decreases ts
  {
    if j > 0 { PartOfSort(ts[1..], s, i + 1, g, j - 1); }
  }

  lemma {:induction false} UnderOfSort(t: Tree, s: Sort, g: Grammar, path: seq<nat>) returns (r: Sort)
    requires OfSort(t, s, g, {}) && Under(t, path).Some?
    ensures OfSort(Under(t, path).value, r, g, {})
    decreases |path|
  {
    if path == [] {
      r := s;
    } else {
      var within := if t.Node? then Group(g(t.kind)) else s;
      PartOfSort(Parts(t), within, 0, g, path[0]);
      r := UnderOfSort(Parts(t)[path[0]], Inner(within, path[0]), g, path[1..]);
    }
  }

  /** So no field that holds one tree becomes a list, in any node the result has
      anywhere. */
  lemma SingleStaysSingle(t: Tree, s: Sort, ms: Macros, g: Grammar, n: nat, path: seq<nat>, i: nat)
    requires Grammatical(ms, g) && OfSort(t, s, g, {}) && !s.Line? && Expand(t, ms, 0, n).0.Done?
    requires var r := Expand(t, ms, 0, n).0.t;
             Under(r, path).Some? && Under(r, path).value.Node? && i < |Under(r, path).value.fields|
    ensures var x := Under(Expand(t, ms, 0, n).0.t, path).value;
            |x.fields| == |g(x.kind)| && (!g(x.kind)[i].Many? && !g(x.kind)[i].Anything? ==> !x.fields[i].List?)
  {
    hide Grammatical, Expand;
    ExpansionKeepsSorts(t, s, ms, g, n);
    var r := Expand(t, ms, 0, n).0.t;
    var x := Under(r, path).value;
    var sort := UnderOfSort(r, s, g, path);
    PartOfSort(x.fields, Group(g(x.kind)), 0, g, i);
  }
}
