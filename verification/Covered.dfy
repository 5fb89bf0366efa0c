/** A small program the theorem about sorts covers, and what its expansion makes of it. */
module Covered {
  import opened Syntax
  import opened Matching
  import opened Hygiene
  import opened Expansion
  import opened Sorts

  const IF: Kind := OtherKind("IfStmt")

  /** An `if`: its condition, its body, and the chain of what follows. */
  function SmallGrammar(k: Kind): seq<Sort> {
    if k == MacroCall then [ARGS]
    else if k == ExprLine then [OneTree, OneTree]
    else if k == IF then [OneTree, BODY, Chain([OneTree, BODY])]
    else []
  }

  function Name(x: string): Tree { Node(VarRef, Some(Written(x)), [], 0) }

  function Assign(target: Tree, value: Tree): Tree { Tuple([Atom("assign_stmt"), target, value]) }

  /** `set⟦$to, $it⟧` writes `$to ← $it`. */
  const SET: Rule := Rule([Hole("to", 0), Hole("it", 0)], List([Assign(Hole("to", 0), Hole("it", 0))]))

  const SETTING: Macros := Macros(map[Written("set") := ByRules([SET])], {}, (x, args, n) => Answer.Raised)

  /** `if a: x ← a` `elif b: set⟦x, b⟧` `else: x ← c` */
  function Chosen(last: seq<Tree>): Tree {
    Node(IF, None,
         [Name("a"), List([Assign(Name("x"), Name("a"))]),
          Tuple([Name("b"), List(last), Tuple([Atom("None"), List([Assign(Name("x"), Name("c"))])])])], 0)
  }

  const SET_LINE: Tree :=
    Node(ExprLine, None, [Node(MacroCall, Some(Written("set")), [List([Name("x"), Name("b")])], 0), Atom("False")], 0)

  lemma OneOfSort(a: Tree, s: Sort, i: nat, g: Grammar, loose: set<string>)
    requires OfSort(a, Inner(s, i), g, loose)
    ensures AllOfSort([a], s, i, g, loose)
  {
    hide OfSort;
    assert [a][1..] == [] && AllOfSort([], s, i + 1, g, loose);
  }

  lemma TwoOfSort(a: Tree, b: Tree, s: Sort, i: nat, g: Grammar, loose: set<string>)
    requires OfSort(a, Inner(s, i), g, loose) && OfSort(b, Inner(s, i + 1), g, loose)
    ensures AllOfSort([a, b], s, i, g, loose)
  {
    hide OfSort;
    assert [a, b][1..] == [b];
    OneOfSort(b, s, i + 1, g, loose);
  }

  lemma ThreeOfSort(a: Tree, b: Tree, c: Tree, s: Sort, i: nat, g: Grammar, loose: set<string>)
    requires OfSort(a, Inner(s, i), g, loose) && OfSort(b, Inner(s, i + 1), g, loose)
    requires OfSort(c, Inner(s, i + 2), g, loose)
    ensures AllOfSort([a, b, c], s, i, g, loose)
  {
    hide OfSort;
    assert [a, b, c][1..] == [b, c];
    TwoOfSort(b, c, s, i + 1, g, loose);
  }

  lemma AssignIsLine(target: Tree, value: Tree, g: Grammar, loose: set<string>)
    requires OfSort(target, OneTree, g, loose) && OfSort(value, OneTree, g, loose)
    ensures OfSort(Assign(target, value), Line, g, loose) && OfSort(List([Assign(target, value)]), BODY, g, loose)
  {
    ThreeOfSort(Atom("assign_stmt"), target, value, Line, 0, g, loose);
    OneOfSort(Assign(target, value), BODY, 0, g, loose);
  }

  lemma NameIsOne(x: string, loose: set<string>)
    ensures OfSort(Name(x), OneTree, SmallGrammar, loose)
  {}

  lemma SettingIsGrammatical()
    ensures Grammatical(SETTING, SmallGrammar)
  {
    var r := SET;
    assert r.patterns[1..] == [Hole("it", 0)] && r.patterns[1..][1..] == [];
    assert AllLoose(r.patterns, ARGS, 0, SmallGrammar) == {};
    AssignIsLine(Hole("to", 0), Hole("it", 0), SmallGrammar, {});
    assert RuleWrites(r, SmallGrammar);
  }

  lemma ChosenIsOne(line: Tree)
    requires OfSort(line, Line, SmallGrammar, {})
    ensures OfSort(Chosen([line]), OneTree, SmallGrammar, {})
  {
    var g: Grammar := SmallGrammar;
    NameIsOne("a", {});
    NameIsOne("b", {});
    NameIsOne("c", {});
    NameIsOne("x", {});
    AssignIsLine(Name("x"), Name("a"), g, {});
    AssignIsLine(Name("x"), Name("c"), g, {});
    OneOfSort(line, BODY, 0, g, {});
    hide OfSort;
    var first, last := List([Assign(Name("x"), Name("a"))]), List([Assign(Name("x"), Name("c"))]);
    ElseIsChain(last, g);
    BodyIs([line], g);
    ElifIsChain(Name("b"), List([line]), Tuple([Atom("None"), last]), g);
    IfIsOne(Name("a"), first, Tuple([Name("b"), List([line]), Tuple([Atom("None"), last])]));
  }

  lemma BodyIs(ts: seq<Tree>, g: Grammar)
    requires AllOfSort(ts, BODY, 0, g, {})
    ensures OfSort(List(ts), BODY, g, {})
  {}

  lemma ElseIsChain(body: Tree, g: Grammar)
    requires OfSort(body, BODY, g, {})
    ensures OfSort(Tuple([Atom("None"), body]), Chain([OneTree, BODY]), g, {})
  {
    TwoOfSort(Atom("None"), body, Chain([OneTree, BODY]), 0, g, {});
  }

  lemma ElifIsChain(cond: Tree, body: Tree, more: Tree, g: Grammar)
    requires OfSort(cond, OneTree, g, {}) && OfSort(body, BODY, g, {}) && OfSort(more, Chain([OneTree, BODY]), g, {})
    ensures OfSort(Tuple([cond, body, more]), Chain([OneTree, BODY]), g, {})
  {
    ThreeOfSort(cond, body, more, Chain([OneTree, BODY]), 0, g, {});
  }

  lemma IfIsOne(cond: Tree, body: Tree, alt: Tree)
    requires OfSort(cond, OneTree, SmallGrammar, {}) && OfSort(body, BODY, SmallGrammar, {})
    requires OfSort(alt, Chain([OneTree, BODY]), SmallGrammar, {})
    ensures OfSort(Node(IF, None, [cond, body, alt], 0), OneTree, SmallGrammar, {})
  {
    ThreeOfSort(cond, body, alt, Group(SmallGrammar(IF)), 0, SmallGrammar, {});
  }

  lemma SetLineIsLine()
    ensures OfSort(SET_LINE, Line, SmallGrammar, {})
  {
    var g: Grammar := SmallGrammar;
    NameIsOne("x", {});
    NameIsOne("b", {});
    TwoOfSort(Name("x"), Name("b"), ARGS, 0, g, {});
    OneOfSort(List([Name("x"), Name("b")]), Group(g(MacroCall)), 0, g, {});
    TwoOfSort(SET_LINE.fields[0], Atom("False"), Group(g(ExprLine)), 0, g, {});
  }

  // What the expansion makes of it.

  lemma SetWrites(call: Tree, n: nat)
    requires call == SET_LINE.fields[0]
    ensures Apply(call, SETTING, n) == (Statements([Assign(Name("x"), Name("b"))]), n)
  {
    var r := SET;
    var args := [Name("x"), Name("b")];
    var b: Binds := map["to" := Name("x"), "it" := Name("b")];
    SetMatches(r, args, b);
    SetFills(b, n);
    assert FirstFit([r], args) == Some(r);
    assert ApplyRules([r], call, n) == (Statements([Assign(Name("x"), Name("b"))]), n);
  }

  lemma SetMatches(r: Rule, args: seq<Tree>, b: Binds)
    requires r.patterns == [Hole("to", 0), Hole("it", 0)] && args == [Name("x"), Name("b")]
    requires b == map["to" := Name("x"), "it" := Name("b")]
    ensures MatchAll(r.patterns, args, map[]) == Some(b)
  {
    assert r.patterns[1..] == [Hole("it", 0)] && r.patterns[1..][1..] == [] && args[1..] == [Name("b")];
    var b1: Binds := map["to" := Name("x")];
    assert b1["it" := Name("b")] == b;
    assert MatchAll(r.patterns[1..], args[1..], b1) == MatchAll([], [], b);
  }

  lemma SetFills(b: Binds, n: nat)
    requires b == map["to" := Name("x"), "it" := Name("b")]
    ensures var t := List([Assign(Hole("to", 0), Hole("it", 0))]);
            Collect(t, map[], n) == (map[], n) && Rename(t, map[]) == t &&
            Fill(t, b) == Some(List([Assign(Name("x"), Name("b"))]))
  {
    var ts, us := [Atom("assign_stmt"), Hole("to", 0), Hole("it", 0)], [Atom("assign_stmt"), Name("x"), Name("b")];
    assert ts[1..] == [Hole("to", 0), Hole("it", 0)] && ts[1..][1..] == [Hole("it", 0)] && ts[1..][1..][1..] == [];
    assert CollectAll(ts, map[], n) == (map[], n);
    assert FillAll([], b) == Some([]);
    assert Fill(Hole("it", 0), b) == Some(Name("b")) && Fill(Hole("to", 0), b) == Some(Name("x"));
    assert FillAll(ts[1..][1..], b) == Some([Name("b")] + []) && [Name("b")] + [] == [Name("b")];
    assert FillAll(ts[1..], b) == Some([Name("x")] + [Name("b")]);
    assert FillAll(ts, b) == Some([Atom("assign_stmt")] + ([Name("x")] + [Name("b")]));
    assert [Atom("assign_stmt")] + ([Name("x")] + [Name("b")]) == us;
    assert Fill(Tuple(ts), b) == Some(Tuple(us));
    assert [Tuple(ts)][1..] == [] && [Tuple(us)] + [] == [Tuple(us)];
    assert FillAll([Tuple(ts)], b) == Some([Tuple(us)]);
    assert Fill(List([Tuple(ts)]), b) == Some(List([Tuple(us)]));
    RenameNothing(List([Tuple(ts)]));
  }

  lemma AssignIsSettled(x: string, y: string)
    ensures Settled(Assign(Name(x), Name(y)), SETTING) && AllSettled([Assign(Name(x), Name(y))], SETTING)
  {
    var ts := [Atom("assign_stmt"), Name(x), Name(y)];
    assert ts[1..] == [Name(x), Name(y)] && ts[1..][1..] == [Name(y)] && ts[1..][1..][1..] == [];
    NameIsSettled(x);
    NameIsSettled(y);
    assert AllSettled(ts[1..][1..], SETTING);
    assert AllSettled(ts[1..], SETTING);
    OneSettled(Assign(Name(x), Name(y)), SETTING);
  }

  lemma NameIsSettled(x: string)
    ensures Settled(Name(x), SETTING)
  {}

  lemma SetLineExpands(n: nat)
    ensures Expand(List([SET_LINE]), SETTING, 0, n) == (Done(List([Assign(Name("x"), Name("b"))])), n)
  {
    hide Apply;
    var made, call := Assign(Name("x"), Name("b")), SET_LINE.fields[0];
    SetWrites(call, n);
    AssignIsSettled("x", "b");
    AllSettledStay([made], true, SETTING, 1, n);
    assert Expand(call, SETTING, 0, n) == (Lines([made], Written("set")), n);
    assert IsMacroLine(SET_LINE) && !IsMiscall(SET_LINE, SETTING);
    assert Expand(SET_LINE, SETTING, 0, n) == (Done(List([made])), n);
    assert [SET_LINE][1..] == [] && [made] + [] == [made];
    assert ExpandAll([], true, SETTING, 0, n) == (AllDone([]), n);
  }

  lemma ThreeExpand(a: Tree, b: Tree, c: Tree, b1: Tree, c1: Tree)
    requires Settled(a, SETTING)
    requires Expand(b, SETTING, 0, 0) == (Done(b1), 0) && Expand(c, SETTING, 0, 0) == (Done(c1), 0)
    ensures ExpandAll([a, b, c], false, SETTING, 0, 0) == (AllDone([a, b1, c1]), 0)
  {
    hide Expand;
    SettledStays(a, SETTING, 0, 0);
    assert [a, b, c][1..] == [b, c] && [b, c][1..] == [c] && [c][1..] == [];
    assert ExpandAll([], false, SETTING, 0, 0) == (AllDone([]), 0);
    assert ExpandAll([c], false, SETTING, 0, 0) == (AllDone([c1] + []), 0);
    assert ExpandAll([b, c], false, SETTING, 0, 0) == (AllDone([b1] + ([c1] + [])), 0);
    assert [a] + ([b1] + ([c1] + [])) == [a, b1, c1];
  }

  lemma ChosenExpands()
    ensures Expand(Chosen([SET_LINE]), SETTING, 0, 0).0 == Done(Chosen([Assign(Name("x"), Name("b"))]))
  {
    var made, first := List([Assign(Name("x"), Name("b"))]), List([Assign(Name("x"), Name("a"))]);
    var none := Tuple([Atom("None"), List([Assign(Name("x"), Name("c"))])]);
    NameIsSettled("a");
    NameIsSettled("b");
    AssignIsSettled("x", "a");
    AssignIsSettled("x", "c");
    SettledStays(first, SETTING, 0, 0);
    ElseIsSettled(List([Assign(Name("x"), Name("c"))]));
    SettledStays(none, SETTING, 0, 0);
    SetLineExpands(0);
    var t, u := Tuple([Name("b"), List([SET_LINE]), none]), Tuple([Name("b"), made, none]);
    ThreeExpand(Name("b"), List([SET_LINE]), none, made, none);
    TupleExpands(t, u);
    ThreeExpand(Name("a"), first, t, first, u);
    IfExpands(Chosen([SET_LINE]), [Name("a"), first, u]);
  }

  lemma ElseIsSettled(body: Tree)
    requires Settled(body, SETTING)
    ensures Settled(Tuple([Atom("None"), body]), SETTING)
  {
    assert [Atom("None"), body][1..] == [body];
    OneSettled(body, SETTING);
  }

  lemma TupleExpands(t: Tree, u: Tree)
    requires t.Tuple? && u.Tuple? && ExpandAll(t.items, false, SETTING, 0, 0) == (AllDone(u.items), 0)
    ensures Expand(t, SETTING, 0, 0) == (Done(u), 0)
  {}

  lemma IfExpands(t: Tree, fs: seq<Tree>)
    requires t.Node? && t.kind == IF && ExpandAll(t.fields, false, SETTING, 0, 0) == (AllDone(fs), 0)
    ensures Expand(t, SETTING, 0, 0).0 == Done(t.(fields := fs))
  {}

  /** An elif chain with an else, assignments in its bodies, and an invocation
      that writes another: all of their sorts before and after. */
  lemma ChainAndAssignmentsAreCovered()
    ensures Grammatical(SETTING, SmallGrammar) && OfSort(Chosen([SET_LINE]), OneTree, SmallGrammar, {})
    ensures var made := Chosen([Assign(Name("x"), Name("b"))]);
            Expand(Chosen([SET_LINE]), SETTING, 0, 0).0 == Done(made) && OfSort(made, OneTree, SmallGrammar, {})
  {
    hide Expand, OfSort, Grammatical;
    SettingIsGrammatical();
    SetLineIsLine();
    ChosenIsOne(SET_LINE);
    ChosenExpands();
    ExpansionKeepsSorts(Chosen([SET_LINE]), OneTree, SETTING, SmallGrammar, 0);
  }
}
