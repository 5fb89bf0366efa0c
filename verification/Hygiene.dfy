/** Renaming what a macro's own text binds, and why that keeps its meaning
    (interp/macros.py). */
module Hygiene {
  import opened Syntax
  import opened Matching

  type Renaming = map<Ident, Ident>

  // ---- what is renamed to what ------------------------------------------------

  /** `collect`: every name a `let` of the tree binds, in the order first met,
      each given a number of its own. */
  function Collect(t: Tree, bound: Renaming, n: nat): (r: (Renaming, nat))
    decreases t, 0
  {
    match t
    case Node(k, x, fs, _) =>
      if k.VarDef? && x.Some? && x.value !in bound
      then CollectAll(fs, bound[x.value := Marked(x.value, n + 1)], n + 1)
      else CollectAll(fs, bound, n)
    case List(ts) => CollectAll(ts, bound, n)
    case Tuple(ts) => CollectAll(ts, bound, n)
    case _ => (bound, n)
  }

  function CollectAll(ts: seq<Tree>, bound: Renaming, n: nat): (r: (Renaming, nat))
    decreases ts, 0
  {
    if ts == [] then (bound, n) else
    var (b, m) := Collect(ts[0], bound, n);
    CollectAll(ts[1..], b, m)
  }

  /** `rename` */
  function Rename(t: Tree, bound: Renaming): Tree
    decreases t, 0
  {
    match t
    case Node(k, x, fs, pos) =>
      var y := if (k.VarDef? || k.VarRef?) && x.Some? && x.value in bound then Some(bound[x.value]) else x;
      Node(k, y, RenameAll(fs, bound), pos)
    case List(ts) => List(RenameAll(ts, bound))
    case Tuple(ts) => Tuple(RenameAll(ts, bound))
    case _ => t
  }

  function RenameAll(ts: seq<Tree>, bound: Renaming): (r: seq<Tree>)
    ensures |r| == |ts|
    decreases ts, 0
  {
    if ts == [] then [] else [Rename(ts[0], bound)] + RenameAll(ts[1..], bound)
  }

  /** The names a tree's lets bind. */
  function Defined(t: Tree): set<Ident>
    decreases t, 0
  {
    match t
    case Node(k, x, fs, _) => (if k.VarDef? && x.Some? then {x.value} else {}) + AllDefined(fs)
    case List(ts) => AllDefined(ts)
    case Tuple(ts) => AllDefined(ts)
    case _ => {}
  }

  function AllDefined(ts: seq<Tree>): set<Ident>
    decreases ts, 0
  {
    if ts == [] then {} else Defined(ts[0]) + AllDefined(ts[1..])
  }

  /** One node of a renamed tree against the node it was: the same but for its
      name, and that the table's exactly where it is a let's or a reference's and
      in the table. */
  predicate RenamedNode(x: Tree, y: Tree, bound: Renaming) {
    match x
    case Node(k, name, fs, pos) =>
      y.Node? && y.kind == k && y.pos == pos && |y.fields| == |fs| &&
      (if k in {VarDef, VarRef} && name.Some? && name.value in bound then y.name == Some(bound[name.value])
       else y.name == name)
    case List(ts) => y.List? && |y.items| == |ts|
    case Tuple(ts) => y.Tuple? && |y.items| == |ts|
    case _ => y == x
  }

  lemma {:induction false} RenameAllAt(ts: seq<Tree>, bound: Renaming, i: nat)
    requires i < |ts|
    ensures RenameAll(ts, bound)[i] == Rename(ts[i], bound)
  {
    if i > 0 { RenameAllAt(ts[1..], bound, i - 1); }
  }

  /** Renaming reaches every node there is, through fields, lists and tuples, and
      changes nothing but the names. */
  lemma {:induction false} RenamedAt(t: Tree, bound: Renaming, path: seq<nat>)
    ensures Under(Rename(t, bound), path).Some? <==> Under(t, path).Some?
    ensures Under(t, path).Some? ==> RenamedNode(Under(t, path).value, Under(Rename(t, bound), path).value, bound)
    decreases |path|
  {
    if path != [] {
      assert |Parts(Rename(t, bound))| == |Parts(t)|;
      if path[0] < |Parts(t)| {
        RenameAllAt(Parts(t), bound, path[0]);
        assert Parts(Rename(t, bound))[path[0]] == Rename(Parts(t)[path[0]], bound);
        RenamedAt(Parts(t)[path[0]], bound, path[1..]);
      }
    }
  }

  /** A let of the tree, wherever it stands, that binds the name. */
  ghost predicate BindsSomewhere(t: Tree, x: Ident) { exists path :: LetAt(t, path, x) }

  predicate LetAt(t: Tree, path: seq<nat>, x: Ident) {
    var u := Under(t, path);
    u.Some? && u.value.Node? && u.value.kind.VarDef? && u.value.name == Some(x)
  }

  lemma {:induction false} DefinedSomewhere(t: Tree, x: Ident)
    ensures x in Defined(t) <==> BindsSomewhere(t, x)
    decreases t, 1
  {
    if x in Defined(t) {
      if LetAt(t, [], x) {
      } else {
        var i, path := AllDefinedSomewhere(Parts(t), x);
        assert ([i] + path)[1..] == path;
        assert LetAt(t, [i] + path, x);
      }
    }
    if BindsSomewhere(t, x) {
      var path :| LetAt(t, path, x);
      LetIsDefined(t, path, x);
    }
  }

  lemma {:induction false} AllDefinedSomewhere(ts: seq<Tree>, x: Ident) returns (i: nat, path: seq<nat>)
    requires x in AllDefined(ts)
    ensures i < |ts| && LetAt(ts[i], path, x)
    decreases ts, 0
  {
    if x in Defined(ts[0]) {
      DefinedSomewhere(ts[0], x);
      path :| LetAt(ts[0], path, x);
      i := 0;
    } else {
      i, path := AllDefinedSomewhere(ts[1..], x);
      i := i + 1;
    }
  }

  lemma {:induction false} LetIsDefined(t: Tree, path: seq<nat>, x: Ident)
    requires LetAt(t, path, x)
    ensures x in Defined(t)
    decreases |path|
  {
    if path != [] {
      LetIsDefined(Parts(t)[path[0]], path[1..], x);
      DefinedPart(Parts(t), path[0], x);
    }
  }

  lemma {:induction false} DefinedPart(ts: seq<Tree>, i: nat, x: Ident)
    requires i < |ts| && x in Defined(ts[i])
    ensures x in AllDefined(ts)
    decreases i
  {
    if i > 0 { DefinedPart(ts[1..], i - 1, x); }
  }

  // ---- freshness -----------------------------------------------------------------

  /** Every number in a name is one the counter has given out. */
  predicate Below(x: Ident, n: nat) {
    match x
    case Written(_) => true
    case Marked(of, m) => m <= n && Below(of, n)
  }

  predicate TreeBelow(t: Tree, n: nat)
    decreases t, 0
  {
    match t
    case Node(_, x, fs, _) => (x.Some? ==> Below(x.value, n)) && AllBelow(fs, n)
    case List(ts) => AllBelow(ts, n)
    case Tuple(ts) => AllBelow(ts, n)
    case _ => true
  }

  predicate AllBelow(ts: seq<Tree>, n: nat)
    decreases ts, 0
  {
    ts == [] || (TreeBelow(ts[0], n) && AllBelow(ts[1..], n))
  }

  /** Distinct names renamed apart, each to a name with a number handed out
      after `lo` and no later than `hi`. */
  ghost predicate Fresh(bound: Renaming, lo: nat, hi: nat) {
    (forall x :: x in bound ==> bound[x].Marked? && bound[x].of == x && lo < bound[x].n <= hi) &&
    (forall x, y :: x in bound && y in bound && bound[x].n == bound[y].n ==> x == y)
  }

  lemma FreshAdd(bound: Renaming, lo: nat, n: nat, x: Ident)
    requires Fresh(bound, lo, n) && lo <= n && x !in bound
    ensures Fresh(bound[x := Marked(x, n + 1)], lo, n + 1)
  {}

  lemma {:induction false} CollectFresh(t: Tree, bound: Renaming, lo: nat, n: nat)
    requires Fresh(bound, lo, n) && lo <= n
    ensures var (b, m) := Collect(t, bound, n);
            Fresh(b, lo, m) && n <= m && b.Keys == bound.Keys + Defined(t)
    decreases t, 1
  {
    hide Fresh, CollectAll;
    match t
    case Node(k, x, fs, _) =>
      if k.VarDef? && x.Some? && x.value !in bound {
        FreshAdd(bound, lo, n, x.value);
        CollectAllFresh(fs, bound[x.value := Marked(x.value, n + 1)], lo, n + 1);
      } else {
        CollectAllFresh(fs, bound, lo, n);
      }
    case List(ts) => CollectAllFresh(ts, bound, lo, n);
    case Tuple(ts) => CollectAllFresh(ts, bound, lo, n);
    case _ =>
  }

  lemma {:induction false} CollectAllFresh(ts: seq<Tree>, bound: Renaming, lo: nat, n: nat)
    requires Fresh(bound, lo, n) && lo <= n
    ensures var (b, m) := CollectAll(ts, bound, n);
            Fresh(b, lo, m) && n <= m && b.Keys == bound.Keys + AllDefined(ts)
    decreases ts, 1
  {
    hide Fresh, Collect;
    if ts != [] {
      CollectFresh(ts[0], bound, lo, n);
      var (b, m) := Collect(ts[0], bound, n);
      CollectAllFresh(ts[1..], b, lo, m);
    }
  }


  lemma {:induction false} BelowMore(x: Ident, n: nat, m: nat)
    requires Below(x, n) && n <= m
    ensures Below(x, m)
  {
    if x.Marked? { BelowMore(x.of, n, m); }
  }

  lemma {:induction false} TreeBelowMore(t: Tree, n: nat, m: nat)
    requires TreeBelow(t, n) && n <= m
    ensures TreeBelow(t, m)
    decreases t, 1
  {
    match t
    case Node(_, x, fs, _) =>
      if x.Some? { BelowMore(x.value, n, m); }
      AllBelowMore(fs, n, m);
    case List(ts) => AllBelowMore(ts, n, m);
    case Tuple(ts) => AllBelowMore(ts, n, m);
    case _ =>
  }

  lemma {:induction false} AllBelowMore(ts: seq<Tree>, n: nat, m: nat)
    requires AllBelow(ts, n) && n <= m
    ensures AllBelow(ts, m)
    decreases ts, 1
  {
    if ts != [] { TreeBelowMore(ts[0], n, m); AllBelowMore(ts[1..], n, m); }
  }

  lemma {:induction false} RenameBelow(t: Tree, bound: Renaming, lo: nat, hi: nat)
    requires TreeBelow(t, lo) && Fresh(bound, lo, hi) && lo <= hi
    ensures TreeBelow(Rename(t, bound), hi)
    decreases t, 1
  {
    match t
    case Node(_, x, fs, _) =>
      if x.Some? { BelowMore(x.value, lo, hi); }
      RenameAllBelow(fs, bound, lo, hi);
    case List(ts) => RenameAllBelow(ts, bound, lo, hi);
    case Tuple(ts) => RenameAllBelow(ts, bound, lo, hi);
    case _ =>
  }

  lemma {:induction false} RenameAllBelow(ts: seq<Tree>, bound: Renaming, lo: nat, hi: nat)
    requires AllBelow(ts, lo) && Fresh(bound, lo, hi) && lo <= hi
    ensures AllBelow(RenameAll(ts, bound), hi)
    decreases ts, 1
  {
    if ts != [] { RenameBelow(ts[0], bound, lo, hi); RenameAllBelow(ts[1..], bound, lo, hi); }
  }

  predicate BindsBelow(b: Binds, n: nat) { forall h :: h in b ==> TreeBelow(b[h], n) }

  lemma {:induction false} FillBelow(t: Tree, b: Binds, n: nat)
    requires TreeBelow(t, n) && BindsBelow(b, n) && Fill(t, b).Some?
    ensures TreeBelow(Fill(t, b).value, n)
    decreases t, 1
  {
    match t
    case Node(_, _, fs, _) => FillAllBelow(fs, b, n);
    case List(ts) => FillAllBelow(ts, b, n);
    case Tuple(ts) => FillAllBelow(ts, b, n);
    case _ =>
  }

  lemma {:induction false} FillAllBelow(ts: seq<Tree>, b: Binds, n: nat)
    requires AllBelow(ts, n) && BindsBelow(b, n) && FillAll(ts, b).Some?
    ensures AllBelow(FillAll(ts, b).value, n)
    decreases ts, 1
  {
    if ts != [] { FillBelow(ts[0], b, n); FillAllBelow(ts[1..], b, n); }
  }

  // ---- what a piece of program means ------------------------------------------------

  /** The operators, uninterpreted. */
  type Operators = (string, int, int) -> Option<int>
  type Env = map<Ident, int>

  /** Reading an expression: literals, names and operators. */
  function Read(t: Tree, env: Env, ops: Operators): Option<int> {
    if !t.Node? then None
    else if t.kind.IntLit? && |t.fields| > 0 && t.fields[0].Num? then Some(t.fields[0].n)
    else if t.kind.VarRef? && t.name.Some? then if t.name.value in env then Some(env[t.name.value]) else None
    else if t.kind.BinOp? && |t.fields| == 3 && t.fields[0].Atom? then
      var l := Read(t.fields[1], env, ops);
      var r := Read(t.fields[2], env, ops);
      if l.None? || r.None? then None else ops(t.fields[0].text, l.value, r.value)
    else None
  }

  /** `let`: the type it states, what it is bound to, and two flags. */
  predicate IsLet(t: Tree) { t.Node? && t.kind.VarDef? && t.name.Some? && |t.fields| == 4 }

  /** An expression on its own line, and whether a `;` ended it. */
  predicate IsLine(t: Tree) { t.Node? && t.kind.ExprLine? && |t.fields| == 2 }

  predicate IsAssign(t: Tree) {
    t.Tuple? && |t.items| == 3 && t.items[0] == Atom("assign_stmt")
  }

  /** Running a statement: a let binds, an assignment stores into a name that is
      there, an expression on its own line is read and dropped. */
  function RunStmt(t: Tree, env: Env, ops: Operators): Option<Env> {
    if IsLet(t) then
      var v := Read(t.fields[1], env, ops);
      if v.None? then None else Some(env[t.name.value := v.value])
    else if IsAssign(t) then
      var v := Read(t.items[2], env, ops);
      var target := t.items[1];
      if v.Some? && target.Node? && target.kind.VarRef? && target.name.Some? && target.name.value in env
      then Some(env[target.name.value := v.value]) else None
    else if IsLine(t) then
      if Read(t.fields[0], env, ops).None? then None else Some(env)
    else None
  }

  function RunAll(ts: seq<Tree>, env: Env, ops: Operators): Option<Env> {
    if ts == [] then Some(env) else
    match RunStmt(ts[0], env, ops)
    case None => None
    case Some(e) => RunAll(ts[1..], e, ops)
  }

  // ---- what a template means, its own names living apart -------------------------------

  /** The macro's own names and the caller's. */
  datatype Envs = Envs(own: Env, caller: Env)

  /** Reading a template: a hole sees only the caller's names; a name the
      template binds is the macro's own. */
  function ReadApart(t: Tree, own: set<Ident>, b: Binds, e: Envs, ops: Operators): Option<int> {
    if t.Hole? then if t.hole in b then Read(b[t.hole], e.caller, ops) else None
    else if !t.Node? then None
    else if t.kind.IntLit? && |t.fields| > 0 && t.fields[0].Num? then Some(t.fields[0].n)
    else if t.kind.VarRef? && t.name.Some? then
      var env := if t.name.value in own then e.own else e.caller;
      if t.name.value in env then Some(env[t.name.value]) else None
    else if t.kind.BinOp? && |t.fields| == 3 && t.fields[0].Atom? then
      var l := ReadApart(t.fields[1], own, b, e, ops);
      var r := ReadApart(t.fields[2], own, b, e, ops);
      if l.None? || r.None? then None else ops(t.fields[0].text, l.value, r.value)
    else None
  }

  /** Storing into a template's target, which may be a hole the caller named. */
  function StoreApart(target: Tree, own: set<Ident>, b: Binds, e: Envs, v: int): Option<Envs> {
    if target.Hole? then
      if target.hole in b then
        var x := b[target.hole];
        if x.Node? && x.kind.VarRef? && x.name.Some? && x.name.value in e.caller
        then Some(e.(caller := e.caller[x.name.value := v])) else None
      else None
    else if target.Node? && target.kind.VarRef? && target.name.Some? then
      var x := target.name.value;
      if x in own then if x in e.own then Some(e.(own := e.own[x := v])) else None
      else if x in e.caller then Some(e.(caller := e.caller[x := v])) else None
    else None
  }

  function RunApart(t: Tree, own: set<Ident>, b: Binds, e: Envs, ops: Operators): Option<Envs> {
    if IsLet(t) then
      var v := ReadApart(t.fields[1], own, b, e, ops);
      if v.None? then None else Some(e.(own := e.own[t.name.value := v.value]))
    else if IsAssign(t) then
      var v := ReadApart(t.items[2], own, b, e, ops);
      if v.None? then None else StoreApart(t.items[1], own, b, e, v.value)
    else if IsLine(t) then
      if ReadApart(t.fields[0], own, b, e, ops).None? then None else Some(e)
    else None
  }

  function RunAllApart(ts: seq<Tree>, own: set<Ident>, b: Binds, e: Envs, ops: Operators): Option<Envs> {
    if ts == [] then Some(e) else
    match RunApart(ts[0], own, b, e, ops)
    case None => None
    case Some(e1) => RunAllApart(ts[1..], own, b, e1, ops)
  }

  // ---- hygiene preserves meaning -------------------------------------------------------

  /** One environment holding both: the caller's names as they are, the macro's
      under the names they were renamed to. */
  ghost predicate Joined(e: Envs, env: Env, bound: Renaming) {
    (forall y :: y !in bound.Values ==> (y in env <==> y in e.caller) && (y in env ==> env[y] == e.caller[y])) &&
    (forall x :: x in bound ==> (bound[x] in env <==> x in e.own) && (bound[x] in env ==> env[bound[x]] == e.own[x])) &&
    e.own.Keys <= bound.Keys && e.caller.Keys !! bound.Values
  }

  /** The situation a template is filled in: everything written before was
      numbered before, and the renaming's numbers come after. */
  ghost predicate Before(bound: Renaming, b: Binds, lo: nat, hi: nat) {
    Fresh(bound, lo, hi) && BindsBelow(b, lo) && BindsAreNodes(b)
  }

  predicate BindsAreNodes(b: Binds) { forall h :: h in b ==> b[h].Node? }

  /** A tree of the caller's reads the same where the macro's names are added. */
  lemma {:induction false} ReadCaller(t: Tree, e: Envs, env: Env, bound: Renaming, lo: nat, hi: nat, ops: Operators)
    requires TreeBelow(t, lo) && Fresh(bound, lo, hi) && Joined(e, env, bound)
    ensures Read(t, env, ops) == Read(t, e.caller, ops)
  {
    if t.Node? {
      if t.kind.VarRef? && t.name.Some? {
        NotRenamed(t.name.value, bound, lo, hi);
      }
      if t.kind.BinOp? && |t.fields| == 3 {
        FieldsBelow(t.fields, lo);
        ReadCaller(t.fields[1], e, env, bound, lo, hi, ops);
        ReadCaller(t.fields[2], e, env, bound, lo, hi, ops);
      }
    }
  }

  lemma NotRenamed(y: Ident, bound: Renaming, lo: nat, hi: nat)
    requires Fresh(bound, lo, hi) && Below(y, lo)
    ensures y !in bound.Values
  {}

  lemma {:induction false} FieldsBelow(ts: seq<Tree>, n: nat)
    requires AllBelow(ts, n)
    ensures forall i :: 0 <= i < |ts| ==> TreeBelow(ts[i], n)
  {
    if ts != [] {
      FieldsBelow(ts[1..], n);
      forall i | 0 <= i < |ts| ensures TreeBelow(ts[i], n) {
        if i > 0 { assert ts[i] == ts[1..][i - 1]; }
      }
    }
  }

  /** ... and so is the name and every field of a node. */
  lemma NodeBelow(t: Tree, n: nat)
    requires t.Node? && TreeBelow(t, n)
    ensures (t.name.Some? ==> Below(t.name.value, n)) && forall i :: 0 <= i < |t.fields| ==> TreeBelow(t.fields[i], n)
  {
    FieldsBelow(t.fields, n);
  }

  lemma {:induction false} FilledFields(ts: seq<Tree>, bound: Renaming, b: Binds)
    requires FillAll(RenameAll(ts, bound), b).Some?
    ensures var us := FillAll(RenameAll(ts, bound), b).value;
            |us| == |ts| && forall i :: 0 <= i < |ts| ==>
              Fill(Rename(ts[i], bound), b).Some? && us[i] == Fill(Rename(ts[i], bound), b).value
  {
    if ts != [] {
      FilledFields(ts[1..], bound, b);
      var us := FillAll(RenameAll(ts, bound), b).value;
      assert RenameAll(ts, bound)[1..] == RenameAll(ts[1..], bound);
      forall i | 0 <= i < |ts|
        ensures Fill(Rename(ts[i], bound), b).Some? && us[i] == Fill(Rename(ts[i], bound), b).value
      {
        if i > 0 { assert ts[i] == ts[1..][i - 1] && us[i] == us[1..][i - 1]; }
      }
    }
  }

  /** What a node of the template has become. */
  function Became(x: Option<Ident>, k: Kind, bound: Renaming): Option<Ident> {
    if (k.VarDef? || k.VarRef?) && x.Some? && x.value in bound then Some(bound[x.value]) else x
  }

  lemma FilledNode(t: Tree, bound: Renaming, b: Binds) returns (us: seq<Tree>)
    requires t.Node? && Fill(Rename(t, bound), b).Some? && BindsAreNodes(b)
    ensures Fill(Rename(t, bound), b).value == Node(t.kind, Became(t.name, t.kind, bound), us, t.pos)
    ensures |us| == |t.fields|
    ensures forall i :: 0 <= i < |us| ==>
              Fill(Rename(t.fields[i], bound), b) == Some(us[i]) &&
              (us[i].Num? <==> t.fields[i].Num?) && (us[i].Atom? <==> t.fields[i].Atom?) &&
              (t.fields[i].Num? || t.fields[i].Atom? ==> us[i] == t.fields[i])
  {
    FilledFields(t.fields, bound, b);
    us := FillAll(RenameAll(t.fields, bound), b).value;
    forall i | 0 <= i < |us|
      ensures (us[i].Num? <==> t.fields[i].Num?) && (us[i].Atom? <==> t.fields[i].Atom?)
      ensures t.fields[i].Num? || t.fields[i].Atom? ==> us[i] == t.fields[i]
    {
      FilledLeaf(t.fields[i], bound, b);
    }
  }

  lemma FilledLeaf(t: Tree, bound: Renaming, b: Binds)
    requires Fill(Rename(t, bound), b).Some? && BindsAreNodes(b)
    ensures var u := Fill(Rename(t, bound), b).value;
            (u.Num? <==> t.Num?) && (u.Atom? <==> t.Atom?) && (t.Num? || t.Atom? ==> u == t) &&
            (u.Tuple? <==> t.Tuple?) && (t.Node? ==> u.Node?)
  {}

  /** A filled and renamed template reads as the template does apart. */
  lemma {:induction false} ReadAgrees(t: Tree, b: Binds, e: Envs, env: Env, bound: Renaming, lo: nat, hi: nat,
                                      ops: Operators)
    requires TreeBelow(t, lo) && Before(bound, b, lo, hi) && Joined(e, env, bound)
    requires Fill(Rename(t, bound), b).Some?
    ensures Read(Fill(Rename(t, bound), b).value, env, ops) == ReadApart(t, bound.Keys, b, e, ops)
  {
    if t.Hole? {
      ReadCaller(b[t.hole], e, env, bound, lo, hi, ops);
    } else if t.Node? {
      hide Fill, FillAll, Rename, RenameAll, Joined, Fresh, TreeBelow, AllBelow, Below, BindsBelow, Read, ReadApart;
      var us := FilledNode(t, bound, b);
      NodeBelow(t, lo);
      if IsOp(t) {
        ReadAgrees(t.fields[1], b, e, env, bound, lo, hi, ops);
        ReadAgrees(t.fields[2], b, e, env, bound, lo, hi, ops);
        ReadOp(t, Fill(Rename(t, bound), b).value, bound.Keys, b, e, env, ops);
      } else {
        if t.kind.VarRef? && t.name.Some? { NameAgrees(t.name.value, e, env, bound, lo, hi); }
        ReadLeaf(t, Fill(Rename(t, bound), b).value, bound, b, e, env, ops);
      }
    }
  }

  predicate IsOp(t: Tree) { t.Node? && t.kind.BinOp? && |t.fields| == 3 && t.fields[0].Atom? }

  lemma ReadOp(t: Tree, u: Tree, own: set<Ident>, b: Binds, e: Envs, env: Env, ops: Operators)
    requires IsOp(t) && IsOp(u) && t.fields[0] == u.fields[0]
    requires Read(u.fields[1], env, ops) == ReadApart(t.fields[1], own, b, e, ops)
    requires Read(u.fields[2], env, ops) == ReadApart(t.fields[2], own, b, e, ops)
    ensures Read(u, env, ops) == ReadApart(t, own, b, e, ops)
  {}

  lemma ReadLeaf(t: Tree, u: Tree, bound: Renaming, b: Binds, e: Envs, env: Env, ops: Operators)
    requires t.Node? && u.Node? && !IsOp(t) && u.kind == t.kind && u.name == Became(t.name, t.kind, bound)
    requires |u.fields| == |t.fields|
    requires forall i :: 0 <= i < |t.fields| ==>
               (u.fields[i].Num? <==> t.fields[i].Num?) && (u.fields[i].Atom? <==> t.fields[i].Atom?)
    requires forall i :: 0 <= i < |t.fields| && t.fields[i].Num? ==> u.fields[i] == t.fields[i]
    requires t.kind.VarRef? && t.name.Some? ==>
               var x := t.name.value;
               var y := if x in bound then bound[x] else x;
               var there := if x in bound then e.own else e.caller;
               (y in env <==> x in there) && (y in env ==> env[y] == there[x])
    ensures Read(u, env, ops) == ReadApart(t, bound.Keys, b, e, ops)
  {}

  /** A template's name stands for the same thing in the joined environment. */
  lemma NameAgrees(x: Ident, e: Envs, env: Env, bound: Renaming, lo: nat, hi: nat)
    requires Below(x, lo) && Fresh(bound, lo, hi) && Joined(e, env, bound)
    ensures var y := if x in bound then bound[x] else x;
            var there := if x in bound then e.own else e.caller;
            (y in env <==> x in there) && (y in env ==> env[y] == there[x])
  {
    if x !in bound { NotRenamed(x, bound, lo, hi); }
  }

  /** Storing under a name keeps the environments joined. */
  lemma StoreJoined(x: Ident, v: int, e: Envs, env: Env, bound: Renaming, lo: nat, hi: nat)
    requires Below(x, lo) && Fresh(bound, lo, hi) && Joined(e, env, bound)
    ensures x in bound ==> Joined(e.(own := e.own[x := v]), env[bound[x] := v], bound)
    ensures x !in bound ==> Joined(e.(caller := e.caller[x := v]), env[x := v], bound)
  {
    if x in bound {
      forall y | y in bound && y != x ensures bound[y] != bound[x] {}
    } else {
      NotRenamed(x, bound, lo, hi);
    }
  }

  /** ... also where the name is one the caller put in a hole. */
  lemma CallerStoreJoined(x: Ident, v: int, e: Envs, env: Env, bound: Renaming, lo: nat, hi: nat)
    requires Below(x, lo) && Fresh(bound, lo, hi) && Joined(e, env, bound)
    ensures (x in env <==> x in e.caller) && Joined(e.(caller := e.caller[x := v]), env[x := v], bound)
  {
    NotRenamed(x, bound, lo, hi);
  }

  /** One statement of a template, filled and renamed, does what it does apart. */
  ghost predicate Follows(r: Option<Env>, apart: Option<Envs>, bound: Renaming) {
    match (r, apart)
    case (None, None) => true
    case (Some(env), Some(e)) => Joined(e, env, bound)
    case _ => false
  }

  lemma AssignAgrees(t: Tree, u: Tree, b: Binds, e: Envs, env: Env, bound: Renaming, lo: nat, hi: nat, ops: Operators)
    requires IsAssign(t) && TreeBelow(t, lo) && Before(bound, b, lo, hi) && Joined(e, env, bound)
    requires Fill(Rename(t, bound), b) == Some(u)
    ensures Follows(RunStmt(u, env, ops), RunApart(t, bound.Keys, b, e, ops), bound)
  {
    hide Read, ReadApart, Joined, Fresh;
    FilledFields(t.items, bound, b);
    FilledLeaf(t.items[0], bound, b);
    FieldsBelow(t.items, lo);
    ReadAgrees(t.items[2], b, e, env, bound, lo, hi, ops);
    var v := ReadApart(t.items[2], bound.Keys, b, e, ops);
    if v.Some? { TargetAgrees(t.items[1], u.items[1], b, e, env, bound, lo, hi, v.value); }
  }

  /** Where an assignment of a template stores. */
  lemma TargetAgrees(target: Tree, u: Tree, b: Binds, e: Envs, env: Env, bound: Renaming, lo: nat, hi: nat, v: int)
    requires TreeBelow(target, lo) && Before(bound, b, lo, hi) && Joined(e, env, bound)
    requires Fill(Rename(target, bound), b) == Some(u)
    ensures Follows(if u.Node? && u.kind.VarRef? && u.name.Some? && u.name.value in env
                    then Some(env[u.name.value := v]) else None,
                    StoreApart(target, bound.Keys, b, e, v), bound)
  {
    if target.Hole? {
      var x := b[target.hole];
      if x.Node? && x.name.Some? { CallerStoreJoined(x.name.value, v, e, env, bound, lo, hi); }
    } else if target.Node? && target.name.Some? {
      var x := target.name.value;
      NameAgrees(x, e, env, bound, lo, hi);
      StoreJoined(x, v, e, env, bound, lo, hi);
    }
  }

  lemma StmtAgrees(t: Tree, u: Tree, b: Binds, e: Envs, env: Env, bound: Renaming, lo: nat, hi: nat, ops: Operators)
    requires TreeBelow(t, lo) && Before(bound, b, lo, hi) && Joined(e, env, bound) && Defined(t) <= bound.Keys
    requires !t.Hole?
    requires Fill(Rename(t, bound), b) == Some(u)
    ensures Follows(RunStmt(u, env, ops), RunApart(t, bound.Keys, b, e, ops), bound)
  {
    if IsAssign(t) {
      AssignAgrees(t, u, b, e, env, bound, lo, hi, ops);
    } else if t.Node? {
      NodeAgrees(t, u, b, e, env, bound, lo, hi, ops);
    } else {
      NotAssign(t, u, bound, b);
    }
  }

  lemma NodeAgrees(t: Tree, u: Tree, b: Binds, e: Envs, env: Env, bound: Renaming, lo: nat, hi: nat, ops: Operators)
    requires t.Node? && TreeBelow(t, lo) && Before(bound, b, lo, hi) && Joined(e, env, bound)
    requires Defined(t) <= bound.Keys
    requires Fill(Rename(t, bound), b) == Some(u)
    ensures Follows(RunStmt(u, env, ops), RunApart(t, bound.Keys, b, e, ops), bound)
  {
    hide Read, ReadApart, Joined, Fresh, Fill, FillAll, Rename, RenameAll, TreeBelow, AllBelow, Below, BindsBelow;
    hide AllDefined;
    var us := FilledNode(t, bound, b);
    NodeBelow(t, lo);
    if IsLet(t) {
      ReadAgrees(t.fields[1], b, e, env, bound, lo, hi, ops);
      var v := ReadApart(t.fields[1], bound.Keys, b, e, ops);
      if v.Some? { StoreJoined(t.name.value, v.value, e, env, bound, lo, hi); }
    } else if IsLine(t) {
      ReadAgrees(t.fields[0], b, e, env, bound, lo, hi, ops);
    }
  }

  lemma NotAssign(t: Tree, u: Tree, bound: Renaming, b: Binds)
    requires !IsAssign(t) && !t.Node? && !t.Hole? && BindsAreNodes(b) && Fill(Rename(t, bound), b) == Some(u)
    ensures !IsAssign(u) && !u.Node?
  {
    if t.Tuple? {
      FilledFields(t.items, bound, b);
      if |t.items| == 3 { FilledLeaf(t.items[0], bound, b); }
    }
  }

  lemma {:induction false} BlockAgrees(ts: seq<Tree>, b: Binds, e: Envs, env: Env, bound: Renaming, lo: nat, hi: nat,
                                       ops: Operators)
    requires AllBelow(ts, lo) && Before(bound, b, lo, hi) && Joined(e, env, bound) && AllDefined(ts) <= bound.Keys
    requires forall i :: 0 <= i < |ts| ==> !ts[i].Hole?
    requires FillAll(RenameAll(ts, bound), b).Some?
    ensures Follows(RunAll(FillAll(RenameAll(ts, bound), b).value, env, ops), RunAllApart(ts, bound.Keys, b, e, ops),
                    bound)
  {
    hide RunStmt, RunApart, Joined, Fresh;
    if ts != [] {
      var us := FillAll(RenameAll(ts, bound), b).value;
      var u := Fill(Rename(ts[0], bound), b).value;
      assert RenameAll(ts, bound)[1..] == RenameAll(ts[1..], bound);
      assert us == [u] + FillAll(RenameAll(ts[1..], bound), b).value;
      StmtAgrees(ts[0], u, b, e, env, bound, lo, hi, ops);
      var r, a := RunStmt(u, env, ops), RunApart(ts[0], bound.Keys, b, e, ops);
      if r.Some? { BlockAgrees(ts[1..], b, a.value, r.value, bound, lo, hi, ops); }
    }
  }

  /** Two runs that fail together or leave the caller the same names bound alike. */
  ghost predicate SameToCaller(run: Option<Env>, apart: Option<Envs>, n: nat) {
    (run.Some? <==> apart.Some?) &&
    (run.Some? ==> forall y :: Below(y, n) ==>
       (y in run.value <==> y in apart.value.caller) && (y in run.value ==> run.value[y] == apart.value.caller[y]))
  }

  /** Running a rule's template in the caller's environment, renamed and then
      filled, does to the caller's names exactly what it does where its own
      names live apart, and fails exactly where that fails. */
  lemma HygieneKeepsMeaning(ts: seq<Tree>, b: Binds, n: nat, caller: Env, ops: Operators)
    requires AllBelow(ts, n) && BindsBelow(b, n) && BindsAreNodes(b) && (forall y :: y in caller ==> Below(y, n))
    requires (forall i :: 0 <= i < |ts| ==> !ts[i].Hole?) && AllHoles(ts) <= b.Keys
    ensures var (bound, m) := CollectAll(ts, map[], n);
            var filled := FillAll(RenameAll(ts, bound), b);
            filled.Some? &&
            SameToCaller(RunAll(filled.value, caller, ops), RunAllApart(ts, bound.Keys, b, Envs(map[], caller), ops), n)
  {
    CollectAllFresh(ts, map[], n, n);
    var (bound, m) := CollectAll(ts, map[], n);
    AllFillable(ts, bound, b);
    forall y | y in caller ensures y !in bound.Values { NotRenamed(y, bound, n, m); }
    forall x | x in bound ensures bound[x] !in caller {}
    BlockAgrees(ts, b, Envs(map[], caller), caller, bound, n, m, ops);
    forall y | Below(y, n) ensures y !in bound.Values { NotRenamed(y, bound, n, m); }
  }

  lemma {:induction false} Fillable(t: Tree, bound: Renaming, b: Binds)
    requires Holes(t) <= b.Keys
    ensures Fill(Rename(t, bound), b).Some?
    decreases t, 1
  {
    match t
    case Node(_, _, fs, _) => AllFillable(fs, bound, b);
    case List(ts) => AllFillable(ts, bound, b);
    case Tuple(ts) => AllFillable(ts, bound, b);
    case _ =>
  }

  lemma {:induction false} AllFillable(ts: seq<Tree>, bound: Renaming, b: Binds)
    requires AllHoles(ts) <= b.Keys
    ensures FillAll(RenameAll(ts, bound), b).Some?
    decreases ts, 1
  {
    if ts != [] {
      assert RenameAll(ts, bound)[1..] == RenameAll(ts[1..], bound);
      Fillable(ts[0], bound, b);
      AllFillable(ts[1..], bound, b);
    }
  }

  /** After the pass no let and no reference anywhere, in whatever field or list it
      stands, is named by a name the text binds: each that was has one number more,
      new to the text, and every other name is as it was. */
  lemma HygienicEverywhere(t: Tree, n: nat, path: seq<nat>)
    requires TreeBelow(t, n) && Under(t, path).Some?
    ensures var (bound, m) := Collect(t, map[], n);
            var x, y := Under(t, path).value, Under(Rename(t, bound), path);
            y.Some? &&
            (x.Node? && x.kind in {VarDef, VarRef} && x.name.Some? ==>
               y.value.Node? && y.value.kind == x.kind && y.value.name.Some? &&
               !BindsSomewhere(t, y.value.name.value) &&
               (BindsSomewhere(t, x.name.value) ==>
                  var z := y.value.name.value; z.Marked? && z.of == x.name.value && n < z.n <= m) &&
               (!BindsSomewhere(t, x.name.value) ==> y.value.name == x.name))
  {
    var (bound, m) := Collect(t, map[], n);
    CollectFresh(t, map[], n, n);
    RenamedAt(t, bound, path);
    var x := Under(t, path).value;
    if x.Node? && x.kind in {VarDef, VarRef} && x.name.Some? {
      DefinedSomewhere(t, x.name.value);
      var y := Under(Rename(t, bound), path).value.name.value;
      DefinedSomewhere(t, y);
      if y in Defined(t) { DefinedIsNamed(t, y); NameIsBelow(t, n, y); }
    }
  }

  lemma {:induction false} DefinedIsNamed(t: Tree, y: Ident)
    requires y in Defined(t)
    ensures y in Names(t)
    decreases t, 1
  {
    match t
    case Node(_, _, fs, _) => if y in AllDefined(fs) { AllDefinedIsNamed(fs, y); }
    case List(ts) => AllDefinedIsNamed(ts, y);
    case Tuple(ts) => AllDefinedIsNamed(ts, y);
    case _ =>
  }

  lemma {:induction false} AllDefinedIsNamed(ts: seq<Tree>, y: Ident)
    requires y in AllDefined(ts)
    ensures y in AllNames(ts)
    decreases ts, 1
  {
    if y in Defined(ts[0]) { DefinedIsNamed(ts[0], y); } else { AllDefinedIsNamed(ts[1..], y); }
  }

  lemma {:induction false} UnderBelow(t: Tree, n: nat, path: seq<nat>)
    requires TreeBelow(t, n) && Under(t, path).Some?
    ensures TreeBelow(Under(t, path).value, n)
    decreases |path|
  {
    if path != [] {
      FieldsBelow(Parts(t), n);
      UnderBelow(Parts(t)[path[0]], n, path[1..]);
    }
  }

  // ---- over a whole session -----------------------------------------------------------

  /** Every name written anywhere in a tree. */
  function Names(t: Tree): set<Ident>
    decreases t, 0
  {
    match t
    case Node(_, x, fs, _) => (if x.Some? then {x.value} else {}) + AllNames(fs)
    case List(ts) => AllNames(ts)
    case Tuple(ts) => AllNames(ts)
    case _ => {}
  }

  function AllNames(ts: seq<Tree>): set<Ident>
    decreases ts, 0
  {
    if ts == [] then {} else Names(ts[0]) + AllNames(ts[1..])
  }

  /** A name written in a tree whose numbers are bounded is bounded ... */
  lemma {:induction false} NameIsBelow(t: Tree, n: nat, y: Ident)
    requires TreeBelow(t, n) && y in Names(t)
    ensures Below(y, n)
    decreases t, 1
  {
    match t
    case Node(_, x, fs, _) => if y in AllNames(fs) { NameIsBelowAll(fs, n, y); }
    case List(ts) => NameIsBelowAll(ts, n, y);
    case Tuple(ts) => NameIsBelowAll(ts, n, y);
    case _ =>
  }

  lemma {:induction false} NameIsBelowAll(ts: seq<Tree>, n: nat, y: Ident)
    requires AllBelow(ts, n) && y in AllNames(ts)
    ensures Below(y, n)
    decreases ts, 1
  {
    if y in Names(ts[0]) { NameIsBelow(ts[0], n, y); } else { NameIsBelowAll(ts[1..], n, y); }
  }

  ghost predicate NumberedBy(names: set<Ident>, n: nat) { forall x :: x in names ==> Below(x, n) }

  /** ... and the other way about. */
  lemma {:induction false} NamesBelow(t: Tree, n: nat)
    requires NumberedBy(Names(t), n)
    ensures TreeBelow(t, n)
    decreases t, 1
  {
    match t
    case Node(_, x, fs, _) =>
      assert AllNames(fs) <= Names(t) && (x.Some? ==> x.value in Names(t));
      AllNamesBelow(fs, n);
    case List(ts) => AllNamesBelow(ts, n);
    case Tuple(ts) => AllNamesBelow(ts, n);
    case _ =>
  }

  lemma {:induction false} AllNamesBelow(ts: seq<Tree>, n: nat)
    requires NumberedBy(AllNames(ts), n)
    ensures AllBelow(ts, n)
    decreases ts, 1
  {
    if ts != [] {
      assert Names(ts[0]) <= AllNames(ts) && AllNames(ts[1..]) <= AllNames(ts);
      NamesBelow(ts[0], n);
      AllNamesBelow(ts[1..], n);
    }
  }

  /** Everything the program holds so far, rules and expansions alike, and the
      counter that numbers the names renaming makes. */
  datatype Session = Session(texts: seq<seq<Tree>>, counter: nat)

  /** One rewriting: which text is the template, and what its holes matched. */
  datatype Rewrite = Rewrite(template: nat, binds: Binds)

  ghost predicate Numbered(s: Session) {
    forall i :: 0 <= i < |s.texts| ==> AllBelow(s.texts[i], s.counter)
  }

  /** The template is a text of the session and what fills its holes is made of
      names the session's texts hold. */
  predicate Possible(s: Session, r: Rewrite) {
    r.template < |s.texts| && AllHoles(s.texts[r.template]) <= r.binds.Keys &&
    forall h :: h in r.binds ==> exists i :: 0 <= i < |s.texts| && Names(r.binds[h]) <= AllNames(s.texts[i])
  }

  /** `make_hygienic` on the template, then `_fill`: the text that results. */
  function Rewritten(s: Session, r: Rewrite): (made: Session)
    requires Possible(s, r)
  {
    var (bound, m) := CollectAll(s.texts[r.template], map[], s.counter);
    AllFillable(s.texts[r.template], bound, r.binds);
    Session(s.texts + [FillAll(RenameAll(s.texts[r.template], bound), r.binds).value], m)
  }

  predicate PossibleRun(s: Session, rs: seq<Rewrite>)
    decreases |rs|
  {
    rs == [] || (Possible(s, rs[0]) && PossibleRun(Rewritten(s, rs[0]), rs[1..]))
  }

  function After(s: Session, rs: seq<Rewrite>): Session
    requires PossibleRun(s, rs)
    decreases |rs|
  {
    if rs == [] then s else After(Rewritten(s, rs[0]), rs[1..])
  }

  /** The new names of one rewriting are in no text there is before it, nor are
      two of them the same. */
  ghost predicate NewNames(s: Session, r: Rewrite)
    requires Possible(s, r)
  {
    var bound := CollectAll(s.texts[r.template], map[], s.counter).0;
    (forall i :: 0 <= i < |s.texts| ==> AllNames(s.texts[i]) !! bound.Values) &&
    (forall x, y :: x in bound && y in bound && x != y ==> bound[x] != bound[y]) &&
    bound.Keys == AllDefined(s.texts[r.template])
  }

  lemma NewToText(ts: seq<Tree>, bound: Renaming, lo: nat, hi: nat)
    requires AllBelow(ts, lo) && Fresh(bound, lo, hi)
    ensures AllNames(ts) !! bound.Values
  {
    hide Fresh;
    forall y | y in AllNames(ts) ensures y !in bound.Values {
      NameIsBelowAll(ts, lo, y);
      NotRenamed(y, bound, lo, hi);
    }
  }

  lemma NothingFresh(n: nat)
    ensures Fresh(map[], n, n)
  {}

  lemma RenamedApart(bound: Renaming, lo: nat, hi: nat)
    requires Fresh(bound, lo, hi)
    ensures forall x, y :: x in bound && y in bound && x != y ==> bound[x] != bound[y]
  {}

  lemma RewriteIsFresh(s: Session, r: Rewrite)
    requires Numbered(s) && Possible(s, r)
    ensures NewNames(s, r) && Numbered(Rewritten(s, r))
  {
    hide Fresh, Collect, CollectAll, Fill, FillAll, Rename, RenameAll;
    var template := s.texts[r.template];
    NothingFresh(s.counter);
    CollectAllFresh(template, map[], s.counter, s.counter);
    var (bound, m) := CollectAll(template, map[], s.counter);
    forall i | 0 <= i < |s.texts| ensures AllNames(s.texts[i]) !! bound.Values && AllBelow(s.texts[i], m) {
      NewToText(s.texts[i], bound, s.counter, m);
      AllBelowMore(s.texts[i], s.counter, m);
    }
    RenamedApart(bound, s.counter, m);
    forall h | h in r.binds ensures TreeBelow(r.binds[h], m) {
      var i :| 0 <= i < |s.texts| && Names(r.binds[h]) <= AllNames(s.texts[i]);
      forall x | x in Names(r.binds[h]) ensures Below(x, m) { NameIsBelowAll(s.texts[i], m, x); }
      NamesBelow(r.binds[h], m);
    }
    AllFillable(template, bound, r.binds);
    RenameAllBelow(template, bound, s.counter, m);
    FillAllBelow(RenameAll(template, bound), r.binds, m);
  }

  ghost predicate AllNew(s: Session, rs: seq<Rewrite>)
    requires PossibleRun(s, rs)
    decreases |rs|
  {
    rs == [] || (NewNames(s, rs[0]) && AllNew(Rewritten(s, rs[0]), rs[1..]))
  }

  /** Over any run of rewritings, what one produced being open to the next, the
      counter bounds every number in the program, so no name is made twice. */
  lemma {:induction false} RunStaysFresh(s: Session, rs: seq<Rewrite>)
    requires Numbered(s) && PossibleRun(s, rs)
    ensures AllNew(s, rs) && Numbered(After(s, rs))
    decreases |rs|
  {
    hide NewNames, Rewritten, Possible, Numbered;
    if rs != [] {
      RewriteIsFresh(s, rs[0]);
      RunStaysFresh(Rewritten(s, rs[0]), rs[1..]);
    }
  }

  /** What a source file holds is numbered to begin with. */
  lemma SourceIsNumbered(texts: seq<seq<Tree>>, counter: nat)
    requires forall i, x :: 0 <= i < |texts| && x in AllNames(texts[i]) ==> x.Written?
    ensures Numbered(Session(texts, counter))
  {
    forall i | 0 <= i < |texts| ensures AllBelow(texts[i], counter) {
      assert NumberedBy(AllNames(texts[i]), counter);
      AllNamesBelow(texts[i], counter);
    }
  }

  // ---- the pass as it is written ----------------------------------------------------------

  lemma {:induction false} RenameNothing(t: Tree)
    ensures Rename(t, map[]) == t
    decreases t, 1
  {
    match t
    case Node(_, _, fs, _) => RenameAllNothing(fs);
    case List(ts) => RenameAllNothing(ts);
    case Tuple(ts) => RenameAllNothing(ts);
    case _ =>
  }

  lemma {:induction false} RenameAllNothing(ts: seq<Tree>)
    ensures RenameAll(ts, map[]) == ts
    decreases ts, 1
  {
    if ts != [] { RenameNothing(ts[0]); RenameAllNothing(ts[1..]); }
  }

  lemma {:induction false} RenameAllAppend(ts: seq<Tree>, t: Tree, bound: Renaming)
    ensures RenameAll(ts + [t], bound) == RenameAll(ts, bound) + [Rename(t, bound)]
  {
    if ts == [] {
      assert RenameAll([t], bound) == [Rename(t, bound)];
    } else {
      assert (ts + [t])[1..] == ts[1..] + [t];
      RenameAllAppend(ts[1..], t, bound);
    }
  }

  /** The renaming pass with its global counter. */
  class Renamer {
    var counter: nat
    var bound: Renaming

    constructor ()
      ensures counter == 0 && bound == map[]
    {
      counter, bound := 0, map[];
    }

    method CollectTree(t: Tree)
      modifies this
      ensures (bound, counter) == Collect(t, old(bound), old(counter))
      decreases t, 0
    {
      match t
      case Node(k, x, fs, _) =>
        if k.VarDef? && x.Some? && x.value !in bound {
          counter := counter + 1;
          bound := bound[x.value := Marked(x.value, counter)];
        }
        CollectTrees(fs);
      case List(ts) => CollectTrees(ts);
      case Tuple(ts) => CollectTrees(ts);
      case _ =>
    }

    method CollectTrees(ts: seq<Tree>)
      modifies this
      ensures (bound, counter) == CollectAll(ts, old(bound), old(counter))
      decreases ts, 0
    {
      for i := 0 to |ts|
        invariant CollectAll(ts[i..], bound, counter) == CollectAll(ts, old(bound), old(counter))
      {
        CollectTree(ts[i]);
        assert ts[i..][1..] == ts[i + 1..];
      }
    }

    method RenameTrees(ts: seq<Tree>) returns (r: seq<Tree>)
      ensures r == RenameAll(ts, bound)
    {
      r := [];
      for i := 0 to |ts|
        invariant r == RenameAll(ts[..i], bound)
      {
        r := r + [Rename(ts[i], bound)];
        RenameAllAppend(ts[..i], ts[i], bound);
        assert ts[..i] + [ts[i]] == ts[..i + 1];
      }
      assert ts[..|ts|] == ts;
    }

    /** Renaming a template's names: the counter moves past every number it
        gave, and only moves on. */
    method MakeHygienic(ts: seq<Tree>) returns (r: seq<Tree>)
      modifies this
      ensures (bound, counter) == CollectAll(ts, map[], old(counter))
      ensures r == RenameAll(ts, bound)
      ensures Fresh(bound, old(counter), counter) && old(counter) <= counter && bound.Keys == AllDefined(ts)
    {
      bound := map[];
      CollectTrees(ts);
      CollectAllFresh(ts, map[], old(counter), old(counter));
      r := ts;
      if bound != map[] {
        r := RenameTrees(ts);
      } else {
        RenameAllNothing(ts);
      }
    }
  }
}
