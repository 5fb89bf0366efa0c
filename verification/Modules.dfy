/** Loading modules, and whose a line is (interp/modules.py, interp/errors.py). */
module Modules {
  /** What says which file a name opens. */
  type FileId = string

  /** A top-level `let name := @import(...)`, resolved to the file it opens. */
  datatype Bind = Bind(name: string, target: FileId)

  /** A file: how many lines its text has, and what it binds, in order. */
  datatype Source = Source(lines: nat, binds: seq<Bind>)

  /** Every file there is to read; one not in it cannot be opened. */
  type Graph = map<FileId, Source>

  datatype Module = Module(index: nat, root: FileId, bindings: map<string, nat>)

  datatype LoadError = CannotOpen(file: FileId) | Ring(files: seq<FileId>)
  datatype Taken = Taken(index: nat) | Refused(error: LoadError)
  datatype Loaded = Loaded | NotLoaded(error: LoadError)

  // ---- what is reached from what ---------------------------------------------------

  predicate Imports(g: Graph, x: FileId, y: FileId) {
    x in g && exists i :: 0 <= i < |g[x].binds| && g[x].binds[i].target == y
  }

  predicate Chain(g: Graph, p: seq<FileId>) {
    |p| > 0 && forall i :: 0 <= i < |p| - 1 ==> Imports(g, p[i], p[i + 1])
  }

  ghost predicate Reaches(g: Graph, x: FileId, y: FileId) {
    exists p :: Chain(g, p) && p[0] == x && p[|p| - 1] == y
  }

  lemma ReachesItself(g: Graph, x: FileId)
    ensures Reaches(g, x, x)
  {
    assert Chain(g, [x]);
  }

  lemma ReachesOneFurther(g: Graph, x: FileId, y: FileId, z: FileId)
    requires Imports(g, x, y) && Reaches(g, y, z)
    ensures Reaches(g, x, z)
  {
    var p :| Chain(g, p) && p[0] == y && p[|p| - 1] == z;
    var q := [x] + p;
    assert Chain(g, q);
  }

  /** A set with everything its members import holds all they reach. */
  lemma {:induction false} ClosedHoldsReached(g: Graph, s: set<FileId>, p: seq<FileId>)
    requires Chain(g, p) && p[0] in s && forall x, y :: x in s && Imports(g, x, y) ==> y in s
    ensures p[|p| - 1] in s
    decreases |p|
  {
    if |p| > 1 {
      assert Imports(g, p[0], p[1]);
      forall i | 0 <= i < |p[1..]| - 1 ensures Imports(g, p[1..][i], p[1..][i + 1]) {
        assert Imports(g, p[i + 1], p[i + 2]);
      }
      ClosedHoldsReached(g, s, p[1..]);
    }
  }

  // ---- what loading leaves --------------------------------------------------------------

  /** The table a file's bindings make, a name bound twice keeping the last. */
  function Bindings(binds: seq<Bind>, byPath: map<FileId, nat>): map<string, nat>
    requires forall i :: 0 <= i < |binds| ==> binds[i].target in byPath
  {
    if binds == [] then map[] else
    var last := binds[|binds| - 1];
    Bindings(binds[..|binds| - 1], byPath)[last.name := byPath[last.target]]
  }

  predicate Grown(before: map<FileId, nat>, after: map<FileId, nat>) {
    forall x :: x in before ==> x in after && after[x] == before[x]
  }

  lemma {:induction false} BindingsStay(binds: seq<Bind>, before: map<FileId, nat>, after: map<FileId, nat>)
    requires Grown(before, after) && forall i :: 0 <= i < |binds| ==> binds[i].target in before
    ensures Bindings(binds, after) == Bindings(binds, before)
    decreases |binds|
  {
    if binds != [] { BindingsStay(binds[..|binds| - 1], before, after); }
  }

  /** Every binding of a module's text is in its table, pointing at the module
      its file became. */
  predicate Bound(m: Module, g: Graph, byPath: map<FileId, nat>) {
    m.root in g && (forall i :: 0 <= i < |g[m.root].binds| ==> g[m.root].binds[i].target in byPath) &&
    m.bindings == Bindings(g[m.root].binds, byPath)
  }

  lemma BoundStays(m: Module, g: Graph, before: map<FileId, nat>, after: map<FileId, nat>)
    requires Bound(m, g, before) && Grown(before, after)
    ensures Bound(m, g, after)
  {
    BindingsStay(g[m.root].binds, before, after);
  }

  /** What holds between one module and the next: indices are dense, each file
      is one module, and the text of each begins on the line after the last of
      the one before it. */
  predicate Fit(g: Graph, mods: seq<Module>, byPath: map<FileId, nat>, starts: seq<nat>, lines: nat) {
    |starts| == |mods| &&
    (forall k :: 0 <= k < |mods| ==> mods[k].index == k && mods[k].root in byPath && byPath[mods[k].root] == k) &&
    (forall x :: x in byPath ==> x in g && byPath[x] < |mods| && mods[byPath[x]].root == x) &&
    (forall k :: 0 <= k < |mods| ==>
       starts[k] == (if k == 0 then 1 else starts[k - 1] + g[mods[k - 1].root].lines)) &&
    lines + 1 == (if mods == [] then 1 else starts[|mods| - 1] + g[mods[|mods| - 1].root].lines)
  }

  lemma EnterFits(g: Graph, mods: seq<Module>, byPath: map<FileId, nat>, starts: seq<nat>, lines: nat, root: FileId)
    requires Fit(g, mods, byPath, starts, lines) && root !in byPath && root in g
    ensures Fit(g, mods + [Module(|mods|, root, map[])], byPath[root := |mods|], starts + [1 + lines],
                lines + g[root].lines)
    ensures Grown(byPath, byPath[root := |mods|])
    ensures g.Keys - byPath[root := |mods|].Keys < g.Keys - byPath.Keys
  {
    assert root in g.Keys - byPath.Keys;
  }

  lemma RebindFits(g: Graph, mods: seq<Module>, byPath: map<FileId, nat>, starts: seq<nat>, lines: nat, k: nat,
                   b: map<string, nat>)
    requires Fit(g, mods, byPath, starts, lines) && k < |mods|
    ensures Fit(g, mods[k := mods[k].(bindings := b)], byPath, starts, lines)
  {
    var ms := mods[k := mods[k].(bindings := b)];
    forall j | 0 <= j < |ms|
      ensures ms[j].index == j && ms[j].root in byPath && byPath[ms[j].root] == j
      ensures starts[j] == (if j == 0 then 1 else starts[j - 1] + g[ms[j - 1].root].lines)
    {
      assert ms[j].root == mods[j].root;
      assert j > 0 ==> ms[j - 1].root == mods[j - 1].root;
    }
    forall x | x in byPath ensures ms[byPath[x]].root == x { assert ms[byPath[x]].root == mods[byPath[x]].root; }
    assert ms[|ms| - 1].root == mods[|mods| - 1].root;
  }

  lemma FitIs(g: Graph, mods: seq<Module>, byPath: map<FileId, nat>, starts: seq<nat>, lines: nat)
    requires Fit(g, mods, byPath, starts, lines)
    ensures byPath.Keys <= g.Keys
    ensures forall k :: 0 <= k < |mods| ==> mods[k].root in byPath
    ensures forall x :: x in byPath ==> byPath[x] < |mods| && mods[byPath[x]].root == x
    ensures mods == [] ==> byPath == map[]
  {
    if mods == [] { assert forall x :: x in byPath ==> byPath[x] < 0; }
  }

  lemma GrownOnward(a: map<FileId, nat>, b: map<FileId, nat>, c: map<FileId, nat>)
    requires Grown(a, b) && Grown(b, c)
    ensures Grown(a, c) && a.Keys <= b.Keys <= c.Keys
  {}

  /** The modules from one on are bound. */
  predicate AllBound(g: Graph, mods: seq<Module>, byPath: map<FileId, nat>, lo: nat) {
    forall k :: lo <= k < |mods| ==> Bound(mods[k], g, byPath)
  }

  ghost predicate AllReached(g: Graph, root: FileId, mods: seq<Module>, lo: nat) {
    forall k :: lo <= k < |mods| ==> Reaches(g, root, mods[k].root)
  }

  lemma MoreBound(g: Graph, before: seq<Module>, older: map<FileId, nat>, after: seq<Module>, newer: map<FileId, nat>,
                  lo: nat)
    requires lo <= |before| <= |after| && after[..|before|] == before && Grown(older, newer)
    requires AllBound(g, before, older, lo) && AllBound(g, after, newer, |before|)
    ensures AllBound(g, after, newer, lo)
  {
    forall k | lo <= k < |after| ensures Bound(after[k], g, newer) {
      if k < |before| {
        assert after[k] == after[..|before|][k];
        BoundStays(after[k], g, older, newer);
      }
    }
  }

  lemma MoreReached(g: Graph, root: FileId, target: FileId, before: seq<Module>, after: seq<Module>, lo: nat)
    requires lo <= |before| <= |after| && after[..|before|] == before && Imports(g, root, target)
    requires AllReached(g, root, before, lo) && AllReached(g, target, after, |before|)
    ensures AllReached(g, root, after, lo)
  {
    forall k | lo <= k < |after| ensures Reaches(g, root, after[k].root) {
      if k < |before| {
        assert after[k] == after[..|before|][k];
      } else {
        ReachesOneFurther(g, root, target, after[k].root);
      }
    }
  }

  /** One module's own table, with the bindings of its first `i` imports. */
  predicate BoundSoFar(m: Module, root: FileId, g: Graph, byPath: map<FileId, nat>, i: nat) {
    m.root == root && root in g && i <= |g[root].binds| &&
    (forall j :: 0 <= j < i ==> g[root].binds[j].target in byPath) &&
    m.bindings == Bindings(g[root].binds[..i], byPath)
  }

  lemma OneMoreBinding(m: Module, root: FileId, g: Graph, before: map<FileId, nat>, after: map<FileId, nat>, i: nat)
    requires BoundSoFar(m, root, g, before, i) && i < |g[root].binds| && Grown(before, after)
    requires g[root].binds[i].target in after
    ensures var b := g[root].binds[i];
            BoundSoFar(m.(bindings := m.bindings[b.name := after[b.target]]), root, g, after, i + 1)
  {
    var binds := g[root].binds;
    BindingsStay(binds[..i], before, after);
    assert binds[..i + 1][..i] == binds[..i];
  }

  lemma BoundAtLast(m: Module, root: FileId, g: Graph, byPath: map<FileId, nat>)
    requires root in g && BoundSoFar(m, root, g, byPath, |g[root].binds|)
    ensures Bound(m, g, byPath) && m.root == root
  {
    assert g[root].binds[..|g[root].binds|] == g[root].binds;
  }

  /** The files loaded are those the roots reach. */
  ghost predicate Exactly(g: Graph, roots: seq<FileId>, loaded: set<FileId>) {
    forall x :: x in loaded <==> FromSome(g, roots, x)
  }

  ghost predicate AllFrom(g: Graph, roots: seq<FileId>, n: nat, mods: seq<Module>)
    requires n <= |roots|
  {
    forall k :: 0 <= k < |mods| ==> exists i :: 0 <= i < n && Reaches(g, roots[i], mods[k].root)
  }

  lemma MoreFrom(g: Graph, roots: seq<FileId>, n: nat, before: seq<Module>, after: seq<Module>)
    requires n < |roots| && AllFrom(g, roots, n, before) && |before| <= |after| && after[..|before|] == before
    requires AllReached(g, roots[n], after, |before|)
    ensures AllFrom(g, roots, n + 1, after)
  {
    forall k | 0 <= k < |after| ensures exists i :: 0 <= i < n + 1 && Reaches(g, roots[i], after[k].root) {
      if k < |before| { assert after[k] == after[..|before|][k]; }
    }
  }

  lemma LoadedExactly(g: Graph, roots: seq<FileId>, mods: seq<Module>, byPath: map<FileId, nat>, starts: seq<nat>,
                      lines: nat)
    requires Fit(g, mods, byPath, starts, lines) && AllBound(g, mods, byPath, 0)
    requires (forall j :: 0 <= j < |roots| ==> roots[j] in byPath) && AllFrom(g, roots, |roots|, mods)
    ensures Exactly(g, roots, byPath.Keys) && byPath.Keys <= g.Keys
  {
    hide *;
    FitIs(g, mods, byPath, starts, lines);
    LoadedIsClosed(g, mods, byPath);
    OnlyReached(g, roots, mods, byPath);
    AllReachedIn(g, roots, byPath.Keys);
    Both(g, roots, byPath.Keys);
  }

  lemma OnlyReached(g: Graph, roots: seq<FileId>, mods: seq<Module>, byPath: map<FileId, nat>)
    requires AllFrom(g, roots, |roots|, mods)
    requires forall x :: x in byPath ==> byPath[x] < |mods| && mods[byPath[x]].root == x
    ensures OnlyFrom(g, roots, byPath.Keys)
  {
    hide Reaches;
    forall x | x in byPath.Keys ensures FromSome(g, roots, x) {
      var k := byPath[x];
      assert mods[k].root == x;
      var i :| 0 <= i < |roots| && Reaches(g, roots[i], mods[k].root);
    }
  }

  ghost predicate FromSome(g: Graph, roots: seq<FileId>, x: FileId) {
    exists i :: 0 <= i < |roots| && Reaches(g, roots[i], x)
  }

  ghost predicate OnlyFrom(g: Graph, roots: seq<FileId>,
                           s: set<FileId>) { forall x :: x in s ==> FromSome(g, roots, x) }

  ghost predicate AllFromIn(g: Graph, roots: seq<FileId>, s: set<FileId>) {
    forall i, x :: 0 <= i < |roots| && Reaches(g, roots[i], x) ==> x in s
  }

  lemma AllReachedIn(g: Graph, roots: seq<FileId>, s: set<FileId>)
    requires Closed(g, s) && forall j :: 0 <= j < |roots| ==> roots[j] in s
    ensures AllFromIn(g, roots, s)
  {
    hide Closed, Reaches;
    forall i, x | 0 <= i < |roots| && Reaches(g, roots[i], x) ensures x in s { ReachedIsIn(g, s, roots[i], x); }
  }

  lemma Both(g: Graph, roots: seq<FileId>, s: set<FileId>)
    requires OnlyFrom(g, roots, s) && AllFromIn(g, roots, s)
    ensures Exactly(g, roots, s)
  {
    hide Reaches;
  }

  ghost predicate Closed(g: Graph, s: set<FileId>) {
    forall x, y :: x in s && Imports(g, x, y) ==> y in s
  }

  lemma LoadedIsClosed(g: Graph, mods: seq<Module>, byPath: map<FileId, nat>)
    requires AllBound(g, mods, byPath, 0) && forall x :: x in byPath ==> byPath[x] < |mods| && mods[byPath[x]].root == x
    ensures Closed(g, byPath.Keys)
  {
    forall x, y | x in byPath.Keys && Imports(g, x, y) ensures y in byPath.Keys {
      assert Bound(mods[byPath[x]], g, byPath);
    }
  }

  lemma ReachedIsIn(g: Graph, s: set<FileId>, x: FileId, y: FileId)
    requires Closed(g, s) && x in s && Reaches(g, x, y)
    ensures y in s
  {
    var p :| Chain(g, p) && p[0] == x && p[|p| - 1] == y;
    ClosedHoldsReached(g, s, p);
  }

  /** The loader: the modules so far, the file each is, and where the joined
      text has got to. */
  class Loader {
    const g: Graph
    var mods: seq<Module>
    var byPath: map<FileId, nat>
    var starts: seq<nat>
    var lines: nat

    constructor (g: Graph)
      ensures this.g == g && mods == [] && Valid()
    {
      this.g := g;
      mods, byPath, starts, lines := [], map[], [], 0;
    }

    predicate Valid()
      reads this
    {
      Fit(g, mods, byPath, starts, lines)
    }

    /** `take`: the file and all it imports that is not there yet.  A ring is
        never met, since what is being loaded is already in the table. */
    method Take(root: FileId, being: seq<FileId>) returns (r: Taken)
      requires Valid() && forall x :: x in being ==> x in byPath
      modifies this
      ensures Valid() && Grown(old(byPath), byPath)
      ensures |mods| >= |old(mods)| && mods[..|old(mods)|] == old(mods)
      ensures r.Taken? ==> root in byPath && r.index == byPath[root]
      ensures r.Taken? ==> AllBound(g, mods, byPath, |old(mods)|) && AllReached(g, root, mods, |old(mods)|)
      ensures r.Refused? ==> r.error.CannotOpen? && r.error.file !in g && Reaches(g, root, r.error.file)
      decreases g.Keys - byPath.Keys, 1
    {
      hide Fit, Reaches, Imports, Bound, Bindings, BoundSoFar;
      if root in byPath { return Taken(byPath[root]); }
      if root in being { return Refused(Ring(being + [root])); }
      ReachesItself(g, root);
      if root !in g { return Refused(CannotOpen(root)); }
      var index := |mods|;
      EnterFits(g, mods, byPath, starts, lines, root);
      byPath := byPath[root := index];
      mods := mods + [Module(index, root, map[])];
      starts := starts + [1 + lines];
      lines := lines + g[root].lines;
      NoBindingsYet(mods[index], root, g, byPath);
      var r0 := BindAll(root, index, being);
      if r0.Refused? { return r0; }
      r := Taken(index);
    }

    lemma NoBindingsYet(m: Module, root: FileId, g: Graph, byPath: map<FileId, nat>)
      requires root in g && m.root == root && m.bindings == map[]
      ensures BoundSoFar(m, root, g, byPath, 0)
    {}

    /** What a module binds, resolved and loaded in turn. */
    method BindAll(root: FileId, index: nat, being: seq<FileId>) returns (r: Taken)
      requires Valid() && root in byPath && (forall x :: x in being ==> x in byPath) && root in g
      requires index + 1 == |mods| && BoundSoFar(mods[index], root, g, byPath, 0)
      modifies this
      ensures Valid() && Grown(old(byPath), byPath)
      ensures |mods| > index && mods[..index] == old(mods[..index])
      ensures r.Taken? ==> AllBound(g, mods, byPath, index) && AllReached(g, root, mods, index)
      ensures r.Refused? ==> r.error.CannotOpen? && r.error.file !in g && Reaches(g, root, r.error.file)
      decreases g.Keys - byPath.Keys, 2
    {
      hide Fit, Reaches, Imports, Bound, Bindings, BoundSoFar, AllBound, AllReached, Grown;
      var binds := g[root].binds;
      NothingLater(root, index);
      ghost var first := byPath;
      GrownSelf(byPath);
      for i := 0 to |binds|
        invariant Valid() && Grown(first, byPath) && first.Keys <= byPath.Keys
        invariant |mods| > index && mods[..index] == old(mods[..index])
        invariant BoundSoFar(mods[index], root, g, byPath, i)
        invariant AllBound(g, mods, byPath, index + 1) && AllReached(g, root, mods, index + 1)
      {
        ghost var before, older := mods, byPath;
        ImportsIts(root, i);
        StillFewer(first, byPath);
        var one := Take(binds[i].target, being + [root]);
        GrownOnward(first, older, byPath);
        assert mods[..index] == mods[..|before|][..index];
        if one.Refused? {
          ReachesOneFurther(g, root, binds[i].target, one.error.file);
          return one;
        }
        MoreBound(g, before, older, mods, byPath, index + 1);
        MoreReached(g, root, binds[i].target, before, mods, index + 1);
        assert mods[index] == mods[..|before|][index];
        OneMoreBinding(mods[index], root, g, older, byPath, i);
        RebindFits(g, mods, byPath, starts, lines, index, mods[index].bindings[binds[i].name := one.index]);
        OthersStay(mods, index, mods[index].bindings[binds[i].name := one.index], root);
        mods := mods[index := mods[index].(bindings := mods[index].bindings[binds[i].name := one.index])];
      }
      BoundAtLast(mods[index], root, g, byPath);
      AndItself(index, root);
      r := Taken(index);
    }

    lemma NothingLater(root: FileId, index: nat)
      requires index + 1 == |mods|
      ensures AllBound(g, mods, byPath, index + 1) && AllReached(g, root, mods, index + 1)
    {}

    lemma GrownSelf(a: map<FileId, nat>)
      ensures Grown(a, a)
    {}

    lemma ImportsIts(root: FileId, i: nat)
      requires root in g && i < |g[root].binds|
      ensures Imports(g, root, g[root].binds[i].target)
    {}

    lemma StillFewer(a: map<FileId, nat>, b: map<FileId, nat>)
      requires a.Keys <= b.Keys
      ensures g.Keys - b.Keys <= g.Keys - a.Keys
    {}

    lemma OthersStay(ms: seq<Module>, k: nat, b: map<string, nat>, root: FileId)
      requires k < |ms| && AllBound(g, ms, byPath, k + 1) && AllReached(g, root, ms, k + 1)
      ensures var ns := ms[k := ms[k].(bindings := b)];
              AllBound(g, ns, byPath, k + 1) && AllReached(g, root, ns, k + 1)
    {}

    lemma AndItself(index: nat, root: FileId)
      requires index < |mods| && mods[index].root == root && Bound(mods[index], g, byPath)
      requires AllBound(g, mods, byPath, index + 1) && AllReached(g, root, mods, index + 1)
      ensures AllBound(g, mods, byPath, index) && AllReached(g, root, mods, index)
    {
      ReachesItself(g, root);
    }

    /** `load`: on any graph, rings and all, every file the roots reach becomes
        one module and no other does; or, where one of them cannot be opened,
        that is what is said. */
    method Load(roots: seq<FileId>) returns (r: Loaded)
      requires Valid() && mods == []
      modifies this
      ensures Valid()
      ensures r.Loaded? ==> Exactly(g, roots, byPath.Keys) && AllBound(g, mods, byPath, 0) && byPath.Keys <= g.Keys
      ensures r.NotLoaded? ==>
                r.error.CannotOpen? && r.error.file !in g &&
                exists i :: 0 <= i < |roots| && Reaches(g, roots[i], r.error.file)
    {
      hide Fit, Reaches, Imports, Bound, AllFrom, Exactly;
      FitIs(g, mods, byPath, starts, lines);
      NoneFrom(roots);
      for i := 0 to |roots|
        invariant Valid() && forall j :: 0 <= j < i ==> roots[j] in byPath
        invariant AllBound(g, mods, byPath, 0) && AllFrom(g, roots, i, mods)
      {
        ghost var before, older := mods, byPath;
        var one := Take(roots[i], []);
        if one.Refused? { return NotLoaded(one.error); }
        MoreBound(g, before, older, mods, byPath, 0);
        MoreFrom(g, roots, i, before, mods);
      }
      LoadedExactly(g, roots, mods, byPath, starts, lines);
      r := Loaded;
    }

    lemma NoneFrom(roots: seq<FileId>)
      requires mods == []
      ensures AllFrom(g, roots, 0, mods)
    {}
  }

  // ---- lines ----------------------------------------------------------------------------------

  predicate Sorted(starts: seq<nat>) {
    forall i, j :: 0 <= i <= j < |starts| ==> starts[i] <= starts[j]
  }

  /** The k-th is the last that begins at or before the line. */
  predicate LastFrom(starts: seq<nat>, k: nat, line: nat) {
    k < |starts| && starts[k] <= line && forall j :: k < j < |starts| ==> line < starts[j]
  }

  /** `locate`: the last file that begins at or before the line, looked for from
      the back; with fewer than two files, the line is what it should be. */
  method Locate(starts: seq<nat>, names: seq<FileId>, line: nat, fallback: FileId) returns (name: FileId, within: int)
    requires |names| == |starts|
    ensures |starts| < 2 || (forall k :: 0 <= k < |starts| ==> line < starts[k]) ==> name == fallback && within == line
    ensures forall k: nat ::
              |starts| >= 2 && LastFrom(starts, k, line) ==> name == names[k] && within == line - starts[k] + 1
  {
    if |starts| < 2 { return fallback, line; }
    for k := |starts| downto 0
      invariant forall j :: k <= j < |starts| ==> line < starts[j]
    {
      if line >= starts[k] { return names[k], line - starts[k] + 1; }
    }
    return fallback, line;
  }

  /** `file_at`: the same question asked from the front, of one module's files. */
  method FileAt(starts: seq<nat>, paths: seq<FileId>, root: FileId, line: nat) returns (name: FileId, within: int)
    requires |paths| == |starts| && Sorted(starts)
    ensures forall k: nat :: LastFrom(starts, k, line) ==> name == paths[k] && within == line - starts[k] + 1
    ensures starts == [] ==> name == root && within == line
  {
    name := if |paths| > 0 then paths[0] else root;
    var start := if |starts| > 0 then starts[0] else 1;
    var k := 0;
    while k < |starts| && starts[k] <= line
      invariant 0 <= k <= |starts| && forall j :: 0 <= j < k ==> starts[j] <= line
      invariant k > 0 ==> name == paths[k - 1] && start == starts[k - 1]
      invariant k == 0 ==>
                  name == (if |paths| > 0 then paths[0] else root) && start == (if |starts| > 0 then starts[0] else 1)
    {
      name, start := paths[k], starts[k];
      k := k + 1;
    }
    within := line - start + 1;
  }

  /** The files a load read, in order. */
  function Roots(mods: seq<Module>): (r: seq<FileId>)
    ensures |r| == |mods| && forall k :: 0 <= k < |mods| ==> r[k] == mods[k].root
  {
    if mods == [] then [] else [mods[0].root] + Roots(mods[1..])
  }

  /** A start list in which each file begins where the one before it ended. */
  predicate EndToEnd(starts: seq<nat>, counts: seq<nat>) {
    |counts| == |starts| && forall k :: 0 <= k < |starts| ==>
      starts[k] == (if k == 0 then 1 else starts[k - 1] + counts[k - 1])
  }

  lemma {:induction false} StartsBeyond(starts: seq<nat>, counts: seq<nat>, k: nat, j: nat)
    requires EndToEnd(starts, counts) && k < j < |starts|
    ensures starts[k] + counts[k] <= starts[j]
    decreases j
  {
    if k < j - 1 { StartsBeyond(starts, counts, k, j - 1); }
  }

  /** Shifting a line to where its file's text lands, then asking which file it
      is of, gives the file and the line back. */
  lemma ShiftedLineIsFound(starts: seq<nat>, counts: seq<nat>, k: nat, line: nat)
    requires EndToEnd(starts, counts) && k < |starts| && 1 <= line <= counts[k]
    ensures var shifted := line + starts[k] - 1;
            LastFrom(starts, k, shifted) && shifted - starts[k] + 1 == line
  {
    forall j | k < j < |starts| ensures line + starts[k] - 1 < starts[j] { StartsBeyond(starts, counts, k, j); }
  }

  function Counts(mods: seq<Module>, g: Graph): (r: seq<nat>)
    ensures |r| == |mods| && forall k :: 0 <= k < |mods| && mods[k].root in g ==> r[k] == g[mods[k].root].lines
  {
    if mods == [] then [] else [if mods[0].root in g then g[mods[0].root].lines else 0] + Counts(mods[1..], g)
  }

  lemma LoaderEndToEnd(loader: Loader, counts: seq<nat>)
    requires loader.Valid() && counts == Counts(loader.mods, loader.g)
    ensures EndToEnd(loader.starts, counts)
    ensures forall k :: 0 <= k < |loader.mods| ==>
              loader.mods[k].root in loader.g && counts[k] == loader.g[loader.mods[k].root].lines
  {}

  /** After a load of two files or more, a token's line is put back where it was
      written, whichever module it is of. */
  method LocateLoaded(loader: Loader, k: nat, line: nat, fallback: FileId) returns (name: FileId, within: int)
    requires loader.Valid() && |loader.mods| >= 2 && k < |loader.mods|
    requires 1 <= line <= loader.g[loader.mods[k].root].lines
    ensures name == loader.mods[k].root && within == line
  {
    hide Fit, EndToEnd;
    var names := Roots(loader.mods);
    ghost var counts := Counts(loader.mods, loader.g);
    LoaderEndToEnd(loader, counts);
    ShiftedLineIsFound(loader.starts, counts, k, line);
    name, within := Locate(loader.starts, names, line + loader.starts[k] - 1, fallback);
  }

  /** Where a binding was written, from its shifted line: the module's own file,
      and the line its author counts. */
  method AskedIn(loader: Loader, k: nat, line: nat) returns (name: FileId, within: int)
    requires loader.Valid() && k < |loader.mods| && 1 <= line <= loader.g[loader.mods[k].root].lines
    ensures name == loader.mods[k].root && within == line
  {
    var starts, paths := [loader.starts[k]], [loader.mods[k].root];
    assert LastFrom(starts, 0, line + loader.starts[k] - 1);
    name, within := FileAt(starts, paths, loader.mods[k].root, line + loader.starts[k] - 1);
  }
}
