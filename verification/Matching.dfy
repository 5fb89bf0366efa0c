/** Trees, patterns, and matching one against the other (interp/macros.py). */
module Matching {
  import opened Syntax

  /** A name as a source file writes it, or one that renaming made of another:
      `name#n`, which no source file can spell. */
  datatype Ident = Written(text: string) | Marked(of: Ident, n: nat)

  datatype Kind = VarDef | VarRef | FuncCall | MacroCall | ExprLine | BinOp | IntLit | OtherKind(name: string)

  /** A parse tree.  A node is its kind and what its fields hold, in order, its
      position apart; the field a binder, a reference or a call keeps its name in
      is `name`.  `Hole` is the `$name` of a rule. */
  datatype Tree =
    | Hole(hole: string, pos: nat)
    | Node(kind: Kind, name: Option<Ident>, fields: seq<Tree>, pos: nat)
    | List(items: seq<Tree>)
    | Tuple(items: seq<Tree>)
    | Atom(text: string)
    | Num(n: int)

  predicate IsNode(t: Tree) { t.Hole? || t.Node? }

  predicate IsSeq(t: Tree) { t.List? || t.Tuple? }

  predicate HoleFree(t: Tree)
    decreases t, 0
  {
    match t
    case Hole(_, _) => false
    case Node(_, _, fs, _) => AllHoleFree(fs)
    case List(ts) => AllHoleFree(ts)
    case Tuple(ts) => AllHoleFree(ts)
    case _ => true
  }

  predicate AllHoleFree(ts: seq<Tree>)
    decreases ts, 0
  {
    ts == [] || (HoleFree(ts[0]) && AllHoleFree(ts[1..]))
  }

  function Holes(t: Tree): set<string>
    decreases t, 0
  {
    match t
    case Hole(h, _) => {h}
    case Node(_, _, fs, _) => AllHoles(fs)
    case List(ts) => AllHoles(ts)
    case Tuple(ts) => AllHoles(ts)
    case _ => {}
  }

  function AllHoles(ts: seq<Tree>): set<string>
    decreases ts, 0
  {
    if ts == [] then {} else Holes(ts[0]) + AllHoles(ts[1..])
  }

  /** What stands directly inside a tree. */
  function Parts(t: Tree): seq<Tree> {
    match t
    case Node(_, _, fs, _) => fs
    case List(ts) => ts
    case Tuple(ts) => ts
    case _ => []
  }

  /** The tree at the end of a path. */
  function Under(t: Tree, path: seq<nat>): Option<Tree>
    decreases |path|
  {
    if path == [] then Some(t)
    else if path[0] < |Parts(t)| then Under(Parts(t)[path[0]], path[1..]) else None
  }

  type Binds = map<string, Tree>

  /** `_alike`: the same shape, wherever each was written, a list and a tuple
      of the same things being alike. */
  predicate Alike(a: Tree, b: Tree)
    decreases a, 0
  {
    match a
    case Hole(_, _) => false
    case Node(k, x, fs, _) => b.Node? && k == b.kind && x == b.name && AllAlike(fs, b.fields)
    case List(ts) => IsSeq(b) && AllAlike(ts, b.items)
    case Tuple(ts) => IsSeq(b) && AllAlike(ts, b.items)
    case _ => a == b
  }

  predicate AllAlike(as_: seq<Tree>, bs: seq<Tree>)
    decreases as_, 0
  {
    |as_| == |bs| && (as_ == [] || (Alike(as_[0], bs[0]) && AllAlike(as_[1..], bs[1..])))
  }

  /** `_match_field`, answering the table of bindings where it succeeds. */
  function Match(p: Tree, t: Tree, b: Binds): Option<Binds>
    decreases p, 0
  {
    match p
    case Hole(h, _) =>
      if !IsNode(t) then None
      else if h in b then if Alike(b[h], t) then Some(b) else None
      else Some(b[h := t])
    case Node(k, x, fs, _) =>
      if t.Node? && k == t.kind && x == t.name && |fs| == |t.fields| then MatchAll(fs, t.fields, b) else None
    case List(ps) => if IsSeq(t) && |ps| == |t.items| then MatchAll(ps, t.items, b) else None
    case Tuple(ps) => if IsSeq(t) && |ps| == |t.items| then MatchAll(ps, t.items, b) else None
    case _ => if p == t then Some(b) else None
  }

  function MatchAll(ps: seq<Tree>, ts: seq<Tree>, b: Binds): Option<Binds>
    requires |ps| == |ts|
    decreases ps, 0
  {
    if ps == [] then Some(b) else
    match Match(ps[0], ts[0], b)
    case None => None
    case Some(b1) => MatchAll(ps[1..], ts[1..], b1)
  }

  /** `_fill`; a hole nothing was matched for is an error. */
  function Fill(t: Tree, b: Binds): Option<Tree>
    decreases t, 0
  {
    match t
    case Hole(h, _) => if h in b then Some(b[h]) else None
    case Node(k, x, fs, pos) =>
      (match FillAll(fs, b) case None => None case Some(gs) => Some(Node(k, x, gs, pos)))
    case List(ts) => (match FillAll(ts, b) case None => None case Some(us) => Some(List(us)))
    case Tuple(ts) => (match FillAll(ts, b) case None => None case Some(us) => Some(Tuple(us)))
    case _ => Some(t)
  }

  function FillAll(ts: seq<Tree>, b: Binds): (r: Option<seq<Tree>>)
    ensures r.Some? ==> |r.value| == |ts|
    decreases ts, 0
  {
    if ts == [] then Some([]) else
    match Fill(ts[0], b)
    case None => None
    case Some(u) =>
      match FillAll(ts[1..], b)
      case None => None
      case Some(us) => Some([u] + us)
  }

  // ---- alike is an equivalence on hole-free trees ------------------------

  lemma {:induction false} AlikeReflexive(t: Tree)
    requires HoleFree(t)
    ensures Alike(t, t)
    decreases t, 1
  {
    match t
    case Node(_, _, fs, _) => AllAlikeReflexive(fs);
    case List(ts) => AllAlikeReflexive(ts);
    case Tuple(ts) => AllAlikeReflexive(ts);
    case _ =>
  }

  lemma {:induction false} AllAlikeReflexive(ts: seq<Tree>)
    requires AllHoleFree(ts)
    ensures AllAlike(ts, ts)
    decreases ts, 1
  {
    if ts != [] {
      AlikeReflexive(ts[0]);
      AllAlikeReflexive(ts[1..]);
    }
  }

  lemma {:induction false} AlikeSymmetric(a: Tree, b: Tree)
    requires Alike(a, b)
    ensures Alike(b, a)
    decreases a, 1
  {
    match a
    case Node(_, _, fs, _) => AllAlikeSymmetric(fs, b.fields);
    case List(ts) => AllAlikeSymmetric(ts, b.items);
    case Tuple(ts) => AllAlikeSymmetric(ts, b.items);
    case _ =>
  }

  lemma {:induction false} AllAlikeSymmetric(as_: seq<Tree>, bs: seq<Tree>)
    requires AllAlike(as_, bs)
    ensures AllAlike(bs, as_)
    decreases as_, 1
  {
    if as_ != [] {
      AlikeSymmetric(as_[0], bs[0]);
      AllAlikeSymmetric(as_[1..], bs[1..]);
    }
  }

  lemma {:induction false} AlikeTransitive(a: Tree, b: Tree, c: Tree)
    requires Alike(a, b) && Alike(b, c)
    ensures Alike(a, c)
    decreases a, 1
  {
    match a
    case Node(_, _, fs, _) => AllAlikeTransitive(fs, b.fields, c.fields);
    case List(ts) => AllAlikeTransitive(ts, b.items, c.items);
    case Tuple(ts) => AllAlikeTransitive(ts, b.items, c.items);
    case _ =>
  }

  lemma {:induction false} AllAlikeTransitive(as_: seq<Tree>, bs: seq<Tree>, cs: seq<Tree>)
    requires AllAlike(as_, bs) && AllAlike(bs, cs)
    ensures AllAlike(as_, cs)
    decreases as_, 1
  {
    if as_ != [] {
      AlikeTransitive(as_[0], bs[0], cs[0]);
      AllAlikeTransitive(as_[1..], bs[1..], cs[1..]);
    }
  }

  /** Only what has no hole in it is alike to anything. */
  lemma {:induction false} AlikeIsHoleFree(a: Tree, b: Tree)
    requires Alike(a, b)
    ensures HoleFree(a)
    decreases a, 1
  {
    match a
    case Node(_, _, fs, _) => AllAlikeIsHoleFree(fs, b.fields);
    case List(ts) => AllAlikeIsHoleFree(ts, b.items);
    case Tuple(ts) => AllAlikeIsHoleFree(ts, b.items);
    case _ =>
  }

  lemma {:induction false} AllAlikeIsHoleFree(as_: seq<Tree>, bs: seq<Tree>)
    requires AllAlike(as_, bs)
    ensures AllHoleFree(as_)
    decreases as_, 1
  {
    if as_ != [] {
      AlikeIsHoleFree(as_[0], bs[0]);
      AllAlikeIsHoleFree(as_[1..], bs[1..]);
    }
  }

  // ---- piece by piece ---------------------------------------------------------------

  /** The pattern has this hole where the tree has this piece. */
  ghost predicate PieceFor(p: Tree, t: Tree, h: string, piece: Tree) { exists path :: PieceAt(p, t, path, h, piece) }

  predicate PieceAt(p: Tree, t: Tree, path: seq<nat>, h: string, piece: Tree) {
    var u := Under(p, path);
    u.Some? && u.value.Hole? && u.value.hole == h && Under(t, path) == Some(piece)
  }

  lemma PieceInside(p: Tree, t: Tree, i: nat, h: string, piece: Tree)
    requires i < |Parts(p)| && i < |Parts(t)| && PieceFor(Parts(p)[i], Parts(t)[i], h, piece)
    ensures PieceFor(p, t, h, piece)
  {
    var path :| PieceAt(Parts(p)[i], Parts(t)[i], path, h, piece);
    assert ([i] + path)[1..] == path;
    assert PieceAt(p, t, [i] + path, h, piece);
  }

  /** What a hole is bound to is the tree's own piece, positions and all, from a
      place where the pattern has that hole. */
  lemma {:induction false} MatchBindsPieces(p: Tree, t: Tree, b: Binds)
    requires Match(p, t, b).Some?
    ensures var c := Match(p, t, b).value;
            Extends(b, c) && forall h :: h in c && h !in b ==> PieceFor(p, t, h, c[h])
    decreases p, 1
  {
    match p
    case Hole(h, _) => assert PieceAt(p, t, [], h, t);
    case Node(_, _, fs, _) => MatchAllBindsPieces(p, t, fs, t.fields, 0, b);
    case List(ps) => MatchAllBindsPieces(p, t, ps, t.items, 0, b);
    case Tuple(ps) => MatchAllBindsPieces(p, t, ps, t.items, 0, b);
    case _ =>
  }

  lemma {:induction false} MatchAllBindsPieces(p: Tree, t: Tree, ps: seq<Tree>, ts: seq<Tree>, i: nat, b: Binds)
    requires |ps| == |ts| && MatchAll(ps, ts, b).Some?
    requires i <= |Parts(p)| && i <= |Parts(t)| && Parts(p)[i..] == ps && Parts(t)[i..] == ts
    ensures var c := MatchAll(ps, ts, b).value;
            Extends(b, c) && forall h :: h in c && h !in b ==> PieceFor(p, t, h, c[h])
    decreases ps, 0
  {
    if ps != [] {
      assert ps[0] == Parts(p)[i] && ts[0] == Parts(t)[i];
      MatchBindsPieces(ps[0], ts[0], b);
      var b1 := Match(ps[0], ts[0], b).value;
      MatchAllBindsPieces(p, t, ps[1..], ts[1..], i + 1, b1);
      forall h | h in b1 && h !in b ensures PieceFor(p, t, h, b1[h]) { PieceInside(p, t, i, h, b1[h]); }
    }
  }

  /** One node of a filled template against the node it was. */
  predicate NodeFilled(x: Tree, y: Tree, b: Binds) {
    match x
    case Hole(h, _) => h in b && y == b[h]
    case Node(k, name, fs, pos) => y.Node? && y.kind == k && y.name == name && y.pos == pos && |y.fields| == |fs|
    case List(ts) => y.List? && |y.items| == |ts|
    case Tuple(ts) => y.Tuple? && |y.items| == |ts|
    case _ => y == x
  }

  lemma {:induction false} FillAllAt(ts: seq<Tree>, b: Binds, i: nat)
    requires FillAll(ts, b).Some? && i < |ts|
    ensures Fill(ts[i], b) == Some(FillAll(ts, b).value[i])
    decreases i
  {
    if i > 0 { FillAllAt(ts[1..], b, i - 1); }
  }

  /** Filling puts at every hole, wherever it stands, exactly what is bound to it,
      and leaves every other node of the template as it was. */
  lemma {:induction false} FilledAt(t: Tree, b: Binds, path: seq<nat>)
    requires Fill(t, b).Some? && Under(t, path).Some?
    ensures Under(Fill(t, b).value, path).Some?
    ensures NodeFilled(Under(t, path).value, Under(Fill(t, b).value, path).value, b)
    decreases |path|
  {
    if path != [] {
      FillAllAt(Parts(t), b, path[0]);
      FilledAt(Parts(t)[path[0]], b, path[1..]);
    }
  }

  // ---- soundness ----------------------------------------------------------------

  /** A table some other table agrees with wherever it says anything. */
  predicate Extends(b: Binds, c: Binds) { b.Keys <= c.Keys && forall h :: h in b ==> c[h] == b[h] }

  predicate NodesOnly(b: Binds) { forall h :: h in b ==> IsNode(b[h]) && HoleFree(b[h]) }

  /** What a match learns it learns about the pattern's holes, and filling the
      pattern with it -- or with anything that says as much -- rebuilds the tree. */
  lemma {:induction false} MatchSound(p: Tree, t: Tree, b: Binds, full: Binds)
    requires HoleFree(t) && NodesOnly(b) && Match(p, t, b).Some? && Extends(Match(p, t, b).value, full)
    ensures var c := Match(p, t, b).value;
            Extends(b, c) && NodesOnly(c) && c.Keys == b.Keys + Holes(p)
    ensures Fill(p, full).Some? && Alike(Fill(p, full).value, t)
    decreases p, 1
  {
    match p
    case Hole(h, _) =>
      if h !in b { AlikeReflexive(t); }
    case Node(_, _, fs, _) => MatchAllSound(fs, t.fields, b, full);
    case List(ps) => MatchAllSound(ps, t.items, b, full);
    case Tuple(ps) => MatchAllSound(ps, t.items, b, full);
    case _ =>
  }

  lemma {:induction false} MatchAllSound(ps: seq<Tree>, ts: seq<Tree>, b: Binds, full: Binds)
    requires |ps| == |ts| && AllHoleFree(ts) && NodesOnly(b) && MatchAll(ps, ts, b).Some?
    requires Extends(MatchAll(ps, ts, b).value, full)
    ensures var c := MatchAll(ps, ts, b).value;
            Extends(b, c) && NodesOnly(c) && c.Keys == b.Keys + AllHoles(ps)
    ensures FillAll(ps, full).Some? && AllAlike(FillAll(ps, full).value, ts)
    decreases ps, 1
  {
    if ps != [] {
      var b1 := Match(ps[0], ts[0], b).value;
      MatchKeeps(ps[0], ts[0], b);
      MatchAllSound(ps[1..], ts[1..], b1, full);
      MatchSound(ps[0], ts[0], b, full);
    }
  }

  lemma {:induction false} MatchKeeps(p: Tree, t: Tree, b: Binds)
    requires HoleFree(t) && NodesOnly(b) && Match(p, t, b).Some?
    ensures NodesOnly(Match(p, t, b).value)
    decreases p, 1
  {
    match p
    case Node(_, _, fs, _) => MatchAllKeeps(fs, t.fields, b);
    case List(ps) => MatchAllKeeps(ps, t.items, b);
    case Tuple(ps) => MatchAllKeeps(ps, t.items, b);
    case _ =>
  }

  lemma {:induction false} MatchAllKeeps(ps: seq<Tree>, ts: seq<Tree>, b: Binds)
    requires |ps| == |ts| && AllHoleFree(ts) && NodesOnly(b) && MatchAll(ps, ts, b).Some?
    ensures NodesOnly(MatchAll(ps, ts, b).value)
    decreases ps, 1
  {
    if ps != [] {
      MatchKeeps(ps[0], ts[0], b);
      MatchAllKeeps(ps[1..], ts[1..], Match(ps[0], ts[0], b).value);
    }
  }

  // ---- completeness ---------------------------------------------------------------

  /** Two tables that, where both speak, speak of alike trees. */
  predicate Compatible(b: Binds, s: Binds) { forall h :: h in b && h in s ==> Alike(s[h], b[h]) }

  predicate CoversWithNodes(s: Binds, hs: set<string>) { forall h :: h in hs ==> h in s && IsNode(s[h]) }

  /** Where some substitution makes the pattern the tree, matching succeeds and
      what it finds is that substitution. */
  lemma {:induction false} MatchComplete(p: Tree, t: Tree, b: Binds, s: Binds)
    requires HoleFree(t) && Compatible(b, s) && CoversWithNodes(s, Holes(p))
    requires Fill(p, s).Some? && Alike(Fill(p, s).value, t)
    ensures Match(p, t, b).Some? && Compatible(Match(p, t, b).value, s)
    decreases p, 1
  {
    match p
    case Hole(h, _) =>
      if h in b {
        AlikeSymmetric(s[h], b[h]);
        AlikeTransitive(b[h], s[h], t);
      }
    case Node(_, _, fs, _) => MatchAllComplete(fs, t.fields, b, s);
    case List(ps) => MatchAllComplete(ps, t.items, b, s);
    case Tuple(ps) => MatchAllComplete(ps, t.items, b, s);
    case _ =>
  }

  lemma {:induction false} MatchAllComplete(ps: seq<Tree>, ts: seq<Tree>, b: Binds, s: Binds)
    requires |ps| == |ts| && AllHoleFree(ts) && Compatible(b, s) && CoversWithNodes(s, AllHoles(ps))
    requires FillAll(ps, s).Some? && AllAlike(FillAll(ps, s).value, ts)
    ensures MatchAll(ps, ts, b).Some? && Compatible(MatchAll(ps, ts, b).value, s)
    decreases ps, 1
  {
    if ps != [] {
      var us := FillAll(ps, s).value;
      assert us == [Fill(ps[0], s).value] + FillAll(ps[1..], s).value;
      MatchComplete(ps[0], ts[0], b, s);
      MatchAllComplete(ps[1..], ts[1..], Match(ps[0], ts[0], b).value, s);
    }
  }

  /** The substitutions of a pattern that make it a tree. */
  predicate Instance(p: Tree, t: Tree, s: Binds) {
    CoversWithNodes(s, Holes(p)) && Fill(p, s).Some? && Alike(Fill(p, s).value, t)
  }

  /** A match succeeds exactly when some substitution makes the pattern the tree;
      the bindings found are one such, on the pattern's holes and nothing else,
      and every other agrees with them up to where things were written. */
  lemma MatchExactly(p: Tree, t: Tree)
    requires HoleFree(t)
    ensures Match(p, t, map[]).Some? <==> exists s :: Instance(p, t, s)
    ensures Match(p, t, map[]).Some? ==>
              var b := Match(p, t, map[]).value;
              b.Keys == Holes(p) && Instance(p, t, b)
              && forall s :: Instance(p, t, s) ==> forall h :: h in b ==> Alike(s[h], b[h])
  {
    if Match(p, t, map[]).Some? {
      MatchSound(p, t, map[], Match(p, t, map[]).value);
      assert Instance(p, t, Match(p, t, map[]).value);
    }
    forall s | Instance(p, t, s)
      ensures Match(p, t, map[]).Some?
      ensures forall h :: h in Match(p, t, map[]).value ==> Alike(s[h], Match(p, t, map[]).value[h])
    {
      MatchComplete(p, t, map[], s);
      MatchSound(p, t, map[], Match(p, t, map[]).value);
    }
  }

  /** The dictionary a match fills in as it goes. */
  class Table {
    var binds: Binds

    constructor ()
      ensures binds == map[]
    {
      binds := map[];
    }

    /** `_match_field` */
    method MatchField(p: Tree, t: Tree) returns (ok: bool)
      modifies this
      ensures ok == Match(p, t, old(binds)).Some?
      ensures ok ==> binds == Match(p, t, old(binds)).value
      decreases p, 0
    {
      match p
      case Hole(h, _) =>
        if !IsNode(t) { return false; }
        if h in binds { return Alike(binds[h], t); }
        binds := binds[h := t];
        ok := true;
      case Node(k, x, fs, _) =>
        if !t.Node? || k != t.kind || x != t.name || |fs| != |t.fields| { return false; }
        ok := MatchFields(fs, t.fields);
      case List(ps) =>
        if !IsSeq(t) || |ps| != |t.items| { return false; }
        ok := MatchFields(ps, t.items);
      case Tuple(ps) =>
        if !IsSeq(t) || |ps| != |t.items| { return false; }
        ok := MatchFields(ps, t.items);
      case _ => ok := p == t;
    }

    /** One field after another, stopping at the first that does not match. */
    method MatchFields(ps: seq<Tree>, ts: seq<Tree>) returns (ok: bool)
      requires |ps| == |ts|
      modifies this
      ensures ok == MatchAll(ps, ts, old(binds)).Some?
      ensures ok ==> binds == MatchAll(ps, ts, old(binds)).value
      decreases ps, 0
    {
      var i := 0;
      while i < |ps|
        invariant 0 <= i <= |ps|
        invariant MatchAll(ps[i..], ts[i..], binds) == MatchAll(ps, ts, old(binds))
      {
        assert ps[i..][0] == ps[i] && ps[i..][1..] == ps[i + 1..];
        assert ts[i..][0] == ts[i] && ts[i..][1..] == ts[i + 1..];
        var one := MatchField(ps[i], ts[i]);
        if !one { return false; }
        i := i + 1;
      }
      ok := true;
    }
  }
}
