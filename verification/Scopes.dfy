/** The environment a name is looked up in: frames, and the environment they
    were made inside of (interp/env.py). */
module Scopes {
  import opened Syntax

  /** What a definition said a name holds; it may have said nothing. */
  datatype Decl = Said(typeName: string) | SaidNothing

  type Decls = map<Name, Decl>

  /** The frame nearest the top that has a name is written; the rest are not. */
  function StoreNearest(frames: seq<Frame>, x: Name, v: Value): (r: seq<Frame>)
    ensures |r| == |frames|
  {
    if frames == [] then []
    else
      var top := frames[|frames| - 1];
      if x in top then frames[..|frames| - 1] + [top[x := v]]
      else StoreNearest(frames[..|frames| - 1], x, v) + [top]
  }

  function DeclNearest(frames: seq<Frame>, decls: seq<Decls>, x: Name): Decl
    requires |frames| == |decls|
  {
    if frames == [] then SaidNothing
    else if x in frames[|frames| - 1] then
      if x in decls[|decls| - 1] then decls[|decls| - 1][x] else SaidNothing
    else DeclNearest(frames[..|frames| - 1], decls[..|decls| - 1], x)
  }

  /** An assignment is seen by every later lookup of the name and by no lookup of
      another, and forgets no declaration. */
  lemma {:induction false} StoreIsSeen(frames: seq<Frame>, decls: seq<Decls>, x: Name, v: Value, y: Name)
    requires |frames| == |decls| && LookupFrames(frames, x).Some?
    ensures LookupFrames(StoreNearest(frames, x, v), y) == if y == x then Some(v) else LookupFrames(frames, y)
    ensures DeclNearest(StoreNearest(frames, x, v), decls, y) == DeclNearest(frames, decls, y)
    decreases |frames|
  {
    var n := |frames| - 1;
    var r := StoreNearest(frames, x, v);
    if x in frames[n] {
      assert r[..n] == frames[..n] && r[n] == frames[n][x := v];
    } else {
      StoreIsSeen(frames[..n], decls[..n], x, v, y);
      assert r[..n] == StoreNearest(frames[..n], x, v) && r[n] == frames[n];
    }
  }


  /** Looking through one stack set on another is looking through the upper and
      then the lower. */
  lemma {:induction false} LookupJoined(lower: seq<Frame>, upper: seq<Frame>, x: Name)
    ensures LookupFrames(lower + upper, x) ==
            if LookupFrames(upper, x).Some? then LookupFrames(upper, x) else LookupFrames(lower, x)
    decreases |upper|
  {
    if upper == [] {
      assert lower + upper == lower;
    } else {
      var n := |upper| - 1;
      assert (lower + upper)[|lower| + n] == upper[n] && (lower + upper)[..|lower| + n] == lower + upper[..n];
      LookupJoined(lower, upper[..n], x);
    }
  }

  lemma {:induction false} StoreJoined(lower: seq<Frame>, upper: seq<Frame>, x: Name, v: Value)
    ensures StoreNearest(lower + upper, x, v) ==
            if LookupFrames(upper, x).Some? then lower + StoreNearest(upper, x, v)
            else StoreNearest(lower, x, v) + upper
    decreases |upper|
  {
    if upper == [] {
      assert lower + upper == lower && StoreNearest(lower, x, v) + upper == StoreNearest(lower, x, v);
    } else {
      var n := |upper| - 1;
      assert (lower + upper)[|lower| + n] == upper[n] && (lower + upper)[..|lower| + n] == lower + upper[..n];
      assert upper == upper[..n] + [upper[n]];
      StoreJoined(lower, upper[..n], x, v);
    }
  }

  lemma {:induction false} DeclJoined(lower: seq<Frame>, upper: seq<Frame>, lowerDecls: seq<Decls>,
                                      upperDecls: seq<Decls>, x: Name)
    requires |lower| == |lowerDecls| && |upper| == |upperDecls|
    ensures DeclNearest(lower + upper, lowerDecls + upperDecls, x) ==
            if LookupFrames(upper, x).Some? then DeclNearest(upper, upperDecls, x)
            else DeclNearest(lower, lowerDecls, x)
    decreases |upper|
  {
    if upper == [] {
      assert lower + upper == lower && lowerDecls + upperDecls == lowerDecls;
    } else {
      var n := |upper| - 1;
      assert (lower + upper)[|lower| + n] == upper[n] && (lower + upper)[..|lower| + n] == lower + upper[..n];
      assert (lowerDecls + upperDecls)[|lower| + n] == upperDecls[n];
      assert (lowerDecls + upperDecls)[..|lower| + n] == lowerDecls + upperDecls[..n];
      DeclJoined(lower, upper[..n], lowerDecls, upperDecls[..n], x);
    }
  }

  /** Which frame the three readings of a stack come to. */
  lemma {:induction false} FoundAt(frames: seq<Frame>, decls: seq<Decls>, x: Name, v: Value, k: nat)
    requires |frames| == |decls| && k < |frames| && x in frames[k] && x in decls[k]
    requires forall j :: k < j < |frames| ==> x !in frames[j]
    ensures LookupFrames(frames, x) == Some(frames[k][x]) && DeclNearest(frames, decls, x) == decls[k][x]
    ensures StoreNearest(frames, x, v) == frames[k := frames[k][x := v]]
    decreases |frames|
  {
    var n := |frames| - 1;
    if k < n { FoundAt(frames[..n], decls[..n], x, v, k); }
  }

  lemma {:induction false} FoundNowhere(frames: seq<Frame>, x: Name)
    requires forall j :: 0 <= j < |frames| ==> x !in frames[j]
    ensures LookupFrames(frames, x).None?
    decreases |frames|
  {
    if frames != [] { FoundNowhere(frames[..|frames| - 1], x); }
  }

  lemma ReplaceLast<T>(a: seq<T>, b: seq<T>, y: T)
    requires b != []
    ensures (a + b)[|a + b| - 1 := y] == a + b[|b| - 1 := y] && (a + b)[|a + b| - 1] == b[|b| - 1]
  {}

  lemma NothingBelow(x: Name, v: Value)
    ensures LookupFrames([], x).None? && StoreNearest([], x, v) == []
  {}

  lemma NothingDeclared(x: Name)
    ensures DeclNearest([], [], x) == SaidNothing
  {}

  lemma DropLast<T>(a: seq<T>, b: seq<T>)
    requires b != []
    ensures (a + b)[..|a + b| - 1] == a + b[..|b| - 1]
  {}

  class Env {
    var frames: seq<Frame>
    var decls: seq<Decls>
    const parent: Env?
    ghost const Repr: set<Env>

    constructor (parent: Env?)
      requires parent != null ==> parent.Valid()
      ensures Valid() && this.parent == parent && fresh(Repr - (if parent == null then {} else parent.Repr))
      ensures Stack() == (if parent == null then [] else parent.Stack()) + [map[]]
    {
      frames, decls := [map[]], [map[]];
      this.parent := parent;
      Repr := {this} + if parent == null then {} else parent.Repr;
    }

    /** One declaration for every binding, as long as the binding is. */
    ghost predicate Valid()
      reads this, Repr
      decreases Repr
    {
      this in Repr && |frames| == |decls| > 0 && (forall k :: 0 <= k < |frames| ==> frames[k].Keys == decls[k].Keys) &&
      (parent == null ==> Repr == {this}) &&
      (parent != null ==> parent.Repr == Repr - {this} && parent in Repr && parent.Valid())
    }

    /** The frames of the environments this one was made in. */
    ghost function Below(): seq<Frame>
      requires Valid()
      reads this, Repr
      decreases Repr, 0
    {
      if parent == null then [] else parent.Stack()
    }

    ghost function BelowDecls(): (r: seq<Decls>)
      requires Valid()
      reads this, Repr
      decreases Repr, 0
      ensures |r| == |Below()|
    {
      if parent == null then [] else parent.DeclStack()
    }

    /** Every frame a lookup goes through, the innermost last. */
    ghost function Stack(): seq<Frame>
      requires Valid()
      reads this, Repr
      decreases Repr, 1
    {
      Below() + frames
    }

    ghost function DeclStack(): (r: seq<Decls>)
      requires Valid()
      reads this, Repr
      decreases Repr, 1
      ensures |r| == |Stack()|
    {
      BelowDecls() + decls
    }

    method PushFrame()
      requires Valid()
      modifies this
      ensures Valid() && Stack() == old(Stack()) + [map[]] && DeclStack() == old(DeclStack()) + [map[]]
    {
      hide LookupFrames, StoreNearest, DeclNearest, Below, BelowDecls;
      ValidHere();
      SetOwn(frames + [map[]], decls + [map[]]);
    }

    /** Taking a frame off gives back what was there before it was put on. */
    method PopFrame() returns (popped: bool)
      requires Valid()
      modifies this
      ensures Valid() && popped == (|old(frames)| > 1)
      ensures popped ==> Stack() == old(Stack())[..|old(Stack())| - 1]
      ensures popped ==> DeclStack() == old(DeclStack())[..|old(DeclStack())| - 1]
      ensures !popped ==> Stack() == old(Stack()) && DeclStack() == old(DeclStack())
    {
      hide LookupFrames, StoreNearest, DeclNearest, Below, BelowDecls;
      if |frames| <= 1 { return false; }
      ValidHere();
      DropLast(Below(), frames);
      DropLast(BelowDecls(), decls);
      SetOwn(frames[..|frames| - 1], decls[..|decls| - 1]);
      popped := true;
    }

    /** A definition says afresh what the name holds, in the innermost frame. */
    method Define(x: Name, v: Value, d: Decl)
      requires Valid()
      modifies this
      ensures Valid() && |Stack()| == |old(Stack())| > 0
      ensures Stack() == old(Stack())[|old(Stack())| - 1 := old(Stack())[|old(Stack())| - 1][x := v]]
      ensures DeclStack()
              == old(DeclStack())[|old(DeclStack())| - 1 := old(DeclStack())[|old(DeclStack())| - 1][x := d]]
    {
      hide LookupFrames, StoreNearest, DeclNearest, Below, BelowDecls;
      ValidHere();
      var n := |frames| - 1;
      ReplaceLast(Below(), frames, frames[n][x := v]);
      ReplaceLast(BelowDecls(), decls, decls[n][x := d]);
      SetOwn(frames[n := frames[n][x := v]], decls[n := decls[n][x := d]]);
    }

    lemma StackIs()
      requires Valid()
      ensures Stack() == Below() + frames && DeclStack() == BelowDecls() + decls
      ensures parent == null ==> Below() == [] && BelowDecls() == []
      ensures parent != null ==> parent.Valid() && Below() == parent.Stack() && BelowDecls() == parent.DeclStack()
    {}

    /** The frames of this environment's own are replaced, those below it left. */
    method SetOwn(fs: seq<Frame>, ds: seq<Decls>)
      requires Valid() && |fs| == |ds| > 0 && forall k :: 0 <= k < |fs| ==> fs[k].Keys == ds[k].Keys
      modifies this
      ensures Valid() && frames == fs && decls == ds
      ensures Below() == old(Below()) && BelowDecls() == old(BelowDecls())
    {
      frames, decls := fs, ds;
    }

    lemma ValidHere()
      requires Valid()
      ensures |frames| == |decls| > 0 && forall k :: 0 <= k < |frames| ==> frames[k].Keys == decls[k].Keys
    {}

    /** The frame of this environment's own that has a name, from the top. */
    method Own(x: Name) returns (k: int)
      requires Valid()
      ensures -1 <= k < |frames| && forall j :: k < j < |frames| ==> x !in frames[j]
      ensures k >= 0 ==> x in frames[k] && x in decls[k]
    {
      hide Valid;
      ValidHere();
      k := |frames| - 1;
      while k >= 0 && x !in frames[k]
        invariant -1 <= k < |frames| && forall j :: k < j < |frames| ==> x !in frames[j]
      {
        k := k - 1;
      }
      assert k >= 0 ==> x in frames[k].Keys;
    }

    /** `lookup` */
    method Lookup(x: Name) returns (r: Option<Value>)
      requires Valid()
      ensures r == LookupFrames(Stack(), x)
      decreases Repr
    {
      hide LookupFrames;
      var k := Own(x);
      StackIs();
      LookupJoined(Below(), frames, x);
      if k >= 0 {
        FoundAt(frames, decls, x, frames[k][x], k);
        return Some(frames[k][x]);
      }
      FoundNowhere(frames, x);
      NothingBelow(x, NoneV);
      if parent == null { return None; }
      r := parent.Lookup(x);
    }

    /** `declaration` */
    method Declaration(x: Name) returns (d: Decl)
      requires Valid()
      ensures d == DeclNearest(Stack(), DeclStack(), x)
      decreases Repr
    {
      hide LookupFrames, StoreNearest, DeclNearest;
      var k := Own(x);
      StackIs();
      DeclJoined(Below(), frames, BelowDecls(), decls, x);
      if k >= 0 {
        FoundAt(frames, decls, x, frames[k][x], k);
        return decls[k][x];
      }
      FoundNowhere(frames, x);
      NothingDeclared(x);
      if parent == null { return SaidNothing; }
      d := parent.Declaration(x);
    }

    /** `update`: the nearest frame that has the name takes the value, here or in
        the environment this one was made in, and its declaration stands. */
    method Update(x: Name, v: Value) returns (found: bool)
      requires Valid()
      modifies Repr
      ensures Valid() && found == LookupFrames(old(Stack()), x).Some?
      ensures Stack() == StoreNearest(old(Stack()), x, v) && DeclStack() == old(DeclStack())
      decreases Repr, 1
    {
      hide LookupFrames, StoreNearest, DeclNearest, Below, BelowDecls;
      var k := Own(x);
      StackIs();
      ValidHere();
      LookupJoined(Below(), frames, x);
      StoreJoined(Below(), frames, x, v);
      if k >= 0 {
        FoundAt(frames, decls, x, v, k);
        SetOwn(frames[k := frames[k][x := v]], decls);
        return true;
      }
      FoundNowhere(frames, x);
      NothingBelow(x, v);
      if parent == null { return false; }
      found := UpdateParent(x, v);
    }

    method UpdateParent(x: Name, v: Value) returns (found: bool)
      requires Valid() && parent != null
      modifies Repr
      ensures Valid() && found == LookupFrames(old(Below()), x).Some? && frames == old(frames)
      ensures Below() == StoreNearest(old(Below()), x, v) && DeclStack() == old(DeclStack())
      decreases Repr, 0
    {
      hide LookupFrames, StoreNearest, DeclNearest;
      found := parent.Update(x, v);
    }
  }
}
