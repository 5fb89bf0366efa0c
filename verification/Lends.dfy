/** Who has lent what to whom, and until when (interp/eval.py). */
module Lends {
  /** What holds a name from being changed; the lends are two of several. */
  datatype Hold = Lent | LentMut | OtherHold(kind: string)

  type ObjectId = nat

  /** A borrowed answer bound to a name: what it was borrowed from, and the
      object it is. */
  datatype Lend = Lend(name: string, origins: seq<string>, obj: ObjectId, mutable: bool)

  /** The lends to be ended at each statement. */
  type Ends = map<nat, seq<Lend>>

  /** How an origin of a lend is held. */
  function MarkOf(rec: Lend): Hold { if rec.mutable then LentMut else Lent }

  /** Nothing is held that was not, nor otherwise, and only lends are let go. */
  predicate OnlyReleased(before: map<string, Hold>, after: map<string, Hold>) {
    (forall x :: x in after ==> x in before && after[x] == before[x]) &&
    forall x :: x in before && x !in after ==> IsLent(before, x)
  }

  predicate IsLent(frozen: map<string, Hold>, x: string) { x in frozen && (frozen[x].Lent? || frozen[x].LentMut?) }

  /** Some live lend lists the name as an origin. */
  ghost predicate Holds(ends: Ends, x: string) {
    exists s, k :: s in ends && 0 <= k < |ends[s]| && x in ends[s][k].origins
  }

  /** Some live lend holds the object. */
  ghost predicate Lends(ends: Ends, obj: ObjectId) {
    exists s, k :: s in ends && 0 <= k < |ends[s]| && ends[s][k].obj == obj
  }

  /** Some of a run of lends lists the name. */
  predicate Listed(recs: seq<Lend>, x: string) { exists k :: 0 <= k < |recs| && x in recs[k].origins }

  predicate Handed(recs: seq<Lend>, obj: ObjectId) { exists k :: 0 <= k < |recs| && recs[k].obj == obj }

  /** The marks and the ledger say the same: a name is marked lent exactly when
      some live lend lists it, an object exactly when some live lend holds it. */
  ghost predicate Agrees(frozen: map<string, Hold>, info: set<string>, objs: set<ObjectId>, ends: Ends) {
    (forall x :: IsLent(frozen, x) <==> Holds(ends, x)) &&
    (forall x :: x in info <==> Holds(ends, x)) &&
    forall o :: o in objs <==> Lends(ends, o)
  }

  /** `setdefault(until, []).append(rec)` */
  function Added(ends: Ends, until: nat, rec: Lend): Ends {
    ends[until := (if until in ends then ends[until] else []) + [rec]]
  }

  lemma AddedHolds(ends: Ends, until: nat, rec: Lend, x: string)
    ensures Holds(Added(ends, until, rec), x) <==> Holds(ends, x) || x in rec.origins
  {
    var after := Added(ends, until, rec);
    var was := if until in ends then ends[until] else [];
    assert after[until][|was|] == rec;
    if Holds(ends, x) {
      var s, k :| s in ends && 0 <= k < |ends[s]| && x in ends[s][k].origins;
      assert x in after[s][k].origins;
    }
    if Holds(after, x) {
      var s, k :| s in after && 0 <= k < |after[s]| && x in after[s][k].origins;
      if s != until || k < |was| { assert x in ends[s][k].origins; }
    }
  }

  lemma AddedLends(ends: Ends, until: nat, rec: Lend, o: ObjectId)
    ensures Lends(Added(ends, until, rec), o) <==> Lends(ends, o) || o == rec.obj
  {
    var after := Added(ends, until, rec);
    var was := if until in ends then ends[until] else [];
    assert after[until][|was|] == rec;
    if Lends(ends, o) {
      var s, k :| s in ends && 0 <= k < |ends[s]| && ends[s][k].obj == o;
      assert after[s][k].obj == o;
    }
    if Lends(after, o) {
      var s, k :| s in after && 0 <= k < |after[s]| && after[s][k].obj == o;
      if s != until || k < |was| { assert ends[s][k].obj == o; }
    }
  }

  /** `pop(stmt, ())` */
  function Due(ends: Ends, stmt: nat): seq<Lend> { if stmt in ends then ends[stmt] else [] }

  lemma PopSplits(ends: Ends, stmt: nat)
    ensures forall x :: Holds(ends, x) <==> Holds(ends - {stmt}, x) || Listed(Due(ends, stmt), x)
    ensures forall o :: Lends(ends, o) <==> Lends(ends - {stmt}, o) || Handed(Due(ends, stmt), o)
  {
    var rest := ends - {stmt};
    forall x ensures Holds(ends, x) <==> Holds(rest, x) || Listed(Due(ends, stmt), x) {
      if Holds(ends, x) {
        var s, k :| s in ends && 0 <= k < |ends[s]| && x in ends[s][k].origins;
        if s != stmt { assert s in rest && x in rest[s][k].origins; }
      }
      if Holds(rest, x) {
        var s, k :| s in rest && 0 <= k < |rest[s]| && x in rest[s][k].origins;
        assert x in ends[s][k].origins;
      }
      if Listed(Due(ends, stmt), x) {
        var k :| 0 <= k < |Due(ends, stmt)| && x in Due(ends, stmt)[k].origins;
        assert x in ends[stmt][k].origins;
      }
    }
    forall o ensures Lends(ends, o) <==> Lends(rest, o) || Handed(Due(ends, stmt), o) {
      if Lends(ends, o) {
        var s, k :| s in ends && 0 <= k < |ends[s]| && ends[s][k].obj == o;
        if s != stmt { assert s in rest && rest[s][k].obj == o; }
      }
      if Lends(rest, o) {
        var s, k :| s in rest && 0 <= k < |rest[s]| && rest[s][k].obj == o;
        assert ends[s][k].obj == o;
      }
      if Handed(Due(ends, stmt), o) {
        var k :| 0 <= k < |Due(ends, stmt)| && Due(ends, stmt)[k].obj == o;
        assert ends[stmt][k].obj == o;
      }
    }
  }

  /** The ledger of one frame. */
  class Ledger {
    var frozen: map<string, Hold>
    var info: set<string>
    var ends: Ends
    var objs: set<ObjectId>

    constructor ()
      ensures Valid() && ends == map[] && frozen == map[]
    {
      frozen, info, ends, objs := map[], {}, map[], {};
    }

    ghost predicate Valid()
      reads this
    {
      Agrees(frozen, info, objs, ends)
    }

    /** `_start_lend` */
    method StartLend(rec: Lend, until: nat)
      requires Valid()
      modifies this
      ensures Valid() && ends == Added(old(ends), until, rec)
      ensures forall x :: IsLent(frozen, x) <==> old(IsLent(frozen, x)) || x in rec.origins
      ensures frozen.Keys == old(frozen).Keys + set x | x in rec.origins
      ensures forall x :: x in frozen ==> frozen[x] == if x in rec.origins then MarkOf(rec) else old(frozen)[x]
    {
      hide Holds, Lends, Added;
      ghost var frozen0, info0, objs0 := frozen, info, objs;
      for i := 0 to |rec.origins|
        invariant ends == old(ends) && objs == old(objs)
        invariant forall x :: IsLent(frozen, x) <==> IsLent(frozen0, x) || x in rec.origins[..i]
        invariant forall x :: x in info <==> x in info0 || x in rec.origins[..i]
        invariant forall x :: x in frozen <==> x in frozen0 || x in rec.origins[..i]
        invariant forall x :: x in frozen ==> frozen[x] == if x in rec.origins[..i] then MarkOf(rec) else frozen0[x]
      {
        var origin := rec.origins[i];
        assert rec.origins[..i + 1] == rec.origins[..i] + [origin];
        frozen := frozen[origin := if rec.mutable then LentMut else Lent];
        info := info + {origin};
      }
      assert rec.origins[..|rec.origins|] == rec.origins;
      ends := Added(ends, until, rec);
      objs := objs + {rec.obj};
      forall x ensures Holds(ends, x) <==> Holds(old(ends), x) || x in rec.origins {
        AddedHolds(old(ends), until, rec, x);
      }
      forall o ensures Lends(ends, o) <==> Lends(old(ends), o) || o == rec.obj { AddedLends(old(ends), until, rec, o); }
    }

    /** `_end_lend`: what another live lend still lists stays marked, and the
        object while any live lend has it. */
    method EndLend(rec: Lend)
      modifies this`frozen, this`info, this`objs
      ensures forall x :: IsLent(frozen, x) <==> old(IsLent(frozen, x)) && (x in rec.origins ==> Holds(ends, x))
      ensures forall x :: x in info <==> x in old(info) && (x in rec.origins ==> Holds(ends, x))
      ensures forall o :: o in objs <==> o in old(objs) && (o == rec.obj ==> Lends(ends, o))
      ensures OnlyReleased(old(frozen), frozen)
    {
      hide Lends;
      ghost var frozen0, info0 := frozen, info;
      for i := 0 to |rec.origins|
        invariant objs == old(objs)
        invariant forall x :: IsLent(frozen, x) <==> IsLent(frozen0, x) && (x in rec.origins[..i] ==> Holds(ends, x))
        invariant forall x :: x in info <==> x in info0 && (x in rec.origins[..i] ==> Holds(ends, x))
        invariant OnlyReleased(frozen0, frozen)
      {
        var origin := rec.origins[i];
        assert rec.origins[..i + 1] == rec.origins[..i] + [origin];
        var still := StillHeld(origin);
        if !still {
          if origin in frozen && (frozen[origin].Lent? || frozen[origin].LentMut?) { frozen := frozen - {origin}; }
          info := info - {origin};
        }
      }
      assert rec.origins[..|rec.origins|] == rec.origins;
      var lent := StillLent(rec.obj);
      if !lent { objs := objs - {rec.obj}; }
    }

    /** Whether any live lend lists a name ... */
    method StillHeld(x: string) returns (b: bool)
      ensures b <==> Holds(ends, x)
    {
      var keys := ends.Keys;
      while keys != {}
        invariant keys <= ends.Keys
        invariant forall s, k :: s in ends && s !in keys && 0 <= k < |ends[s]| ==> x !in ends[s][k].origins
        decreases |keys|
      {
        var s :| s in keys;
        for k := 0 to |ends[s]|
          invariant forall j :: 0 <= j < k ==> x !in ends[s][j].origins
        {
          if x in ends[s][k].origins { return true; }
        }
        keys := keys - {s};
      }
      return false;
    }

    /** ... or has an object. */
    method StillLent(o: ObjectId) returns (b: bool)
      ensures b <==> Lends(ends, o)
    {
      var keys := ends.Keys;
      while keys != {}
        invariant keys <= ends.Keys
        invariant forall s, k :: s in ends && s !in keys && 0 <= k < |ends[s]| ==> ends[s][k].obj != o
        decreases |keys|
      {
        var s :| s in keys;
        for k := 0 to |ends[s]|
          invariant forall j :: 0 <= j < k ==> ends[s][j].obj != o
        {
          if ends[s][k].obj == o { return true; }
        }
        keys := keys - {s};
      }
      return false;
    }

    /** `_c_end_lends`: everything due at a statement ends there. */
    method EndLends(stmt: nat)
      requires Valid()
      modifies this
      ensures Valid() && ends == old(ends) - {stmt} && OnlyReleased(old(frozen), frozen)
    {
      hide Holds, Lends, Listed, Handed;
      var due := Due(ends, stmt);
      PopSplits(ends, stmt);
      ends := ends - {stmt};
      ghost var rest := ends;
      AllListed(due);
      for i := 0 to |due|
        invariant ends == rest && OnlyReleased(old(frozen), frozen)
        invariant forall x :: IsLent(frozen, x) <==> Holds(rest, x) || (Listed(due, x) && !Listed(due[..i], x))
        invariant forall x :: x in info <==> Holds(rest, x) || (Listed(due, x) && !Listed(due[..i], x))
        invariant forall o :: o in objs <==> Lends(rest, o) || (Handed(due, o) && !Handed(due[..i], o))
      {
        OneMoreListed(due, i);
        EndLend(due[i]);
      }
      assert due[..|due|] == due;
    }

    lemma AllListed(due: seq<Lend>)
      ensures forall x :: !Listed(due[..0], x)
      ensures forall o :: !Handed(due[..0], o)
    {}

    lemma OneMoreListed(due: seq<Lend>, i: nat)
      requires i < |due|
      ensures forall x :: Listed(due[..i + 1], x) <==> Listed(due[..i], x) || x in due[i].origins
      ensures forall o :: Handed(due[..i + 1], o) <==> Handed(due[..i], o) || o == due[i].obj
    {
      forall x ensures Listed(due[..i + 1], x) <==> Listed(due[..i], x) || x in due[i].origins {
        if Listed(due[..i], x) {
          var k :| 0 <= k < i && x in due[..i][k].origins;
          assert x in due[..i + 1][k].origins;
        }
        if x in due[i].origins { assert x in due[..i + 1][i].origins; }
        if Listed(due[..i + 1], x) {
          var k :| 0 <= k < i + 1 && x in due[..i + 1][k].origins;
          if k < i { assert x in due[..i][k].origins; }
        }
      }
      forall o ensures Handed(due[..i + 1], o) <==> Handed(due[..i], o) || o == due[i].obj {
        if Handed(due[..i], o) {
          var k :| 0 <= k < i && due[..i][k].obj == o;
          assert due[..i + 1][k].obj == o;
        }
        if o == due[i].obj { assert due[..i + 1][i].obj == o; }
        if Handed(due[..i + 1], o) {
          var k :| 0 <= k < i + 1 && due[..i + 1][k].obj == o;
          if k < i { assert due[..i][k].obj == o; }
        }
      }
    }
  }

  // ---- a straight-line block ------------------------------------------------------------

  /** A statement: the names it reads, and the borrowed answer it binds, if any. */
  datatype Stmt = Plain(uses: set<string>) | Borrows(uses: set<string>, lend: Lend)

  /** `_block_info`'s `last`: the statement a name is last read in. */
  function LastRead(b: seq<Stmt>, x: string): (k: int)
    ensures -1 <= k < |b|
  {
    if b == [] then -1
    else if x in b[|b| - 1].uses then |b| - 1
    else LastRead(b[..|b| - 1], x)
  }

  lemma {:induction false} LastReadIsLast(b: seq<Stmt>, x: string)
    ensures var k := LastRead(b, x);
            (k >= 0 ==> x in b[k].uses) && forall i :: k < i < |b| ==> x !in b[i].uses
  {
    if b != [] && x !in b[|b| - 1].uses {
      LastReadIsLast(b[..|b| - 1], x);
      assert forall i :: 0 <= i < |b| - 1 ==> b[..|b| - 1][i] == b[i];
    }
  }

  /** The statement a lend begun at statement `i` is due at: its borrower's last
      read, or the binding itself where there is none. */
  function Until(b: seq<Stmt>, i: nat): nat
    requires i < |b| && b[i].Borrows?
  {
    if LastRead(b, b[i].lend.name) < 0 then i else LastRead(b, b[i].lend.name)
  }

  /** A lend begun at statement `i` is out once statements up to `n` have run. */
  predicate StillOut(b: seq<Stmt>, i: nat, n: nat) {
    i < n <= |b| && b[i].Borrows? && (Until(b, i) >= n || Until(b, i) < i)
  }

  predicate InLedger(ends: Ends, s: nat, r: Lend) { s in ends && r in ends[s] }

  predicate Begun(b: seq<Stmt>, i: nat, n: nat, s: nat, r: Lend) {
    StillOut(b, i, n) && Until(b, i) == s && b[i].lend == r
  }

  ghost predicate Accounted(b: seq<Stmt>, n: nat, s: nat, r: Lend) {
    exists i :: 0 <= i < n && Begun(b, i, n, s, r)
  }

  /** The ledger after the first `n` statements: the lends still out, each under
      the statement it is due at. */
  ghost predicate Ledgered(b: seq<Stmt>, n: nat, ends: Ends) {
    forall s, r :: InLedger(ends, s, r) <==> Accounted(b, n, s, r)
  }

  /** What one statement does to the ledger. */
  function AfterOne(b: seq<Stmt>, n: nat, ends: Ends): Ends
    requires n < |b|
  {
    (if b[n].Borrows? then Added(ends, Until(b, n), b[n].lend) else ends) - {n}
  }

  lemma InAfterOne(b: seq<Stmt>, n: nat, ends: Ends, s: nat, r: Lend)
    requires n < |b|
    ensures InLedger(AfterOne(b, n, ends), s, r) <==>
            s != n && (InLedger(ends, s, r) || (b[n].Borrows? && s == Until(b, n) && r == b[n].lend))
  {
    hide LastRead;
    if b[n].Borrows? {
      var u, rec := Until(b, n), b[n].lend;
      var was := if u in ends then ends[u] else [];
      assert rec in was + [rec];
      assert r in was + [rec] <==> r in was || r == rec;
    }
  }

  lemma AccountedNext(b: seq<Stmt>, n: nat, s: nat, r: Lend)
    requires n < |b|
    ensures Accounted(b, n + 1, s, r) <==>
            s != n && (Accounted(b, n, s, r) || (b[n].Borrows? && s == Until(b, n) && r == b[n].lend))
  {
    hide LastRead;
    if Accounted(b, n + 1, s, r) {
      var i :| 0 <= i < n + 1 && Begun(b, i, n + 1, s, r);
      if i < n { assert Begun(b, i, n, s, r); }
    }
    if s != n && Accounted(b, n, s, r) {
      var i :| 0 <= i < n && Begun(b, i, n, s, r);
      assert Begun(b, i, n + 1, s, r);
    }
    if s != n && b[n].Borrows? && s == Until(b, n) && r == b[n].lend {
      assert Begun(b, n, n + 1, s, r);
    }
  }

  lemma LedgeredNext(b: seq<Stmt>, n: nat, ends: Ends)
    requires n < |b| && Ledgered(b, n, ends)
    ensures Ledgered(b, n + 1, AfterOne(b, n, ends))
  {
    hide InLedger, Accounted, AfterOne, Until;
    forall s, r ensures InLedger(AfterOne(b, n, ends), s, r) <==> Accounted(b, n + 1, s, r) {
      InAfterOne(b, n, ends, s, r);
      AccountedNext(b, n, s, r);
    }
  }

  lemma LedgeredStart(b: seq<Stmt>)
    ensures Ledgered(b, 0, map[])
  {}

  /** Some lend still out lists the name. */
  ghost predicate OutFrom(b: seq<Stmt>, n: nat, x: string) {
    exists i :: 0 <= i < n && Lists(b, i, n, x)
  }

  predicate Lists(b: seq<Stmt>, i: nat, n: nat, x: string) { StillOut(b, i, n) && x in b[i].lend.origins }

  /** What the ledger holds is what is still out. */
  lemma LedgerHolds(b: seq<Stmt>, n: nat, ends: Ends, x: string)
    requires Ledgered(b, n, ends)
    ensures Holds(ends, x) <==> OutFrom(b, n, x)
  {
    hide LastRead;
    if Holds(ends, x) {
      var s, k :| s in ends && 0 <= k < |ends[s]| && x in ends[s][k].origins;
      assert InLedger(ends, s, ends[s][k]);
      var i :| 0 <= i < n && Begun(b, i, n, s, ends[s][k]);
      assert Lists(b, i, n, x);
    }
    if OutFrom(b, n, x) {
      var i :| 0 <= i < n && Lists(b, i, n, x);
      assert Begun(b, i, n, Until(b, i), b[i].lend);
      assert InLedger(ends, Until(b, i), b[i].lend);
      var k :| 0 <= k < |ends[Until(b, i)]| && ends[Until(b, i)][k] == b[i].lend;
      assert x in ends[Until(b, i)][k].origins;
    }
  }

  /** What statement i borrows from x is still wanted before statement n: a later
      one reads the borrower -- or it was read before i, and by nothing since. */
  predicate Wanted(b: seq<Stmt>, i: nat, n: nat, x: string) {
    i < n <= |b| && b[i].Borrows? && x in b[i].lend.origins &&
    var y := b[i].lend.name;
    ((exists k :: n <= k < |b| && y in b[k].uses) ||
     ((exists k :: 0 <= k < i && y in b[k].uses) && forall k :: i <= k < |b| ==> y !in b[k].uses))
  }

  lemma ListsExactly(b: seq<Stmt>, i: nat, n: nat, x: string)
    ensures Lists(b, i, n, x) <==> Wanted(b, i, n, x)
  {
    if i < n <= |b| && b[i].Borrows? {
      hide LastRead;
      LastReadIsLast(b, b[i].lend.name);
    }
  }

  /** What is out is what is wanted. */
  lemma OutExactly(b: seq<Stmt>, n: nat, x: string)
    requires n <= |b|
    ensures OutFrom(b, n, x) <==> exists i :: 0 <= i < n && Wanted(b, i, n, x)
  {
    hide Lists, Wanted;
    if OutFrom(b, n, x) {
      var i :| 0 <= i < n && Lists(b, i, n, x);
      ListsExactly(b, i, n, x);
    }
    if i :| 0 <= i < n && Wanted(b, i, n, x) { ListsExactly(b, i, n, x); }
  }

  /** Statement i is the last before n that borrows from x. */
  predicate LastBorrowed(b: seq<Stmt>, i: nat, n: nat, x: string) {
    i < n <= |b| && b[i].Borrows? && x in b[i].lend.origins &&
    forall j :: i < j < n && b[j].Borrows? ==> x !in b[j].lend.origins
  }

  /** A mark is as the last to borrow from the name made it. */
  ghost predicate MarkedByLast(b: seq<Stmt>, n: nat, frozen: map<string, Hold>) {
    forall i: nat, x :: LastBorrowed(b, i, n, x) && x in frozen ==> frozen[x] == MarkOf(b[i].lend)
  }

  lemma NoMarks(b: seq<Stmt>)
    ensures MarkedByLast(b, 0, map[])
  {}

  lemma MarkedNext(b: seq<Stmt>, n: nat, before: map<string, Hold>, after: map<string, Hold>)
    requires n < |b| && MarkedByLast(b, n, before)
    requires forall x :: x in after ==>
               if b[n].Borrows? && x in b[n].lend.origins then after[x] == MarkOf(b[n].lend)
               else x in before && after[x] == before[x]
    ensures MarkedByLast(b, n + 1, after)
  {
    forall i: nat, x | LastBorrowed(b, i, n + 1, x) && x in after ensures after[x] == MarkOf(b[i].lend) {
      assert if b[n].Borrows? && x in b[n].lend.origins then i == n else LastBorrowed(b, i, n, x);
    }
  }

  /** Running the first `n` statements of a block: at every boundary a name is
      marked lent exactly when some borrower of it is still wanted, and as the
      last to borrow from it did. */
  method RunBlock(b: seq<Stmt>, n: nat) returns (ledger: Ledger)
    requires n <= |b|
    ensures ledger.Valid()
    ensures forall x :: IsLent(ledger.frozen, x) <==> exists i :: 0 <= i < n && Wanted(b, i, n, x)
    ensures MarkedByLast(b, n, ledger.frozen)
  {
    hide Ledgered, StillOut, Added, Agrees, OutFrom, Wanted, MarkedByLast;
    ledger := new Ledger();
    LedgeredStart(b);
    assert MarkedByLast(b, 0, map[]) by { NoMarks(b); }
    for i := 0 to n
      invariant fresh(ledger) && ledger.Valid() && Ledgered(b, i, ledger.ends)
      invariant MarkedByLast(b, i, ledger.frozen)
    {
      ghost var before := ledger.frozen;
      LedgeredNext(b, i, ledger.ends);
      if b[i].Borrows? { ledger.StartLend(b[i].lend, Until(b, i)); }
      ledger.EndLends(i);
      MarkedNext(b, i, before, ledger.frozen);
    }
    forall x ensures IsLent(ledger.frozen, x) <==> exists i :: 0 <= i < n && Wanted(b, i, n, x) {
      OutExactly(b, n, x);
      LedgerHolds(b, n, ledger.ends, x);
      MarkIsHeld(ledger, x);
    }
  }

  lemma MarkIsHeld(ledger: Ledger, x: string)
    requires ledger.Valid()
    ensures IsLent(ledger.frozen, x) <==> Holds(ledger.ends, x)
  {}

  /** Whenever a later statement reads the borrower, the lend is still out when
      that statement begins. */
  lemma ReadersFindItOut(b: seq<Stmt>, i: nat, k: nat)
    requires i < k < |b| && b[i].Borrows? && b[i].lend.name in b[k].uses
    ensures StillOut(b, i, k)
  {
    LastReadIsLast(b, b[i].lend.name);
  }

  /** A lend comes back within its block exactly when its borrower is not last
      read before it is bound; it then comes back at the borrower's last read. */
  lemma ComesBackExactly(b: seq<Stmt>, i: nat)
    requires i < |b| && b[i].Borrows?
    ensures !StillOut(b, i, |b|) <==> !ReadTooSoon(b, i)
    ensures i <= Until(b, i) ==> forall n :: i < n <= |b| ==> (StillOut(b, i, n) <==> n <= Until(b, i))
  {}

  /** The borrower bound at i is read, and last read before it is bound. */
  predicate ReadTooSoon(b: seq<Stmt>, i: nat) {
    i < |b| && b[i].Borrows? && 0 <= LastRead(b, b[i].lend.name) < i
  }

  /** When the block is done a name is still lent exactly where some lend that
      lists it has a borrower last read before it was bound. */
  lemma StaysLentExactly(b: seq<Stmt>, x: string)
    ensures OutFrom(b, |b|, x) <==> exists i :: 0 <= i < |b| && ReadTooSoon(b, i) && x in b[i].lend.origins
  {
    hide LastRead;
    if OutFrom(b, |b|, x) {
      var i :| 0 <= i < |b| && Lists(b, i, |b|, x);
      ComesBackExactly(b, i);
      assert ReadTooSoon(b, i);
    }
    if i :| 0 <= i < |b| && ReadTooSoon(b, i) && x in b[i].lend.origins {
      ComesBackExactly(b, i);
      assert Lists(b, i, |b|, x);
    }
  }

  /** A statement that reads an old `y`, then a lend of `x` to a new `y` nothing
      reads: `x` stays lent. */
  lemma LentForGood(obj: ObjectId)
    ensures OutFrom([Plain({"y"}), Borrows({}, Lend("y", ["x"], obj, false))], 2, "x")
  {
    var b := [Plain({"y"}), Borrows({}, Lend("y", ["x"], obj, false))];
    assert b[..1] == [Plain({"y"})] && LastRead(b[..1], "y") == 0;
    assert LastRead(b, "y") == 0;
    assert ReadTooSoon(b, 1) && "x" in b[1].lend.origins;
    StaysLentExactly(b, "x");
  }
}
