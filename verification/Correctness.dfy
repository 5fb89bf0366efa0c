/** The compiler's two theorems. */
module Correctness {
  import opened Syntax
  import opened Semantics
  import opened Agreement
  import opened Overruns

  /** For every block, state and fuel, a block run compiled ends as it does
      walked -- the same value, return, break, continue or failure -- and
      leaves everything it can read or write the same, unless some turn of
      the walk overran its list.  Then the compiled run fails at that very
      turn, with everything as the walk had it there; so where the walk does
      not itself fail so, the two end alike exactly if nothing was overrun. */
  lemma CompiledAgreesWithWalk(p: Program, f: nat, b: seq<Stmt>, s: State)
    requires Sound(false, p) && FitBlock(false, b) && s.short.None?
    ensures var c, w := EvalStmts(p, Compiled, f, b, s), EvalStmts(p, Walked, f, b, s);
            c.st.short == w.st.short &&
            (if w.st.short.None? then c.out == w.out && c.st.core == w.st.core else c.out == Failed(IndexError)) &&
            (w.out != Failed(IndexError) ==> (c.out == w.out <==> w.st.short.None?))
  {
    StmtsAgree(false, p, Compiled, Direct, f, b, s, s);
    StmtsFollow(p, f, b, s);
  }

  /** Where nodes carry their positions, it also leaves the same position
      behind, at every end and at every call on the way. */
  lemma CompiledKeepsPositions(p: Program, f: nat, b: seq<Stmt>, s: State)
    requires Sound(true, p) && FitBlock(true, b) && s.short.None?
    ensures var c, w := EvalStmts(p, Compiled, f, b, s), EvalStmts(p, Walked, f, b, s);
            c.st.short == w.st.short && if w.st.short.None? then c == w else c.out == Failed(IndexError)
  {
    StmtsAgree(true, p, Compiled, Direct, f, b, s, s);
    StmtsFollow(p, f, b, s);
  }
}
