/** Turning the columns lines begin at into INDENT and DEDENT tokens
    (interp/lexer.py): what is put in, where it may stand, and that every block
    opened is closed. */
module Indentation {
  /** A token, its place apart.  A line break carries the column the next line
      begins at; a bracket is one of `( [ { ⸨` or `) ] } ⸩`. */
  datatype Token =
    | Newline(column: nat)
    | Indent
    | Dedent
    | Eof
    | Opening
    | Closing
    | Op(text: string)
    | AndOr
    | Equals
    | Other(text: string)

  predicate IsLayout(t: Token) { t.Indent? || t.Dedent? }

  /** What the scans back over the output skip. */
  predicate IsBlank(t: Token) { t.Newline? || IsLayout(t) }

  // ---- reading a token stream -----------------------------------------------------

  /** How many brackets are open at the end of a stream. */
  function Nesting(ts: seq<Token>): nat {
    if ts == [] then 0 else
    var n := Nesting(ts[..|ts| - 1]);
    match ts[|ts| - 1]
    case Opening => n + 1
    case Closing => if n > 0 then n - 1 else 0
    case _ => n
  }

  /** The last token of a stream that is not blank. */
  function LastWord(ts: seq<Token>): (r: seq<Token>)
    ensures |r| <= 1
  {
    if ts == [] then []
    else if IsBlank(ts[|ts| - 1]) then LastWord(ts[..|ts| - 1])
    else [ts[|ts| - 1]]
  }

  /** Whether a line broken here goes on: it ends in a binary operator, and not
      in one that `※` makes a name. */
  predicate GoesOn(ts: seq<Token>, ops: set<string>) {
    |ts| > 0 &&
    var prev := LastWord(ts[..|ts| - 1]);
    var before := if |ts| > 1 then LastWord(ts[..|ts| - 2]) else [];
    prev != [] && !(before != [] && before[0] == Op("※")) &&
    ((prev[0].Op? && prev[0].text in ops) || prev[0].AndOr? || prev[0].Equals?)
  }

  /** The column the last line break carries. */
  function LastColumn(ts: seq<Token>): nat {
    if ts == [] then 0
    else if ts[|ts| - 1].Newline? then ts[|ts| - 1].column
    else LastColumn(ts[..|ts| - 1])
  }

  /** Where the blank end of a stream begins. */
  function BreakStart(ts: seq<Token>): (r: nat)
    ensures r <= |ts|
  {
    if ts == [] || !IsBlank(ts[|ts| - 1]) then |ts| else BreakStart(ts[..|ts| - 1])
  }

  /** A stream ends in a line break that ends a line: outside brackets, and the
      line does not go on. */
  predicate EndsALine(ts: seq<Token>, ops: set<string>) {
    var q := BreakStart(ts);
    q < |ts| && Nesting(ts[..q]) == 0 && !GoesOn(ts[..q + 1], ops)
  }

  /** The stream with the layout tokens taken out again. */
  function Erase(ts: seq<Token>): seq<Token> {
    if ts == [] then [] else
    var init := Erase(ts[..|ts| - 1]);
    if IsLayout(ts[|ts| - 1]) then init else init + [ts[|ts| - 1]]
  }

  /** The columns of the blocks open at the end of a stream, read off the stream
      alone: an INDENT opens a block at the column of the line it begins. */
  function Blocks(ts: seq<Token>): (r: seq<nat>)
    ensures |r| > 0
  {
    if ts == [] then [0] else
    var pre := ts[..|ts| - 1];
    var open := Blocks(pre);
    match ts[|ts| - 1]
    case Indent => open + [LastColumn(pre)]
    case Dedent => if |open| > 1 then open[..|open| - 1] else open
    case _ => open
  }

  function Top(s: seq<nat>): nat
    requires |s| > 0
  {
    s[|s| - 1]
  }

  /** INDENTs less DEDENTs. */
  function Depth(ts: seq<Token>): int {
    if ts == [] then 0 else
    Depth(ts[..|ts| - 1]) + (if ts[|ts| - 1].Indent? then 1 else if ts[|ts| - 1].Dedent? then -1 else 0)
  }

  predicate Ascending(s: seq<nat>) {
    |s| > 0 && s[0] == 0 && forall i, j :: 0 <= i < j < |s| ==> s[i] < s[j]
  }

  // ---- what the output promises ------------------------------------------------------

  /** Whether a token may stand after a stream: an INDENT only where the line is
      deeper than its block, a DEDENT only where a block is open, and anything
      that begins a line only at the column of the block it is in. */
  predicate MayFollow(pre: seq<Token>, t: Token, ops: set<string>) {
    (t.Indent? ==> LastColumn(pre) > Top(Blocks(pre))) &&
    (t.Dedent? ==> |Blocks(pre)| > 1) &&
    (!IsBlank(t) && !t.Eof? && EndsALine(pre, ops) ==> Top(Blocks(pre)) == LastColumn(pre))
  }

  predicate WellLaid(ts: seq<Token>, ops: set<string>) {
    forall p :: 0 <= p < |ts| ==> MayFollow(ts[..p], ts[p], ops)
  }

  lemma WellLaidMore(ts: seq<Token>, t: Token, ops: set<string>)
    requires WellLaid(ts, ops) && MayFollow(ts, t, ops)
    ensures WellLaid(ts + [t], ops)
  {
    hide MayFollow;
    forall p | 0 <= p < |ts + [t]| ensures MayFollow((ts + [t])[..p], (ts + [t])[p], ops) {
      assert (ts + [t])[..p] == ts[..p];
      if p == |ts| { assert ts[..p] == ts; }
    }
  }

  /** Nothing is closed that was not opened: on every prefix the open blocks are
      those the counts say, at ever deeper columns. */
  lemma {:induction false} BlocksAscend(ts: seq<Token>, ops: set<string>, p: nat)
    requires WellLaid(ts, ops) && p <= |ts|
    ensures Ascending(Blocks(ts[..p])) && Depth(ts[..p]) == |Blocks(ts[..p])| - 1
    decreases p
  {
    if p > 0 {
      BlocksAscend(ts, ops, p - 1);
      assert ts[..p][..p - 1] == ts[..p - 1] && ts[..p][p - 1] == ts[p - 1];
      assert MayFollow(ts[..p - 1], ts[p - 1], ops);
    }
  }

  // ---- one token more -------------------------------------------------------------------

  lemma Appended(ts: seq<Token>, t: Token)
    ensures var r := ts + [t];
            r[..|r| - 1] == ts && r[|r| - 1] == t
    ensures Erase(ts + [t]) == if IsLayout(t) then Erase(ts) else Erase(ts) + [t]
    ensures Blocks(ts + [t]) == match t
              case Indent => Blocks(ts) + [LastColumn(ts)]
              case Dedent => if |Blocks(ts)| > 1 then Blocks(ts)[..|Blocks(ts)| - 1] else Blocks(ts)
              case _ => Blocks(ts)
    ensures LastColumn(ts + [t]) == if t.Newline? then t.column else LastColumn(ts)
    ensures Nesting(ts + [t]) == match t
              case Opening => Nesting(ts) + 1
              case Closing => if Nesting(ts) > 0 then Nesting(ts) - 1 else 0
              case _ => Nesting(ts)
    ensures BreakStart(ts + [t]) == if IsBlank(t) then BreakStart(ts) else |ts| + 1
  {
    assert (ts + [t])[..|ts|] == ts;
  }


  /** A further blank token neither makes nor unmakes the end of a line. */
  lemma BlankStays(ts: seq<Token>, t: Token, ops: set<string>)
    requires IsBlank(t) && BreakStart(ts) < |ts|
    ensures EndsALine(ts + [t], ops) == EndsALine(ts, ops)
  {
    hide GoesOn, Nesting;
    Appended(ts, t);
    var q := BreakStart(ts);
    hide BreakStart;
    assert (ts + [t])[..q] == ts[..q] && (ts + [t])[..q + 1] == ts[..q + 1];
  }

  /** A line break inside brackets, or after a line that goes on, ends no line
      that had not ended. */
  lemma BreakThatEndsNothing(ts: seq<Token>, t: Token, ops: set<string>)
    requires t.Newline? && !EndsALine(ts, ops)
    requires Nesting(ts) > 0 || GoesOn(ts + [t], ops)
    ensures !EndsALine(ts + [t], ops)
  {
    if BreakStart(ts) < |ts| {
      BlankStays(ts, t, ops);
    } else {
      Appended(ts, t);
      assert (ts + [t])[..|ts|] == ts && (ts + [t])[..|ts| + 1] == ts + [t];
    }
  }

  lemma {:induction false} BlankTail(ts: seq<Token>, n: nat)
    requires BreakStart(ts) <= n <= |ts|
    ensures Nesting(ts[..n]) == Nesting(ts[..BreakStart(ts)]) && LastWord(ts[..n]) == LastWord(ts[..BreakStart(ts)])
    decreases |ts|
  {
    if n < |ts| {
      assert ts[..|ts| - 1][..n] == ts[..n] && ts[..|ts| - 1][..BreakStart(ts)] == ts[..BreakStart(ts)];
      BlankTail(ts[..|ts| - 1], n);
    } else {
      assert ts[..n] == ts;
      if BreakStart(ts) < n {
        assert ts[..|ts| - 1][..|ts| - 1] == ts[..|ts| - 1];
        assert ts[..|ts| - 1][..BreakStart(ts)] == ts[..BreakStart(ts)];
        BlankTail(ts[..|ts| - 1], |ts| - 1);
      }
    }
  }

  /** A token that makes a line go on where it is the last on it: an operator of
      the table, `and`, `or`, and `=`. */
  predicate Continues(t: Token, ops: set<string>) {
    match t
    case Op(text) => text in ops
    case AndOr => true
    case Equals => true
    case _ => false
  }

  /** A line is continued exactly by its last word, blank lines between or not, save
      that an operator right after `※` is a name. */
  lemma GoesOnExactly(pre: seq<Token>, w: Token, blanks: seq<Token>, column: nat, ops: set<string>)
    requires !IsBlank(w) && "※" !in ops && forall i :: 0 <= i < |blanks| ==> IsBlank(blanks[i])
    ensures GoesOn(pre + [w] + blanks + [Newline(column)], ops)
            <==> Continues(w, ops) && !(blanks == [] && LastWord(pre) == [Op("※")])
  {
    hide LastWord;
    var ts := pre + [w] + blanks + [Newline(column)];
    assert ts[..|ts| - 1] == pre + [w] + blanks;
    LastOver(pre, w, blanks);
    if blanks == [] {
      assert ts[..|ts| - 2] == pre;
    } else {
      assert ts[..|ts| - 2] == pre + [w] + blanks[..|blanks| - 1];
      LastOver(pre, w, blanks[..|blanks| - 1]);
    }
  }

  lemma {:induction false} LastOver(pre: seq<Token>, w: Token, blanks: seq<Token>)
    requires !IsBlank(w) && forall i :: 0 <= i < |blanks| ==> IsBlank(blanks[i])
    ensures LastWord(pre + [w] + blanks) == [w]
    decreases |blanks|
  {
    var ts := pre + [w] + blanks;
    if blanks == [] {
      assert ts[|ts| - 1] == w;
    } else {
      assert ts[..|ts| - 1] == pre + [w] + blanks[..|blanks| - 1];
      LastOver(pre, w, blanks[..|blanks| - 1]);
    }
  }

  /** A line that goes on goes on over any further breaks: the word before the
      break is then its own predecessor, and no name-maker. */
  lemma ContinuedGoesOn(ts: seq<Token>, t: Token, ops: set<string>)
    requires BreakStart(ts) < |ts| && !EndsALine(ts, ops) && "※" !in ops
    ensures Nesting(ts) > 0 || GoesOn(ts + [t], ops)
  {
    hide LastWord, Nesting, BreakStart;
    var q, n := BreakStart(ts), |ts|;
    BlankTail(ts, n);
    BlankTail(ts, n - 1);
    assert ts[..n] == ts && (ts + [t])[..n] == ts && (ts + [t])[..n - 1] == ts[..n - 1];
    assert ts[..q + 1][..q] == ts[..q];
  }

  /** A break outside brackets, after a line that does not go on, ends a line. */
  lemma BreakEndsLine(ts: seq<Token>, t: Token, ops: set<string>)
    requires t.Newline? && !EndsALine(ts, ops) && Nesting(ts) == 0 && !GoesOn(ts + [t], ops) && "※" !in ops
    ensures EndsALine(ts + [t], ops)
  {
    hide GoesOn, Nesting;
    if BreakStart(ts) < |ts| { ContinuedGoesOn(ts, t, ops); }
    Appended(ts, t);
    assert (ts + [t])[..|ts|] == ts && (ts + [t])[..|ts| + 1] == ts + [t];
  }

  /** The line that has just ended, if one has, begins its next at the column of
      the innermost block. */
  predicate Settled(ts: seq<Token>, ops: set<string>) {
    EndsALine(ts, ops) ==> Top(Blocks(ts)) == LastColumn(ts)
  }

  lemma WordEndsNoLine(ts: seq<Token>, t: Token, ops: set<string>)
    requires !IsBlank(t)
    ensures !EndsALine(ts + [t], ops)
  {
    Appended(ts, t);
  }

  // ---- the pass -----------------------------------------------------------------------------

  /** The last token that is not blank among the first `n` of the output. */
  method ScanBack(ts: seq<Token>, n: int) returns (r: seq<Token>)
    requires n <= |ts|
    ensures r == if n > 0 then LastWord(ts[..n]) else []
  {
    var k := n;
    assert n > 0 ==> ts[..n] == ts[..k];
    while k > 0
      invariant n > 0 ==> 0 <= k <= n && LastWord(ts[..n]) == LastWord(ts[..k])
    {
      assert ts[..k][..k - 1] == ts[..k - 1];
      if !IsBlank(ts[k - 1]) { return [ts[k - 1]]; }
      k := k - 1;
    }
    return [];
  }

  method GoesOnAfter(ts: seq<Token>, ops: set<string>) returns (b: bool)
    requires |ts| > 0
    ensures b == GoesOn(ts, ops)
  {
    var prev := ScanBack(ts, |ts| - 1);
    var before := ScanBack(ts, |ts| - 2);
    assert |ts| == 1 ==> LastWord(ts[..0]) == [];
    assert |ts| == 2 ==> LastWord(ts[..0]) == [];
    var namesAnOperator := before != [] && before[0] == Op("※");
    b := prev != [] && !namesAnOperator && ((prev[0].Op? && prev[0].text in ops) || prev[0].AndOr? || prev[0].Equals?);
  }

  /** Layout tokens stand only where a line has ended, outside brackets and not
      to be continued. */
  predicate AfterLines(ts: seq<Token>, ops: set<string>) {
    forall p :: 0 <= p < |ts| && IsLayout(ts[p]) ==> EndsALine(ts[..p], ops)
  }

  lemma AfterLinesMore(ts: seq<Token>, t: Token, ops: set<string>)
    requires AfterLines(ts, ops) && (IsLayout(t) ==> EndsALine(ts, ops))
    ensures AfterLines(ts + [t], ops)
  {
    hide EndsALine;
    forall p | 0 <= p < |ts + [t]| && IsLayout((ts + [t])[p]) ensures EndsALine((ts + [t])[..p], ops) {
      assert (ts + [t])[..p] == ts[..p];
      if p == |ts| { assert ts[..p] == ts; }
    }
  }

  /** The output so far, the input it stands for, and the columns of the blocks
      open at its end. */
  ghost predicate Laid(out: seq<Token>, done: seq<Token>, stack: seq<nat>, ops: set<string>) {
    WellLaid(out, ops) && AfterLines(out, ops) && Erase(out) == done && stack == Blocks(out)
  }

  lemma MaySettle(out: seq<Token>, t: Token, ops: set<string>)
    requires !IsLayout(t) && (!t.Newline? && !t.Eof? ==> Settled(out, ops))
    ensures MayFollow(out, t, ops)
  {}

  lemma LaidMore(out: seq<Token>, done: seq<Token>, stack: seq<nat>, t: Token, ops: set<string>)
    requires Laid(out, done, stack, ops) && !IsLayout(t)
    requires !t.Newline? && !t.Eof? ==> Settled(out, ops)
    ensures Laid(out + [t], done + [t], stack, ops)
  {
    hide WellLaid, AfterLines, EndsALine;
    Appended(out, t);
    MaySettle(out, t, ops);
    WellLaidMore(out, t, ops);
    AfterLinesMore(out, t, ops);
  }

  /** What layout tokens leave as it was. */
  ghost predicate SameBreak(out: seq<Token>, before: seq<Token>, ops: set<string>) {
    BreakStart(out) == BreakStart(before) < |out| && LastColumn(out) == LastColumn(before) &&
    EndsALine(out, ops) == EndsALine(before, ops) && Nesting(out) == Nesting(before)
  }

  lemma SameBreakMore(out: seq<Token>, before: seq<Token>, t: Token, ops: set<string>)
    requires IsLayout(t) && SameBreak(out, before, ops)
    ensures SameBreak(out + [t], before, ops)
  {
    hide EndsALine;
    Appended(out, t);
    BlankStays(out, t, ops);
  }

  lemma LaidDedent(out: seq<Token>, done: seq<Token>, stack: seq<nat>, ops: set<string>)
    requires Laid(out, done, stack, ops) && |stack| > 1 && EndsALine(out, ops)
    ensures Laid(out + [Dedent], done, stack[..|stack| - 1], ops)
  {
    hide WellLaid, AfterLines, EndsALine;
    Appended(out, Dedent);
    WellLaidMore(out, Dedent, ops);
    AfterLinesMore(out, Dedent, ops);
  }

  /** Closing blocks down to a column. */
  method CloseTo(out0: seq<Token>, stack0: seq<nat>, column: nat, ops: set<string>, ghost done: seq<Token>)
    returns (out: seq<Token>, stack: seq<nat>)
    requires Laid(out0, done, stack0, ops) && Ascending(stack0) && BreakStart(out0) < |out0| && EndsALine(out0, ops)
    ensures Laid(out, done, stack, ops) && Ascending(stack) && SameBreak(out, out0, ops)
    ensures Top(stack) <= column
  {
    hide Laid, WellLaid, AfterLines, EndsALine, BreakStart, LastColumn, Nesting, Blocks, Erase, SameBreak;
    out, stack := out0, stack0;
    assert SameBreak(out, out0, ops) by { SameBreakSelf(out0, ops); }
    while column < Top(stack)
      invariant Laid(out, done, stack, ops) && Ascending(stack) && SameBreak(out, out0, ops)
      decreases |stack|
    {
      SameEnd(out, out0, ops);
      SameBreakMore(out, out0, Dedent, ops);
      LaidDedent(out, done, stack, ops);
      out, stack := out + [Dedent], stack[..|stack| - 1];
    }
  }

  lemma SameBreakSelf(out: seq<Token>, ops: set<string>)
    requires BreakStart(out) < |out|
    ensures SameBreak(out, out, ops)
  {}

  lemma LaidIndent(out: seq<Token>, done: seq<Token>, stack: seq<nat>, ops: set<string>)
    requires Laid(out, done, stack, ops) && |stack| > 0 && LastColumn(out) > Top(stack) && EndsALine(out, ops)
    ensures Laid(out + [Indent], done, stack + [LastColumn(out)], ops)
  {
    hide WellLaid, AfterLines, EndsALine;
    Appended(out, Indent);
    WellLaidMore(out, Indent, ops);
    AfterLinesMore(out, Indent, ops);
  }

  /** Bringing the open blocks to the column the next line begins at. */
  method MoveTo(out0: seq<Token>, stack0: seq<nat>, column: nat, ops: set<string>, ghost done: seq<Token>)
    returns (out: seq<Token>, stack: seq<nat>)
    requires Laid(out0, done, stack0, ops) && Ascending(stack0) && BreakStart(out0) < |out0| && EndsALine(out0, ops)
    requires column == LastColumn(out0)
    ensures Laid(out, done, stack, ops) && Ascending(stack) && Nesting(out) == Nesting(out0)
    ensures Settled(out, ops) && Top(stack) == LastColumn(out0)
  {
    hide Laid, WellLaid, AfterLines, EndsALine, BreakStart, LastColumn, Nesting, Blocks, Erase, SameBreak, Settled;
    if column > Top(stack0) {
      SameBreakSelf(out0, ops);
      SameBreakMore(out0, out0, Indent, ops);
      LaidIndent(out0, done, stack0, ops);
      out, stack := out0 + [Indent], stack0 + [column];
    } else {
      out, stack := CloseTo(out0, stack0, column, ops, done);
      if column > Top(stack) {
        SameColumn(out, out0, ops);
        SameEnd(out, out0, ops);
        SameBreakMore(out, out0, Indent, ops);
        LaidIndent(out, done, stack, ops);
        out, stack := out + [Indent], stack + [column];
      }
    }
    NowSettled(out, out0, done, stack, ops);
  }

  lemma SameEnd(out: seq<Token>, before: seq<Token>, ops: set<string>)
    requires SameBreak(out, before, ops)
    ensures EndsALine(out, ops) == EndsALine(before, ops)
  {}

  lemma SameColumn(out: seq<Token>, before: seq<Token>, ops: set<string>)
    requires SameBreak(out, before, ops)
    ensures LastColumn(out) == LastColumn(before)
  {}

  lemma NowSettled(out: seq<Token>, before: seq<Token>, done: seq<Token>, stack: seq<nat>, ops: set<string>)
    requires Laid(out, done, stack, ops) && SameBreak(out, before, ops) && |stack| > 0
    requires Top(stack) == LastColumn(before)
    ensures Settled(out, ops) && Nesting(out) == Nesting(before)
  {
    hide EndsALine;
  }

  // ---- the whole pass -------------------------------------------------------------------------

  predicate NoLayout(ts: seq<Token>) { forall i :: 0 <= i < |ts| ==> !IsLayout(ts[i]) }

  /** A line that has just ended is settled, unless the file ends there; and no
      further break follows it. */
  ghost predicate Ready(out: seq<Token>, ts: seq<Token>, i: nat, ops: set<string>)
    requires i <= |ts|
  {
    EndsALine(out, ops) && i < |ts| && !ts[i].Eof? ==> !ts[i].Newline? && Settled(out, ops)
  }

  /** A run of line breaks, its first already in the output. */
  method TakeBreaks(out0: seq<Token>, ts: seq<Token>, i: nat, stack: seq<nat>, ops: set<string>)
    returns (out: seq<Token>, j: nat, column: nat)
    requires 0 < i <= |ts| && ts[i - 1].Newline? && Laid(out0, ts[..i], stack, ops)
    requires BreakStart(out0) < |out0| && LastColumn(out0) == ts[i - 1].column && EndsALine(out0, ops)
    ensures i <= j <= |ts| && (j < |ts| ==> !ts[j].Newline?) && Laid(out, ts[..j], stack, ops)
    ensures BreakStart(out) < |out| && column == LastColumn(out) && Nesting(out) == Nesting(out0) && EndsALine(out, ops)
  {
    hide Laid, WellLaid, AfterLines, Nesting, BreakStart, LastColumn, Erase, Blocks, EndsALine, Settled;
    out, j, column := out0, i, ts[i - 1].column;
    while j < |ts| && ts[j].Newline?
      invariant i <= j <= |ts| && Laid(out, ts[..j], stack, ops)
      invariant BreakStart(out) < |out| && column == LastColumn(out) && Nesting(out) == Nesting(out0)
      invariant EndsALine(out, ops)
    {
      Appended(out, ts[j]);
      BlankStays(out, ts[j], ops);
      LaidMore(out, ts[..j], stack, ts[j], ops);
      assert ts[..j] + [ts[j]] == ts[..j + 1];
      out, column, j := out + [ts[j]], ts[j].column, j + 1;
    }
  }

  /** `process_indentation`: the tokens it is given are all there, in order, and
      what it puts between them is well laid, closes every block it opens, and
      stands only after a line that ended -- but for the DEDENTs, if any, from
      `last` on, which close what is open at the end of the file. */
  method ProcessIndentation(ts: seq<Token>, ops: set<string>) returns (out: seq<Token>, ghost last: nat)
    requires NoLayout(ts) && "※" !in ops
    ensures Erase(out) == ts && WellLaid(out, ops) && Blocks(out) == [0]
    ensures last <= |out| && AfterLines(out[..last], ops) && forall p :: last <= p < |out| ==> out[p].Dedent?
  {
    hide Laid, WellLaid, AfterLines, Nesting, BreakStart, LastColumn, Erase, Blocks, EndsALine, Settled, Ready;
    var stack, nesting, i := [0], 0, 0;
    out := [];
    AtFirst(ts, ops);
    while i < |ts|
      invariant 0 <= i <= |ts| && Laid(out, ts[..i], stack, ops) && Ascending(stack)
      invariant nesting == Nesting(out) && Ready(out, ts, i, ops)
      decreases |ts| - i
    {
      var tok := ts[i];
      assert ts[..i] + [tok] == ts[..i + 1];
      ReadyToGo(out, ts, i, ops);
      Appended(out, tok);
      LaidMore(out, ts[..i], stack, tok, ops);
      if !tok.Newline? {
        WordReady(out, tok, ts, i + 1, ops);
        if tok.Opening? { nesting := nesting + 1; } else if tok.Closing? && nesting > 0 { nesting := nesting - 1; }
        out, i := out + [tok], i + 1;
        continue;
      }
      ghost var before := out;
      BreakNotReady(out, ts, i, ops);
      out := out + [tok];
      var goesOn := GoesOnAfter(out, ops);
      if nesting > 0 || goesOn {
        BreakThatEndsNothing(before, tok, ops);
        NothingEnded(out, ts, i + 1, ops);
        i := i + 1;
        continue;
      }
      BreakEndsLine(before, tok, ops);
      BlankAtEnd(before, tok);
      var taken, j, column := TakeBreaks(out, ts, i + 1, stack, ops);
      if j >= |ts| || ts[j].Eof? {
        out, stack := CloseTo(taken, stack, 0, ops, ts[..j]);
        SameNesting(out, taken, ops);
        FileEnds(out, ts, j, ops);
      } else {
        out, stack := MoveTo(taken, stack, column, ops, ts[..j]);
        LineEnds(out, ts, j, ops);
      }
      i := j;
    }
    assert ts[..|ts|] == ts;
    last := |out|;
    FileDone(out, ts, stack, ops);
    while |stack| > 1
      invariant last <= |out| && WellLaid(out, ops) && Erase(out) == ts && stack == Blocks(out) && Ascending(stack)
      invariant AfterLines(out[..last], ops) && forall p :: last <= p < |out| ==> out[p].Dedent?
      decreases |stack|
    {
      Appended(out, Dedent);
      WellLaidMore(out, Dedent, ops);
      assert (out + [Dedent])[..last] == out[..last];
      out, stack := out + [Dedent], stack[..|stack| - 1];
    }
    assert stack == [0];
  }

  lemma FileDone(out: seq<Token>, done: seq<Token>, stack: seq<nat>, ops: set<string>)
    requires Laid(out, done, stack, ops)
    ensures WellLaid(out, ops) && Erase(out) == done && stack == Blocks(out) && AfterLines(out[..|out|], ops)
  {
    assert out[..|out|] == out;
  }

  lemma AtFirst(ts: seq<Token>, ops: set<string>)
    ensures Laid([], ts[..0], [0], ops) && Nesting([]) == 0 && Ready([], ts, 0, ops)
  {
    assert ts[..0] == [];
  }

  lemma ReadyToGo(out: seq<Token>, ts: seq<Token>, i: nat, ops: set<string>)
    requires i < |ts| && Ready(out, ts, i, ops)
    ensures !ts[i].Newline? && !ts[i].Eof? ==> Settled(out, ops)
  {
    hide EndsALine;
  }

  lemma BreakNotReady(out: seq<Token>, ts: seq<Token>, i: nat, ops: set<string>)
    requires i < |ts| && Ready(out, ts, i, ops) && ts[i].Newline?
    ensures !EndsALine(out, ops)
  {
    hide EndsALine;
  }

  lemma WordReady(out: seq<Token>, t: Token, ts: seq<Token>, i: nat, ops: set<string>)
    requires i <= |ts| && !IsBlank(t)
    ensures Ready(out + [t], ts, i, ops)
  {
    WordEndsNoLine(out, t, ops);
  }

  lemma NothingEnded(out: seq<Token>, ts: seq<Token>, i: nat, ops: set<string>)
    requires i <= |ts| && !EndsALine(out, ops)
    ensures Ready(out, ts, i, ops)
  {}

  lemma BlankAtEnd(before: seq<Token>, t: Token)
    requires t.Newline?
    ensures BreakStart(before + [t]) < |before + [t]| && LastColumn(before + [t]) == t.column
  {
    Appended(before, t);
  }

  lemma SameNesting(out: seq<Token>, before: seq<Token>, ops: set<string>)
    requires SameBreak(out, before, ops)
    ensures Nesting(out) == Nesting(before)
  {}

  lemma FileEnds(out: seq<Token>, ts: seq<Token>, j: nat, ops: set<string>)
    requires j <= |ts| && (j >= |ts| || ts[j].Eof?)
    ensures Ready(out, ts, j, ops)
  {}

  lemma LineEnds(out: seq<Token>, ts: seq<Token>, j: nat, ops: set<string>)
    requires j <= |ts| && Settled(out, ops) && (j < |ts| ==> !ts[j].Newline?)
    ensures Ready(out, ts, j, ops)
  {
    hide EndsALine, Settled;
  }

  /** So INDENTs and DEDENTs balance, and on no prefix has more been closed than
      opened. */
  lemma LaidIsBalanced(out: seq<Token>, ops: set<string>)
    requires WellLaid(out, ops) && Blocks(out) == [0]
    ensures Depth(out) == 0 && forall p :: 0 <= p <= |out| ==> Depth(out[..p]) >= 0 && Ascending(Blocks(out[..p]))
  {
    forall p | 0 <= p <= |out| ensures Depth(out[..p]) >= 0 && Ascending(Blocks(out[..p])) {
      BlocksAscend(out, ops, p);
    }
    BlocksAscend(out, ops, |out|);
    assert out[..|out|] == out;
  }

  /** `strip_newlines` takes out all that was put in, and the breaks besides. */
  function StripNewlines(ts: seq<Token>): seq<Token> {
    if ts == [] then [] else
    var init := StripNewlines(ts[..|ts| - 1]);
    if IsBlank(ts[|ts| - 1]) then init else init + [ts[|ts| - 1]]
  }

  lemma {:induction false} StrippedTheSame(out: seq<Token>)
    ensures StripNewlines(Erase(out)) == StripNewlines(out)
  {
    if out != [] {
      var pre, t := out[..|out| - 1], out[|out| - 1];
      StrippedTheSame(pre);
      if !IsLayout(t) { assert (Erase(pre) + [t])[..|Erase(pre)|] == Erase(pre); }
    }
  }
}
