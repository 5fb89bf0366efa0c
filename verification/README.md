# Proofs about the interpreter

A model of the interpreter's algorithms that have a fast form and a simple
form, or a transformation and a meaning it must keep, with the theorems that
connect the two.  `dafny verify dfyconfig.toml` checks all of it.

| files | what they model |
|---|---|
| `Syntax`, `Semantics` | blocks and expressions, walking them, and the machine compiled lines run on; both are given fuel, and everything that happens in code not modelled is an arbitrary operation on the state (`Ops`) |
| `Laws` | what running a block comes to: loops left and gone round, turns, calls, reads, operators and stores |
| `CodeGen`, `Target`, `Emit` | the compiler: the code of each node, its layout as indented lines, and the emitter that grows them |
| `Correctness`, `Agreement`, `Overruns`, `Limits` | compiled against walked: the theorems, their proof in two halves, and exactly where the two part |
| `Scopes`, `Lookups` | frames, declarations and the environment chain |
| `Matching`, `Hygiene`, `Expansion`, `Sorts`, `Covered` | macro rules matched, filled, renamed and expanded, what expansion leaves where, and a program that shows it |
| `Arithmetic`, `Layout`, `Pack` | C layout of structs (section 3.1.2 of the System V AMD64 psABI) and the bytes at those offsets |
| `Modules` | the module loader and the line map |
| `Noreturn` | the `@noreturn` check |
| `Units` | what a measure may stand in for |
| `Indent` | INDENT and DEDENT tokens |
| `Lends` | the ledger of lends |
| `Reshape`, `InPlace` | shaped views, and operators carried out on the array assigned to |
| `EnumMatch` | the cached dispatch table of a match over an enumeration |

Code that works by changing things is a class or a method with the loop the
source has, proved against a function; the laws are lemmas about that function.

## What the code does that its documentation does not say

Each of these is a lemma with an input that shows it; after it stands the
theorem that says when the promise is kept.

- A literal on the left of `and` or `or` keeps its position when walked and
  loses it when compiled, for every such block (`Limits.LiteralLeftExactly`,
  an if-and-only-if); a subscript of a literal, compiled, stores into the tuple
  of constants (`Limits.LiteralSubscriptRaises`, `Limits.LiteralSubscriptDiffers`).
- A `foreach` whose body shortens its list goes round it when walked and fails
  when compiled (`Limits.ShortenedListDiverges`): the two runs of any block
  agree exactly as long as no turn overran its list
  (`Correctness.CompiledAgreesWithWalk`).
- An operator assigned back to an array it cannot be carried out on, the lengths
  being different, has read its other operand by then and reads it again
  (`Limits.DifferingLengthsReadTwice`; in every program,
  `Limits.OtherIsReadTwice`).
- `_block_leaves` accepts `@expect` over a statement that fails, which goes on
  (`Noreturn.ExpectedFailurePasses`), an endless loop left by a break in a
  `catch` (`Noreturn.CaughtBreakPasses`), by a labelled break from an inner loop
  (`Noreturn.CrossingBreakPasses`), by a break under two `@expect`s
  (`Noreturn.TwiceExpectedBreakPasses`), by a break in an `if` or a `match` that
  stands as a value (`Noreturn.ValueBreakPasses`), or by a break in a function
  it calls, which the check for breaks outside loops does not see under an
  `elif` or an `else` (`Noreturn.LeakedBreakPasses`), a call that hands a
  `@noreturn` function too little to run it (`Noreturn.CallNotRunPasses`), and a
  `@noreturn` function that returns, from a statement or from a value
  (`Noreturn.ReturnGoesUnnoticed`, `Noreturn.ValueReturnGoesUnnoticed`).  Where
  none of these is in what it accepts, it is right
  (`Noreturn.AcceptedNeverPasses`, `Noreturn.NoreturnKeepsItsWord`), where nothing
  is hidden from it either way it accepts exactly the blocks no run comes to the
  end of (`Noreturn.AcceptsExactly`), and how any block may end is read off its
  text exactly (`Noreturn.EndsExactly`).
- `writev` takes an array of bytes or structs, but not one that looks into
  another's storage, as a row of a reshaped array does
  (`Pack.RowIsNotWritten`; exactly what is written, `Pack.RunWrittenExactly`).
- A macro that writes statements is refused where a value is wanted, except on
  a line held in a field, where the field becomes a list
  (`Expansion.HeldLineBecomesList`); where lines stand only in lists, no field
  changes what it may hold (`Sorts.ExpansionKeepsSorts`).
- A reshape of a slice that starts partway into its storage looks at the start
  of the storage instead (`Reshape.SlicedViewStrays`; exactly when that
  matters, `Reshape.SlicedViewExactly`).
- A unit shown as the builtin it stands in for is refused as a ring
  (`Units.NameAloneIsRefused`; exactly what is refused,
  `Units.AcceptedExactly`), and a chain longer than 64 steps is accepted and
  not walked to its end (`Units.LongChainIsMissed`; exactly how many units are
  safe, `Units.ReachExactly`).
- A lend whose borrower is only read before it is bound never comes back within
  the block (`Lends.LentForGood`; exactly which names stay lent,
  `Lends.StaysLentExactly`).
- An operator assigned back to the array it reads stores each answer into that
  array, which may refuse it: `v ← v = w` on numbers fails
  (`InPlace.ComparisonRefused`) where the ordinary form answers; they agree
  exactly where every answer stores as itself (`InPlace.InPlaceIsThreading`).
  One that fails partway leaves the elements it had written
  (`InPlace.HalfDivided`; exactly when that shows, `InPlace.HaltedAsItWas`).
- The table of an enum match refuses an arm of another enumeration that the
  walk never reaches (`EnumMatch.MisnamedArmIsRefused`; exactly when,
  `EnumMatch.Match.Dispatch`); the static check rules such arms out.

## Conventions

- Fuel bounds the depth of calls and the turns of loops in `Semantics` and the
  turns in `Noreturn`; the theorems hold for every amount.
- A `State` records the first turn of a foreach that read its element where the
  list no longer reached, with everything as it then was; nothing reads the
  record, so starting from an empty one asks nothing of a run.
- `Agreement.Sound` says that every function's body is one the compiler theorems
  cover: no literal is the container of an index that spells no type, and, for
  the theorem about positions, nodes have positions and a literal on the left of
  `and` or `or` has the operator's.
- A function of the program is made in the module's environment: its frame
  stands on the module's frames, which are the caller's own where the caller is
  the module's top level.
- Trees of `Matching` keep a node's fields in order, with the name of a binder,
  reference or call apart; positions are ignored by matching as in the source.
  What a macro function answers is a tree with holes where pieces of the
  caller's were put back, so that skipping those pieces while renaming is
  renaming before filling.
- Types of `Layout` are already resolved from their names; an integer type
  carries its sign and stated width.
- Graphs, file identities and line counts of `Modules` are given; finding and
  reading a file is not modelled.  `load` has each module read from the one file
  it is rooted in (interp/modules.py:180), so a module is one file.
- A tree of `Sorts` is judged by a grammar that says, for every kind of node,
  what each field holds: one tree, a statement held by itself, a list, a group, a
  chain such as the elifs of an `if`, or a body of lines, an assignment being a
  line.  A lambda whose body is a block is a kind of its own.
- In `Noreturn` an expression is the operations, the calls, and the `if`s and
  `match`es standing as values that it works out, in order; a called lambda is a
  function of the program; the loops of a caller are in hand in what it calls.
- The continuation operators of `Indent` are a parameter; `※` is not one of them.

## Model

| member | source | states |
|---|---|---|
| `Correctness.CompiledAgreesWithWalk` | interp/compile.py:75-335 | for every program, block, state and fuel: where no turn of the walk overran its list, the compiled block gives the same value, return, break, continue or failure and leaves the same frames, lists, frozen names and loop stack; where one did, the compiled run fails with an index error at that very turn, everything there as the walk had it; a literal is nowhere the container of an index that spells no type |
| `Correctness.CompiledKeepsPositions` | interp/compile.py:66-93 | where every node carries a position and no `and`/`or` has a literal on its left standing elsewhere than the operator, the last position and the position of every call are the same too, though the compiler leaves most literal positions out |
| `Laws.BreakEndsItsLoop` | interp/eval.py:6110-6121 | a `break`, however many loops in, that names a loop or stands directly in it ends that loop, what stands behind it in every body not run and the loops in hand as they were |
| `Laws.ContinueGoesRound` | interp/eval.py:6097-6107 | a `continue` in that place goes round that loop from the state it was reached in |
| `Laws.ContinueCutsTheBody` | interp/eval.py:6097-6107 | a loop whose body has a `continue` in it runs, from any state and for all its turns, as the loop whose body ends there |
| `Laws.LeavingNoLoopFails` | interp/eval.py:5322-5336 | in no loop, or in none of the name it gives, it fails |
| `Laws.WhileGoesOn` | interp/eval.py:6110-6121 | a loop whose condition does not hold is over, one whose body comes to its end goes round |
| `Laws.ForEachTakesInOrder` | interp/eval.py:6295-6333 | a foreach binds the elements of its list in order, its name held in every turn; it is over after the last or at a break that is for it, ends as anything else in a turn ends, and lets its name go however it ends |
| `Laws.CallIs` | interp/eval.py:8297-8411 | a call of a function runs its body on the module's frames in a frame of its own; the caller's names, holds and purity are as they were, what was done to the module's names stays done |
| `Laws.ReadIs` | interp/eval.py:3994-4044 | what reading a name answers, refusals first: moved, lent to be changed, impure, then what it is bound to, read through |
| `Agreement.BlockSimulates` | interp/compile.py:324-334 | the code of a block, run from an empty table of temporaries, does what walking its statements one level down does |
| `Agreement.CodeSimulates` | interp/compile.py:331-333 | statement after statement, with the constants of all of them in one table and the temporaries of the earlier ones still standing |
| `Agreement.StmtSimulates` | interp/compile.py:195-322 | the code of any one statement, position write included, ends as the walk of it does |
| `Agreement.ExprSimulates` | interp/compile.py:75-191 | the code of any expression leaves the walked value in the operand it answers, changes no temporary numbered before it, and fails where the walk fails |
| `Agreement.VarSimulates` | interp/compile.py:94-111 | the inlined read - frozen probe, innermost frame, purity question, lookup, reference - is the walk of a name |
| `Agreement.ReadSimulates` | interp/compile.py:104-110 | the lines of a read, from any temporaries |
| `Agreement.ProbeIsLookup` | interp/compile.py:106-109 | a name the innermost frame holds is what the whole lookup answers first |
| `Agreement.BinOpSimulates` | interp/compile.py:127-141 | left, right, position again, then the operator, through its integer table or not |
| `Agreement.LogicSimulates` | interp/compile.py:112-126 | `and`/`or`: the right side is read exactly when the walk reads it, and both sides are held to be truth values |
| `Agreement.CallSimulates` | interp/compile.py:142-148 | arguments left to right, all of their temporaries still held at the call |
| `Agreement.ArgsSimulate` | interp/compile.py:145-145 | no argument clobbers the temporary of one before it |
| `Agreement.MethodSimulates` | interp/compile.py:179-188 | the receiver checked, evaluated, then its arguments |
| `Agreement.AttrSimulates` | interp/compile.py:149-160 | an attribute read |
| `Agreement.SubSimulates` | interp/compile.py:168-178 | a one-index subscript, the type it may spell asked for first |
| `Agreement.IfSimulates` | interp/compile.py:214-238 | the flattened elif chain picks the branch the walk picks |
| `Agreement.AltSimulates` | interp/compile.py:221-238 | each further condition is read only where those before it were false |
| `Agreement.LetSimulates` | interp/compile.py:239-254 | the four steps of a definition in their order, discards and borrows included |
| `Agreement.WhileSimulates` | interp/compile.py:271-278 | the inlined loop turns as long as the walk's does |
| `Agreement.ForEachSimulates` | interp/compile.py:255-270 | set up, run and release of a one-name foreach, the release on every way out, a list grown too short among them |
| `Agreement.ForSimulates` | interp/compile.py:265-267 | turn by turn, up to the one that finds its list too short |
| `Agreement.AssignSimulates` | interp/compile.py:284-299 | the target first, in place where that is what it says, else the right side and the write |
| `Agreement.StmtsAgree` | interp/eval.py:4780-4829 | running nested blocks and called functions compiled or walked makes no difference to what a block does |
| `Agreement.EvalAgrees` | interp/eval.py:3752-3787 | ... nor to what an expression does |
| `Agreement.CallUserAgrees` | interp/eval.py:8297-8411 | ... nor to what a call of a user function does |
| `Agreement.ExecAppend` | interp/compile.py:59-60 | running two stretches of code one after the other |
| `Limits.LiteralLeftExactly` | interp/compile.py:112-126 | with a literal on the left of `and`/`or` the compiled failure stands at the walk's position if and only if the literal and the operator stand at the same place |
| `Limits.LiteralSubscriptRaises` | interp/compile.py:168-178 | indexing a literal, compiled, fails by storing into the tuple of constants wherever the check of the container passes |
| `Limits.LiteralSubscriptDiffers` | interp/compile.py:173-175 | ... which the walk never answers, so the two always differ |
| `Overruns.StmtsFollow` | interp/eval.py:6313-6315 | over any block: a walk that overran no list is the run that reads each turn's element directly, and one that did fails there reading directly, at the same turn with everything the same |
| `Overruns.ForTurnsFollow` | interp/eval.py:6295-6333 | the same over the turns of one foreach |
| `Limits.ShortenedListDiverges` | interp/eval.py:6313-6315 | a block whose foreach drops an element of its two-element list each turn: walked, the second turn goes round to the first element and the block ends well; compiled, it fails at that turn |
| `Limits.OtherIsReadTwice` | interp/eval.py:5376-5382 | for every program, assignment and state: where the write cannot be carried out in place once its other operand is read, the whole right side is read again from the state that left, walked and compiled |
| `Limits.DifferingLengthsReadTwice` | interp/eval.py:5376-5382 | `v ← v + next()`: `next` runs once where the lengths agree and twice where they differ, walked and compiled |
| `Target.LayoutRoundTrip` | interp/compile.py:59-60 | any full code written as indented lines is read back, by the rule that a suite is the lines standing deeper, as that same code |
| `Emit.Emitter.Block` | interp/compile.py:324-334 | the lines the emitter appends read back as exactly the code proved to simulate the walk, and its constants are that code's |
| `Emit.Emitter.Expr` | interp/compile.py:75-191 | what one expression adds to the lines, the constants and the temporary count |
| `Emit.Emitter.Chain` | interp/compile.py:214-238 | the loop over the elif chain, its depth growing under each else, writes the nested choice |
| `Emit.Emitter.ForLines` | interp/compile.py:255-270 | the lines of a foreach |
| `Emit.Emitter.AssignStmt` | interp/compile.py:284-299 | the lines of an assignment |
| `Emit.Emitter.Args` | interp/compile.py:145-145 | the arguments' code and operands, in order |
| `Scopes.Env.Lookup` | interp/env.py:121-149 | the innermost frame that has the name answers, through this environment and those it was made in |
| `Scopes.Env.Update` | interp/env.py:89-104 | the nearest frame that has the name takes the value and no other binding or declaration changes; a name there is not is told |
| `Scopes.Env.Define` | interp/env.py:78-87 | the innermost frame alone takes the value and the new declaration |
| `Scopes.Env.Declaration` | interp/env.py:106-113 | what the definition of the binding a lookup finds said |
| `Scopes.Env.PushFrame` | interp/env.py:64-67 | an empty frame on top |
| `Scopes.Env.PopFrame` | interp/env.py:69-74 | the frames and declarations as they were before the last was pushed; the only frame is not popped |
| `Scopes.StoreIsSeen` | interp/env.py:89-104 | after a store the name looks up as the value, every other name as before, and every declaration stands |
| `Scopes.LookupJoined` | interp/env.py:144-149 | lookup through a stack set on another is the upper's answer where it has one, else the lower's |
| `Lookups.LookupIsEnvLookup` | interp/env.py:121-149 | the lookup of the two semantics is this one |
| `Matching.MatchExactly` | interp/macros.py:71-114 | matching succeeds if and only if some substitution makes the pattern the tree; the bindings are that substitution, on the pattern's holes and no others, up to positions |
| `Matching.MatchSound` | interp/macros.py:71-102 | refilling the pattern with what was found, or any table that extends it, rebuilds the tree up to positions |
| `Matching.MatchComplete` | interp/macros.py:71-102 | where a substitution makes the pattern the tree, matching finds it, repeated holes included |
| `Matching.MatchBindsPieces` | interp/macros.py:71-102 | a hole is bound to the tree's own piece, positions and all, from a place where the pattern has that hole |
| `Matching.FilledAt` | interp/macros.py:121-145 | by path at every depth: filling puts exactly what is bound at every hole and leaves every other node, its position too, as the template has it |
| `Matching.AlikeReflexive` | interp/macros.py:105-114 | a tree with no hole is alike to itself |
| `Matching.AlikeSymmetric` | interp/macros.py:105-114 | being alike is symmetric |
| `Matching.AlikeTransitive` | interp/macros.py:105-114 | being alike is transitive |
| `Matching.Table.MatchField` | interp/macros.py:93-102 | the dictionary is filled as the specification says, holes and all |
| `Matching.Table.MatchFields` | interp/macros.py:97-101 | fields left to right, stopping at the first that does not match |
| `Hygiene.HygieneKeepsMeaning` | interp/macros.py:152-194 | running a template's statements, renamed and filled, in the caller's environment does to the caller's names exactly what it does where the template's own names live apart, and fails exactly where that fails |
| `Expansion.RuleKeepsMeaning` | interp/macros.py:335-350 | so it is for the statements an invocation is answered by where its rule's template is a body |
| `Expansion.FunctionKeepsMeaning` | interp/macros.py:366-385 | and for those a macro function's quotes wrote |
| `Hygiene.BlockAgrees` | interp/macros.py:152-194 | statement by statement, from any pair of environments held jointly |
| `Hygiene.ReadAgrees` | interp/macros.py:121-145 | a filled and renamed expression reads as it does apart, holes seeing only the caller's names |
| `Hygiene.RunStaysFresh` | interp/macros.py:152-194 | over any run of rewritings, each open to what those before it wrote, the counter bounds every number in the program and no new name is in any text before it |
| `Hygiene.RenamedAt` | interp/macros.py:181-190 | by path at every depth, through fields, lists and tuples: the node at a place of the renamed tree is the node at that place, its name the table's exactly where it is a let or a reference whose name is in the table |
| `Hygiene.HygienicEverywhere` | interp/macros.py:152-194 | after the pass no let or reference anywhere is named by a name the text binds, those that were have a number new to the text, and every other name is as it was |
| `Hygiene.DefinedSomewhere` | interp/macros.py:169-179 | the names collected are exactly those a let at some place of the tree binds |
| `Hygiene.RewriteIsFresh` | interp/macros.py:155-194 | the names one rewriting makes are new, pairwise different, and one for each name its template binds |
| `Hygiene.SourceIsNumbered` | interp/macros.py:152-163 | what a source file can spell is bounded whatever the counter |
| `Hygiene.CollectFresh` | interp/macros.py:169-179 | `collect` gives each bound name a number of its own past the counter |
| `Hygiene.Renamer.MakeHygienic` | interp/macros.py:152-194 | the pass with its global counter: renames by a fresh table over exactly the names bound, the counter only moving on |
| `Hygiene.Renamer.CollectTree` | interp/macros.py:169-179 | the closure that fills the table and moves the counter |
| `Expansion.ExpandSettles` | interp/macros.py:252-309 | whatever the macros write, a tree that expands holds no invocation at any depth and no call of a macro that is not also a function |
| `Expansion.DepthOnlyStops` | interp/macros.py:259-265 | the depth bound decides whether there is an answer, never which |
| `Expansion.SelfWritingIsStopped` | interp/macros.py:259-265 | a macro that writes itself is stopped at the bound |
| `Expansion.ExpandingAgain` | interp/macros.py:252-309 | expanding what expansion made changes nothing |
| `Expansion.SettledStays` | interp/macros.py:291-309 | a tree with no macro in it comes back as it was |
| `Expansion.StatementsOnlyOnLines` | interp/macros.py:284-319 | a list takes the place of a single tree if and only if the invocation it comes down to, by a chain of single answers, is on its own line and answered by statements; every other node stays one node, of its kind, name and number of fields |
| `Expansion.LinesExactly` | interp/macros.py:259-270 | statements come out of an invocation only where a chain of single answers ends in some, and where it does nothing else comes out |
| `Sorts.ExpansionKeepsSorts` | interp/macros.py:252-319 | where no invocation stands on a line held anywhere but in a body - in the tree, in what rules write and what macro functions answer - an expansion that succeeds leaves every field at every depth holding what its kind of node says: one tree, a held statement, a list, a group, a chain, or a body of lines and assignments |
| `Sorts.SingleStaysSingle` | interp/macros.py:300-319 | so in every node of the result, wherever it stands, a field that holds one tree holds no list |
| `Sorts.ApplyKeepsSort` | interp/macros.py:322-385 | whatever one invocation is replaced by, by rules or by a function, is one tree or a body of its grammar |
| `Sorts.MatchLearns` | interp/macros.py:71-102 | a hole is bound to a line only where a line may stand in the pattern |
| `Covered.ChainAndAssignmentsAreCovered` | interp/macros.py:252-319 | an `if` with an elif and an else, assignments in its bodies, and an invocation that writes one: of its sorts before and after, and expanded as written |
| `Expansion.StatementsRefusedAsValue` | interp/macros.py:291-319 | an invocation that writes statements, met as any field, item or part, refuses whatever holds it |
| `Expansion.HeldLineBecomesList` | interp/macros.py:284-290 | but where a line held in a field, as under `@expect`, has an invocation answered by statements, the field becomes that list unrefused |
| `Expansion.RulesAnswer` | interp/macros.py:335-363 | an invocation is answered by the template of the first rule that fits, its own names renamed by new numbers and its holes filled with what was matched, as statements or as one tree; where none fits, it is told whether any rule takes so many arguments |
| `Expansion.FirstRuleDecides` | interp/macros.py:335-350 | the first rule some substitution makes the arguments of decides, and none is found exactly where there is none |
| `Expansion.Expander.ExpandTree` | interp/macros.py:252-309 | the recursion with its counter, against the specification |
| `Expansion.Expander.ExpandItems` | interp/macros.py:291-299 | the list built item by item, spliced or refused |
| `Expansion.BodyExpands` | interp/macros.py:284-299 | a body of lines, each with no macro in it or an invocation answered by settled statements or by one settled tree, comes to the lines that stay and, in the place of each other, all it is answered by and in order |
| `Expansion.NodeExpands` | interp/macros.py:300-309 | a node whose fields have no macro in them or are invocations answered by one settled tree is that node with each such tree in its field |
| `Layout.LaysOutExactly` | interp/layout.py:235-268 | where fields are otherwise fit for C, a struct has a layout if and only if no struct it reaches reaches itself |
| `Layout.LayoutHasNoRing` | interp/layout.py:235-268 | a layout found inside of structs `seen` rules out every path back to them or onto itself |
| `Layout.RefusalHasRing` | interp/layout.py:235-268 | a refusal names a path that comes back |
| `Layout.SeenOnlyRefuses` | interp/layout.py:235-268 | a layout that is found does not depend on what it was asked for inside of |
| `Layout.LayOut` | interp/layout.py:243-289 | size a multiple of the alignment, which is a power of two no larger than eight |
| `Layout.TypeLayout` | interp/layout.py:169-240 | the same for every type |
| `Layout.ScalarsAsInC` | interp/layout.py:169-240 | the size and alignment of truth values, bytes, sizes and floats, and what has none |
| `Layout.IntegerAsInC` | interp/layout.py:144-166 | an integer of 8, 16, 32 or 64 bits takes so many and aligns to its size, and no other width has a layout |
| `Layout.FastAsInC` | interp/layout.py:126-138 | a fast integer takes what the machine does best |
| `Layout.StructIsTight` | interp/layout.py:264-289 | fields in declared order, each at the least offset its alignment allows after the one before it, the alignment the largest of theirs, the size the next multiple of it |
| `Layout.FieldsApart` | interp/layout.py:264-283 | no field reaches into a later one or past the end |
| `Layout.NoFieldSooner` | interp/layout.py:276-281 | no aligned placement in order puts any field sooner |
| `Layout.NoStructSmaller` | interp/layout.py:286-289 | nor makes a smaller struct that keeps an array of it aligned |
| `Layout.LeafSits` | interp/layout.py:169-289 | every scalar through any nesting of structs and arrays lies inside the whole at a multiple of its own alignment |
| `Layout.LeafAddressAligned` | interp/layout.py:169-289 | so it does at every address that is a multiple of the whole's alignment |
| `Layout.LeavesApart` | interp/layout.py:169-289 | two scalars reached by different paths share no byte |
| `Layout.AlignUpIsLeast` | interp/layout.py:121-123 | the least multiple not below |
| `Layout.StatedWidthLayout` | interp/layout.py:144-166 | the doubling loop: 8, 16, 32 and 64 bits and no other, size and alignment the bytes they take |
| `Layout.LayOutType` | interp/layout.py:169-240 | the recursion and the product loop |
| `Layout.LayOutStruct` | interp/layout.py:243-289 | the loop over the fields |
| `Pack.PackingLosesNothing` | interp/pack.py:53-147 | a value of a type made of integers, truth values, enums, arrays and structs is written if and only if every integer in it fits, in exactly the type's size, and reading it at the layout's offsets gives it back |
| `Pack.PaddingIsZero` | interp/pack.py:119-147 | each field's bytes are in the result whatever was written after them, and every byte no field covers is zero |
| `Pack.FieldsAreWritten` | interp/pack.py:136-147 | over any fields that stand apart, from any buffer |
| `Pack.ElementAt` | interp/pack.py:79-98 | element k of an array is written at k times the element's size |
| `Pack.TableIsAnArray` | interp/pack.py:174-180 | an array that owns structs, handed to `writev`, is written as C lays an array of them out |
| `Pack.IntRoundTrip` | interp/pack.py:33-45 | what is written reads back, two's complement where signed |
| `Pack.EveryBytesAreWritten` | interp/pack.py:33-45 | every string of bytes is what the integer it reads back as is written as, signed or not |
| `Pack.WrittenExactly` | interp/pack.py:33-45 | an integer is written if and only if some bytes of that size read back as it, and as those |
| `Pack.IntegersWritten` | interp/pack.py:53-116 | the range each integer type takes, by its name, and that nothing but an integer is taken for one |
| `Pack.IsFaithful` | interp/pack.py:53-116 | the same at any nesting, inside of any structs |
| `Pack.WriteValue` | interp/pack.py:53-116 | `pack_value` against its specification |
| `Pack.WriteStruct` | interp/pack.py:119-147 | `pack_struct`, a buffer of zeros written field by field |
| `Pack.WriteItems` | interp/pack.py:94-98 | elements appended in order |
| `Pack.IovBytes` | interp/pack.py:150-196 | the loop over a run of a `writev`, against its specification |
| `Pack.RunWrittenExactly` | interp/pack.py:150-196 | a run is written if and only if it is bytes already, a struct that can be written, or an array that owns its elements each of which is a byte or such a struct; its bytes are theirs one after another |
| `Pack.RowIsNotWritten` | interp/pack.py:174-175 | the same elements are written where the array owns them and not where it looks into another's storage |
| `Modules.Loader.Load` | interp/modules.py:140-222 | on any finite graph, rings included, every file the roots reach becomes one module and no other does, each binding pointing at its target's module; else the refusal names a reached file that cannot be opened, and never a ring |
| `Modules.Loader.Take` | interp/modules.py:169-218 | what one file and all it imports adds: dense indices, earlier modules untouched, every new one bound and reached |
| `Modules.Loader.BindAll` | interp/modules.py:202-217 | the bindings of one module, resolved and loaded in turn |
| `Modules.LoadedExactly` | interp/modules.py:169-222 | loaded is reached, both ways |
| `Modules.Locate` | interp/errors.py:170-184 | the last file that begins at or before the line; with fewer than two the line as it is |
| `Modules.FileAt` | interp/modules.py:94-111 | the same answer looked for from the front |
| `Modules.AskedIn` | interp/modules.py:207-212 | a binding's shifted line is of its module's file, at the line its author counts |
| `Modules.LocateLoaded` | interp/modules.py:189-200 | after a load of two files or more, the shifted line of any token is put back to its file and line |
| `Modules.ShiftedLineIsFound` | interp/errors.py:179-183 | the shifted line is in that file's stretch of the joined text and no other's |
| `Noreturn.AcceptedNeverPasses` | interp/__main__.py:2437-2485 | a block `_block_leaves` accepts is never come to the end of in any run, in whatever loops, where nothing that may fail stands under an `@expect`, no break is hidden - in a value, a condition, a `catch`, an inner loop or a function called - and names are what they are taken for |
| `Noreturn.AcceptsExactly` | interp/__main__.py:2437-2485 | where nothing is hidden from it either way, `_block_leaves` accepts a block if and only if no run comes to its end |
| `Noreturn.TwiceExpectedBreakPasses` | interp/__main__.py:2491-2495 | a break under one `@expect` is seen and under two is not, and leaves the loop |
| `Noreturn.JumpIs` | interp/eval.py:5322-5336 | a break or a continue outside any loop fails, as does one that names a loop it is not in |
| `Noreturn.EndsExactly` | interp/__main__.py:2437-2504 | some run of a block, blocks in its values included, ends a given way if and only if its text says it may |
| `Noreturn.NoBlockBreakNoEscape` | interp/__main__.py:2486-2504 | a body `_block_breaks` denies breaks in leaves no loop, unless one is hidden |
| `Noreturn.ExpectedFailurePasses` | interp/__main__.py:2446-2447 | `@expect` over a failure is accepted as leaving and goes on |
| `Noreturn.CaughtBreakPasses` | interp/__main__.py:2488-2504 | a break in a `catch` is not seen, and leaves the loop |
| `Noreturn.CrossingBreakPasses` | interp/__main__.py:2497-2498 | a labelled break that crosses a loop is not seen |
| `Noreturn.CallNotRunPasses` | interp/__main__.py:2462-2462 | a call by name that hands over too few arguments is accepted, answers a function of the rest, and comes back |
| `Noreturn.ValueBreakPasses` | interp/__main__.py:2486-2504 | a break in an `if` standing as a value is not seen, and leaves the loop |
| `Noreturn.LeakedBreakPasses` | interp/__main__.py:2571-2610 | a break under the else of a function outside any loop passes the check for that, and leaves the loop of whoever calls it |
| `Noreturn.ValueReturnGoesUnnoticed` | interp/__main__.py:2547-2568 | a `return` in a value before an endless loop satisfies the check and comes back |
| `Noreturn.BreaksEscape` | interp/eval.py:6083-6107 | a break that leaves a statement is one its text holds or one that leaks from a function it calls |
| `Noreturn.CallsBreakWithin` | interp/eval.py:8371-8411 | over calls of any depth, no call breaks a loop but those the text of the functions says |
| `Noreturn.NoreturnKeepsItsWord` | interp/__main__.py:2536-2568 | where every `@noreturn` function is accepted by what the others promise, nothing it relies on is hidden, and none returns from a statement or a value, none comes back however deep calls go, rings of them included |
| `Noreturn.ReturnGoesUnnoticed` | interp/__main__.py:2448-2449 | a `return` satisfies the check and comes back |
| `Noreturn.RunsEndAsSaid` | interp/__main__.py:2437-2473 | no run of a statement ends in a way its text does not say |
| `Noreturn.SaidEndsHappen` | interp/__main__.py:2437-2473 | every way it says, some run does |
| `Units.ChainsAreShort` | interp/__main__.py:3378-3395 | where the check accepts, a decay chain has no more steps than there are user's units |
| `Units.NoRings` | interp/__main__.py:3378-3395 | and no unit stands in for itself round any ring |
| `Units.RingFrom` | interp/__main__.py:3384-3395 | the walk from one declaration finds a ring exactly where it meets its own name within the bound |
| `Units.Check` | interp/__main__.py:3378-3395 | the check accepts exactly where no declaration's walk does |
| `Units.AcceptedExactly` | interp/__main__.py:3378-3395 | the check accepts if and only if no chain, of any length, comes back to its start or to another unit shown by its start's name |
| `Units.AcceptedIsRingless` | interp/__main__.py:3378-3395 | so where no user's unit is shown as another unit it accepts if and only if there is no ring |
| `Units.NameAloneIsRefused` | interp/__main__.py:3386-3392 | the check goes by names: a unit shown as the builtin it stands in for is refused, and there is no ring |
| `Units.ReachIsEnough` | interp/units.py:49-77 | with at most 64 user's units the bounded walk answers whether any unit on the chain shares the dimension |
| `Units.ReachExactly` | interp/units.py:49-77 | for n user's units, every accepted arrangement is answered in full if and only if n is at most 64 |
| `Units.LongChainIsMissed` | interp/units.py:67-75 | a ladder of more than 64 of them is accepted and its top missed |
| `Units.Memory.StandsInFor` | interp/units.py:49-77 | the remembered answer is the walk's |
| `Units.Memory.Ask` | interp/units.py:49-77 | so it is over every sequence of questions |
| `Units.Search` | interp/units.py:62-75 | the loop along `decay` |
| `Indentation.ProcessIndentation` | interp/lexer.py:817-928 | erasing INDENT and DEDENT gives the input back; they stand only after a line that ended, outside brackets and not continued, but for the DEDENTs that close the file; an INDENT stands only where a line is deeper than its block, a DEDENT only where a block is open, and whatever begins a line stands at the innermost block's column; at the end every block is closed |
| `Indentation.LaidIsBalanced` | interp/lexer.py:817-928 | INDENTs and DEDENTs balance, no prefix closes more than it opened, and the open columns ascend from zero |
| `Indentation.BlocksAscend` | interp/lexer.py:834-926 | on every prefix the open blocks are as many as the counts say |
| `Indentation.BreakThatEndsNothing` | interp/lexer.py:858-884 | a break in brackets or after a continuation operator ends no line |
| `Indentation.BreakEndsLine` | interp/lexer.py:858-884 | a break outside brackets, after a line that does not go on, ends a line, whatever blank lines came before |
| `Indentation.ContinuedGoesOn` | interp/lexer.py:863-884 | a line that goes on goes on over any further blank lines |
| `Indentation.GoesOnExactly` | interp/lexer.py:863-884 | a line is continued if and only if its last word, blank lines between or not, is an operator of the table, `and`, `or` or `=`, and no operator right after `※` |
| `Indentation.TakeBreaks` | interp/lexer.py:886-898 | a run of blank lines, the last giving the column |
| `Indentation.MoveTo` | interp/lexer.py:908-918 | blocks closed and opened to the column of the next line |
| `Indentation.CloseTo` | interp/lexer.py:900-906 | blocks closed down to a column |
| `Indentation.GoesOnAfter` | interp/lexer.py:863-884 | the two scans back and the continuation rule |
| `Indentation.StrippedTheSame` | interp/lexer.py:931-933 | stripping takes out all that was put in |
| `Lends.Ledger.StartLend` | interp/eval.py:5116-5128 | every origin of the lend is marked, to be changed or only read as the lend says, nothing else is marked otherwise, and marks and ledger still agree |
| `Lends.Ledger.EndLend` | interp/eval.py:5146-5161 | what no other live lend lists is released, the object where no live lend has it |
| `Lends.Ledger.EndLends` | interp/eval.py:5061-5063 | all that is due at a statement ends, and a name is marked lent exactly when some live lend lists it |
| `Lends.RunBlock` | interp/eval.py:5085-5128 | at every boundary of a straight-line block a name is marked if and only if some statement run borrows from it and either a statement still to come reads its borrower, or the borrower was read before and nothing from there on reads it; the mark is as the last to borrow made it |
| `Lends.ReadersFindItOut` | interp/eval.py:4835-4911 | a later statement that reads the borrower finds the origin still lent |
| `Lends.StaysLentExactly` | interp/eval.py:5085-5128 | when a block is done a name is still lent if and only if some lend that lists it has a borrower last read before it was bound |
| `Lends.LentForGood` | interp/eval.py:5116-5128 | a statement reads an old name, the next lends to a new binding of it that nothing reads: the origin stays lent |
| `Lends.LastReadIsLast` | interp/eval.py:4897-4903 | `last` is the last statement that reads the name |
| `Lends.PopSplits` | interp/eval.py:5089-5090 | taking what is due out of the ledger |
| `Reshape.ReshapeIsRowMajorCyclic` | interp/eval.py:6951-7065 | the element at any index in range is the data's at its row-major place, going round, unless the data starts partway into a shared list |
| `Reshape.SlicedViewExactly` | interp/eval.py:7025-7026 | a view of such data keeps that promise if and only if the shared list repeats itself at the offset |
| `Reshape.SlicedViewStrays` | interp/eval.py:7025-7026 | the middle two of four reshaped answer the first of the four |
| `Reshape.CopyIsRowMajorCyclic` | interp/eval.py:7030-7046 | a copy always keeps it |
| `Reshape.SharesExactly` | interp/eval.py:7015-7028 | data an array holds is looked into where it is if and only if there is enough of it and more than one dimension, each index then standing on its row-major cell; values of its own are never shared |
| `Reshape.AnswersInRange` | interp/eval.py:7030-7065 | a reshaped array answers exactly the indices its shape has |
| `Reshape.ShapedIsRowMajor` | interp/eval.py:7030-7046 | `_build_shaped` at any offset |
| `Reshape.ViewIsRowMajor` | interp/eval.py:7049-7065 | `_build_view` at any offset |
| `Reshape.RowMajorInjective` | interp/eval.py:7036-7045 | different indices are at different places |
| `Reshape.RowMajorOnto` | interp/eval.py:7036-7045 | every place has its index |
| `Reshape.WriteThrough` | interp/value.py:1574-1584 | writing one cell of a view changes exactly one cell of the shared list, which no other index of the view reads |
| `Reshape.OneCellChanges` | interp/value.py:1574-1584 | and exactly one element of the view |
| `InPlace.InPlaceIsThreading` | interp/eval.py:5353-5389 | where the ordinary form answers, in place leaves the same elements if and only if each answer, stored when its turn comes, is kept as it is; where the ordinary form fails, in place is not done either |
| `InPlace.AssignInPlace` | interp/eval.py:5353-5389 | the loop, the other operand being the same array or not: each answer stored before the next is asked for, stopping where the operator fails or the array refuses; different lengths are left to the ordinary form |
| `InPlace.HaltedAsItWas` | interp/eval.py:5383-5389 | stopped partway, the array is as it was if and only if every element reached would have been written as it stood |
| `InPlace.ComparisonRefused` | interp/value.py:1588-1620 | comparing any array of numbers: the ordinary form answers truth values, in place is refused at the first |
| `InPlace.HalfDivided` | interp/eval.py:5383-5389 | a division that fails at the second element: the ordinary form leaves the array alone, in place has written the first |
| `InPlace.GrowingIsJoining` | interp/eval.py:5391-5404 | growing in place is the join of the two if and only if they may be joined and every element stores as itself after those before it |
| `InPlace.ExtendInPlace` | interp/eval.py:5391-5404 | the loop, the array added being the same or not |
| `InPlace.ThreadIs` | interp/eval.py:3060-3103 | the ordinary form: an answer exactly where every element has one, element for element |
| `InPlace.OperandsInOrder` | interp/eval.py:5383-5389 | the elements stand on the side their array is written on, whichever side is assigned to |
| `InPlace.SidesDiffer` | interp/eval.py:5383-5389 | `v ← v ÷ 7` and `v ← 7 ÷ v` |
| `EnumMatch.Match.Dispatch` | interp/eval.py:6588-6647 | whatever was asked before, the table picks the walk's arm or refusal if and only if no arm of another enumeration stands behind the one the subject reaches |
| `EnumMatch.Match.DispatchAll` | interp/eval.py:6588-6674 | for arms that name one enumeration, over every sequence of subjects |
| `EnumMatch.BuildPlan` | interp/eval.py:6624-6647 | the table holds the first arm naming each value and the first `_`, or the first misnamed arm is refused |
| `EnumMatch.WalkDecides` | interp/eval.py:6649-6674 | the walk picks the first arm naming the value, else the first `_`, unless a misnamed arm stands before it |
| `EnumMatch.WalkIsTheDecision` | interp/eval.py:6649-6674 | the walk's choice is the one choice that fits the description: the first arm naming the value, else the first `_`, unless a misnamed arm stands before it |
| `EnumMatch.MisnamedArmIsRefused` | interp/eval.py:6624-6647 | an arm of another enumeration behind the subject's own: the walk runs the first, the table cannot be built |
| `EnumMatch.CheckedRefusesExactly` | interp/__main__.py:904-946 | a checked match refuses a subject of its enumeration if and only if it has no `_` and no arm names the value, which no named value is |

## Left out

- Emit.Emitter.Block: the `try` around each statement and the lines that open and close the scope of its temporaries are not among the lines, nor the watchdog, the end of resources' lives, pending lends and the discarded-lambda warning; statement lines stand at one depth.
- Agreement.CallUserAgrees: binding arguments - too few, too many, threaded over a container, coerced - is one opaque operation, which may refuse; functions made inside functions, whose environment is not the module's, are left out.
- Target.LayoutRoundTrip: Python refuses text indented more than 100 levels, so a block with a chain of about a hundred elifs cannot be compiled at all; the reading back here has no such bound.
- A `foreach` over a borrow, which holds its variable as borrowed or not at all rather than as a loop variable.
- The copy of the position kept on the call stack: the same lines write it.
- Programs of more than one module in the compiled-against-walked theorems: the walk asks for a module's key before a local, and refuses a module read as a value, where compiled code finds the name in the innermost frame and asks neither; and whether an attribute or a method goes into a module is decided when a block is compiled.
- `match`, units, a `while` that binds, and a `foreach` over several names, as compiled code: both sides hand them to the same opaque operation.
- Operations not modelled are taken to do the same whichever way blocks run, and so is the cache of compiled blocks.
- Matching against a tree that itself holds holes, which raises in the source.
- Expansion setting fields in place: trees are values, so two references to one tree are not told apart. The wording of refusals is not modelled.
- Binders the hygiene pass does not touch: `foreach` names, lambda parameters, references and destructuring. The fragment run in `Hygiene` is lets, assignments, names, operators, literals and lines, over integers; the type a let states is not held to.
- Layouts asked for outside `@repr(C)`, where an integer may be of any width and a size need not be a multiple of the alignment.
- Floats and arrays of several dimensions as packed values; the resolver built from the values about to be packed.
- Renaming of types between modules and the refusal of what a module does not export.
- Products, quotients and roots of units: a unit's dimension is given.
- Ring refusals over several sessions, where a redefined unit leaves the old object behind in another's chain.
- What a name was held for before it was lent; lends across calls and nested blocks; which uses of a binding escape.
- InPlace.InPlaceIsThreading: compares elements; the element type the ordinary form's new array is labelled with, and what a binding that states a type does with that array, are not modelled. Which values an array keeps, coerces or refuses is a parameter.
- Dimensions with no entry, which the grammar does not write.
- Noreturn.NoreturnKeepsItsWord: whether a name is what the check takes it for, and a call is handed all its function takes, is a mark on the statement rather than worked out from the bindings.
- Noreturn.AcceptedNeverPasses: conditions and operands are arbitrary in a run, so it says nothing of a block saved by a condition that happens never to hold.
- Error texts, suggestions and positions outside the compiled-against-walked theorems.
- The parser, value coercion, hashing and the standard library are not part of this model, nor floats and tolerant comparison.
