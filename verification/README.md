# A model of the dbsql compiler and virtual machine, with proofs

dbsql compiles SQL to programs of a small stack machine and runs them against ordered key/value
tables. This project models the parts of that path whose correctness is not visible in any single
function, and proves that they agree with a simpler meaning: three-valued logic for expressions,
nested loops over rows for joins, set and bag algebra for compound SELECT, the image of a table for
its indices, lexicographic order for encoded keys, the Gregorian calendar for dates.

Where the code does not do what its documentation or its callers expect, the code is modelled as it
is. Such a property is stated with its exact condition, or an input on which it fails is given, and
the section "What the code does differently" collects these places.

## How the files fit together

| files | subject |
|---|---|
| `Values`, `Expressions`, `Machine` | stack cells, SQL expressions and their three-valued meaning, one step and runs of the machine |
| `Layout`, `Fragments`, `ExprCorrect` | the code of an expression with resolved addresses, and what running it does |
| `ComparisonTypes` | which comparisons are made as text, read off the emitted opcodes, and what cells, CASE and BETWEEN mean in plain terms |
| `StackBound`, `StackHeight` | how high the stack gets, and the one height every address of expression code has |
| `Builder`, `ExprGenerator` | the op array with labels and back-patching, and the three generators that fill it |
| `Agreement`, `Joins`, `CodedLoops`, `JoinCode`, `WherePlan`, `JoinGenerator`, `JoinProgram` | WHERE splitting, table masks, nested loops with LEFT JOIN flags: meaning, what the loops compute, code, generator, whole program |
| `JoinRows` | the rows of a join, said row by row: combinations of rows and what their columns show |
| `Substitution`, `Flattening` | subquery flattening |
| `Compound` | UNION, UNION ALL, EXCEPT, INTERSECT through temporary tables, LIMIT and OFFSET |
| `Constraints`, `RowWrites` | conflict resolution and index maintenance of INSERT, UPDATE, DELETE |
| `ConflictOutcomes` | what a write does when a constraint is violated, clause by clause |
| `KeyCodec`, `SortableReals`, `IndexScan` | the order-preserving key format, the text form of its numbers, and the equality scans bounded by it |
| `Records`, `MergeSort` | the record format, the bin merge sort |
| `Dates`, `TablePrinter`, `Utf8Text`, `Triggers` | Julian days, the CREATE TABLE printer, `substr`, trigger expansion |
| `Scanners`, `StatementEnds` | the two SQL scanners, and which words and semicolons end a statement |

Code that the source writes as loops over mutable state is a method over a class or an array here,
proved against a specification function; the laws are lemmas about those functions. The central
construction is the one for expressions: `ExprGenerator` shows that the generators, with labels that
are resolved later, produce exactly the code of `Layout`; `ExprCorrect` shows by induction over
expressions what a machine does that runs this code anywhere inside a program; `JoinCode` and
`JoinGenerator` reuse both for whole joins.

## Assumptions

- Integers are unbounded, also where comparison subtracts them; only the record number inside a key
  is a 32-bit number with its sign bit and byte order (`KeyCodec.Int32`).
- Helpers whose code is foreign or floating point are parameters about which nothing is assumed:
  number formatting, `atoi`, `strcmp`-like comparison, arithmetic on cells, SQL functions
  (`Values.Helpers`, `Expressions.Env`). The sortable text form of numbers is a parameter of `KeyCodec`
  and `IndexScan`, assumed to be free of NUL bytes and to sort as the numbers do over the numbers it
  tells apart (`KeyCodec.Codec.Faithful`); `SortableReals` proves this of the actual text form. The
  compare function of the sorter is assumed to be a total preorder (`MergeSort.Preorder`); NSORT is 30.
- In `SortableReals` numbers are reals. Scaling by powers of 64 and splitting off digits is exact in
  IEEE 754 doubles; the one sum that rounds is a parameter with the properties of round-half-even
  (`SortableReals.Rounds`).
- Storage is an ordered map. For positioning a cursor the documented contract at src/sm.c:580-597 is
  used: on a miss the cursor may stop on either neighbour, whichever the storage prefers.
- Linked lists are sequences; records on the stack of the write path are the rows they encode (the
  encoding itself is the subject of `Records`).

## What the code does differently

- A value-position IN whose left operand is NULL leaves the 1 it pushed first under its result
  (src/cg_expr.c:1464-1470). `ExprCorrect.ValuePreserved` and `JumpPreserved` hold if and only if
  no such IN is evaluated. It is also the only form whose code has no stack heights: the two ways to
  its end differ by one cell, and `StackHeight.ValueHeightsExist` and `JumpHeightsExist` say that the
  code of an expression has one height at every address if and only if none of its value positions
  holds an IN.
- BETWEEN always compares numerically, also for text operands, unlike `<=` and `>=` on them
  (src/cg_expr.c:1478-1487). The meaning in `Expressions` follows the code.
- The mask set has 32 entries. A table beyond them gets mask 0, and a term that needs only such
  tables is coded at a level where they are not positioned (src/cg_where.c:108-120).
  `JoinGenerator.TestedWhereBound` gives the condition, and `JoinGenerator.CodedTooEarly` a query over
  34 tables in which it happens.
- ON terms are appended to WHERE with a flag that does not say whose they are (src/cg_select.c:330-344),
  and the loops take a flagged term for an ON term of whichever LEFT JOIN binds its last table. So an
  ON term of a LEFT JOIN about the left table alone removes left rows instead of pairing them with
  NULLs (`Joins.OnTermTestedEarly`), and an ON term of a later inner join about the right table of a
  LEFT JOIN is tested before the match flag and lets the NULL row through
  (`Joins.InnerOnLetsNullsThrough`). `Joins.LoopIsCodedAnswer` says for every query what the loops
  compute: the definition of the join under that reading of its terms, which is the intended one if and
  only if every ON term of a LEFT JOIN is first bound by its own right table and no other flagged term
  is first bound by the right table of a LEFT JOIN (`Joins.CodedIsSame`).
- Records of nested loops are filled in for the first 32 FROM entries only. In the others the index
  cursor is 0, so a LEFT JOIN that finds no match there moves cursor 0 to the NULL row as well as its own
  (src/cg_where.c:571-589 and 1415-1427). Cursor 0 is the outermost table of a top-level SELECT: its
  columns turn to NULL and its loop ends. `CodedLoops.Loop` says for every query what the loops compute
  then, and `JoinProgram.RunJoin` that the program reports it; it is the join's definition if there is no
  LEFT JOIN from entry 32 on, if cursor 0 is not one of its cursors, or if no such LEFT JOIN comes to its
  NULL row. For joins without terms over cursor 0 the first condition is also necessary
  (`CodedLoops.TermFreeJoins`); `CodedLoops.WideJoinLosesRow` is a join of 33 tables that loses a row.
- UPDATE opens all indices when its own conflict clause or an index says REPLACE, but does not look at
  the conflict clause of the transaction, which the constraint checks do obey; under that clause it
  deletes rows whose entries stay in the unopened indices (src/cg_update.c:368-378, `Constraints.ReplaceBehindClosedIndex`).
- When UPDATE meets a row that an earlier REPLACE removed, the record number stays on the stack
  (src/cg_update.c:395-400). `RowWrites.Vm.UpdateRow` and `UpdateRows` count these cells.
- LIMIT counters are set behind the Rewind that skips an empty temporary table
  (src/cg_select.c:1709-1710). In a UNION ALL to the right of an empty set operation they are counted
  without ever having been set (`Compound.CounterNeverSet`); `Compound.Machine.Select` says exactly
  when.
- The text form of numbers in index keys is meant to compare as the numbers do, but adds one half to the
  scaled fraction first (src/common/str.c:763-770). If the fraction is within 2^-54 of one half the sum
  rounds to 1 and the text is the one for numbers that are too large: two numbers are out of order if and
  only if the smaller is such a number and the larger is not (`SortableReals.OutOfOrder`,
  `SortableReals.RoundsUp`). The double before 32 sorts behind 33 (`SortableReals.GreaterThanLarger`),
  and 1 and the double after it have the same key (`SortableReals.SameText`). Numbers whose scaled
  fraction has at most 53 binary places, all integers below 2^47 among them, have different texts in the
  right order (`SortableReals.ExactOrder`, `SortableReals.IntegersExact`).
- Flattening replaces a column of a subquery, which has no type, by an expression that may be text or
  numeric, and so changes which comparison is used: the cell `1.0` is not equal to `'1'` as text and
  becomes equal to it as a number (`Substitution.TypeChangeMatters`). A comparison is kept if and only
  if it stays text or stays numeric, or both comparisons agree on the two values
  (`Substitution.ComparisonKept`). A minus sign over such a column that becomes a number literal turns
  into a negated literal; `Substitution.MinusKept` says when the value is kept.
- 0300-03-01 is converted to its Julian day and back to 0300-02-29; every other day from year 0 on
  survives (`Dates.YmdInverts`).
- A shift by months first computes the Julian day, which drops year, month and day, and reads them back
  (src/cg_date.c:690-701). So one month after 0300-03-01 is 0300-03-29, also where year, month and day
  were valid (`Dates.ShiftDay`, `Dates.ShiftFromLostDay`). `weekday` on a day number below -1 can land a
  week late (`Dates.LandingIs`).
- Before a statement codes triggers it asks whether there are any, and that question looks for the first
  trigger of the table on the trigger stack instead of the one that matches (src/cg_trigger.c:735-737).
  While the first trigger of a table is being coded, a nested statement on the table fires none of its
  other triggers. `Triggers.GateDecides` is the exact condition, `Triggers.HeadHidesOthers` an input.
- `__ident_length` adds the two enclosing quotes only for a name that itself holds a quote, so it
  undercounts by two every other name that is written in quotes, such as `1` (`TablePrinter.WrittenFits`,
  `TablePrinter.CountTooShort`); the room for separators beside it makes up for that
  (`TablePrinter.GenCreateTableStmt`).

## Model

| member | source | states |
|---|---|---|
| ExprCorrect.ValuePreserved | src/cg_expr.c:1306-1524 | for every expression, program, row state and stack: the value code runs to its end with exactly the expression's three-valued value pushed, if and only if no value-position IN with a NULL left operand is evaluated |
| ExprCorrect.JumpPreserved | src/cg_expr.c:1564-1752 | for every expression and both senses: the jump code ends with an unchanged stack, at `dest` exactly when the truth value equals the sense or is unknown with `jump_if_null` set and behind itself otherwise, if and only if nothing it evaluates leaks |
| ExprCorrect.ValueRuns | src/cg_expr.c:1306-1524 | the induction behind it, also for leaking expressions: the code always ends right behind itself, with one cell if nothing leaks and at least two otherwise |
| ExprCorrect.WhensRuns | src/cg_expr.c:1501-1514 | the branches of CASE leave the result of the first WHEN that holds and jump behind the CASE, or leave the stack as it was and fall through |
| ExprCorrect.CaseRuns | src/cg_expr.c:1492-1524 | CASE with and without a base operand and ELSE pushes one value and removes its base on every path |
| ExprCorrect.JumpRuns | src/cg_expr.c:1564-1752 | both exits of the jump code are balanced and are chosen by the truth value, for AND, OR and NOT with their flipped NULL flags too |
| ExprCorrect.ConnectiveJumps | src/cg_expr.c:1588-1600 | AND and OR evaluate the right operand only if the left one does not decide, and the NULL flag given to the left operand is the right one in all eight combinations |
| ExprCorrect.BetweenJumps | src/cg_expr.c:1631-1645 | the jump form of BETWEEN, with its hard-coded relative jumps, is balanced on all three paths and decides as the conjunction of both bounds |
| ExprCorrect.BetweenDecides | src/cg_expr.c:1736-1750 | testing the lower bound with the flipped NULL flag and then only the upper one gives the verdict of the three-valued conjunction |
| ExprCorrect.InJumps | src/cg_expr.c:1619-1630 | both jump forms of IN are balanced, also when the left operand is NULL |
| ExprCorrect.CompareJumps | src/cg_expr.c:1601-1613 | a comparison jump is taken as three-valued comparison says, with the numeric or text opcode the operand types call for |
| ExprCorrect.NegationHolds | src/cg_expr.c:1672-1718 | jumping if false by the negated operator agrees with three-valued comparison, NULL operands included |
| ExprCorrect.LogicTables | src/vdbe.c:1782-1818 | the two nine-entry tables of OP_And and OP_Or compute minimum and maximum in the order false, unknown, true (section 8.12 of SQL-92) |
| ExprCorrect.ValueInLeak | src/cg_expr.c:1464-1470 | `NULL IN (...)` in value position leaves two cells, 1 and NULL, in every program and state |
| ComparisonTypes.ComparisonIsText | src/cg_expr.c:1253-1293 | a comparison has a text type if and only if no form that decides its operands is numeric and the right operand has a type |
| ComparisonTypes.TypedByText | src/cg_expr.c:1242-1293 | with typed operands: if and only if none of the deciding forms of either side is numeric, which are both sides of a comparison, the operand of AS, the results and the ELSE of CASE, and otherwise the form itself |
| ComparisonTypes.ValueOpcode | src/cg_expr.c:1384-1407 | a comparison in value position ends with its own relation as the text opcode in exactly these cases and as the numeric one otherwise |
| ComparisonTypes.JumpOpcode | src/cg_expr.c:1601-1613 | as a jump it ends with the same choice of opcode, and with the opposite relation when jumping if false |
| ComparisonTypes.IntegersCompare | src/vdbe.c:1660-1753 | a numeric comparison of two integer cells is 1 or 0 as the integers are related |
| ComparisonTypes.NumericStringsCompare | src/vdbe.c:1660-1753 | a string that looks like an integer compares with an integer cell as that integer, on either side |
| ComparisonTypes.TextsCompare | src/vdbe.c:1660-1753 | a text comparison of two strings is 1 or 0 as the string comparison says |
| ComparisonTypes.StringAgainstColumn | src/cg_expr.c:1253-1293 | `'9'` is less than a numeric column holding 10 and not less than a text column holding `'10'` |
| ComparisonTypes.BetweenIsTwo | src/cg_expr.c:1478-1487 | BETWEEN is the conjunction of both comparisons wherever those are numeric |
| ComparisonTypes.CaseTakes | src/cg_expr.c:1492-1524 | CASE without a base takes the first WHEN that is true, else its ELSE, else NULL |
| ComparisonTypes.BaseTakes | src/cg_expr.c:1492-1524 | CASE with a base takes the first WHEN that equals it as a number |
| ComparisonTypes.Connectives | src/vdbe.c:1782-1818 | AND is true if and only if both operands are and false if and only if one is, OR the other way round |
| ComparisonTypes.LiteralCells | src/cg_expr.c:1322-1440 | a literal is its text without quotes, an integer cell if it fits 32 bits; a minus sign before a number becomes part of it |
| ComparisonTypes.StrictInNull | src/cg_expr.c:1384-1477 | arithmetic, shifts, `~` and IN are NULL for NULL; IN looks for the spelling of its operand |
| Builder.Vdbe.AddOp | src/vdbe_method.c:103-140 | appends one instruction and gives its address; a label that is already resolved is replaced by its address |
| Builder.Vdbe.MakeLabel | src/vdbe_method.c:157-178 | a fresh negative label, different from all earlier ones and unresolved |
| Builder.Vdbe.ResolveLabel | src/vdbe_method.c:189-206 | every earlier use of the label is redirected to the current address and nothing else changes |
| Builder.Vdbe.ChangeP2 | src/vdbe_method.c:298-309 | patches one instruction; out of range it does nothing |
| ExprGenerator.ExprCode | src/cg_expr.c:1306-1524 | appends exactly the code of the value layout at the current address, whatever labels are open, and leaves no label of its own behind |
| ExprGenerator.ExprIfTrue | src/cg_expr.c:1564-1647 | appends exactly the jump layout with sense true for any destination, resolved or still a label |
| ExprGenerator.ExprIfFalse | src/cg_expr.c:1659-1752 | the same with sense false |
| ExprGenerator.CaseValue | src/cg_expr.c:1492-1524 | the CASE code after patching the end label and every jump over a branch is the layout with plain addresses |
| ExprGenerator.JumpLabels | src/vdbe_method.c:189-206 | resolving a label turns the jump code for the label into the jump code for the address |
| ExprGenerator.SkipPatched | src/cg_expr.c:1588-1593 | the local label with which a connective skips its right operand is resolved to the first address behind the whole connective |
| ExprGenerator.ValueHasNoLabels | src/cg_expr.c:1306-1524 | finished value code holds no unresolved label |
| StackBound.Exec | src/vdbe.c:586-598 | the interpreter loop on a program that only jumps forward terminates, and before every instruction the stack is at most its initial height plus the program counter (the height itself is the subject of `StackHeight`) |
| StackBound.ValueForward | src/cg_expr.c:1306-1524 | expression code only jumps forward and pops and pushes so that no instruction grows the stack by more than one |
| StackBound.JumpForward | src/cg_expr.c:1564-1752 | the same for jump code whose destination lies behind it |
| StackBound.StepBound | src/vdbe_method.c:876-891 | each step of such a program moves the program counter forward and grows the stack by at most one, which makes the number of instructions a sufficient stack size |
| StackBound.StepEffect | src/vdbe.c:586-598 | every instruction of expression code changes the stack height by one fixed amount, whether it jumps or falls through, and goes to its target or to the next address |
| StackHeight.ValueHeightsExist | src/cg_expr.c:1306-1524 | heights that all instructions of value code agree on, one at its start and one more at its end, exist if and only if the expression holds no IN in value position |
| StackHeight.JumpHeightsExist | src/cg_expr.c:1564-1752 | the same for jump code, with the starting height at both exits; a test by IN at the top of the condition is allowed |
| StackHeight.ValueHasOneHeight | src/cg_expr.c:1306-1524 | any two runs of the same value code that come to the same address have grown the stack by the same number of cells, whatever rows, cells and paths led there |
| StackHeight.JumpHasOneHeight | src/cg_expr.c:1564-1752 | the same for jump code |
| StackHeight.ValueInUnsteady | src/cg_expr.c:1464-1470 | no assignment of heights fits the code of a value-position IN, for any left operand and any right side |
| StackBound.Evaluate | src/vdbe_method.c:856-929 | generating the code of an expression and running it from an empty stack ends with exactly its value on the stack, if and only if nothing leaks |
| Agreement.EvalAgrees | src/cg_where.c:142-167 | the value of an expression depends only on the tables the mask computation collects from it |
| WherePlan.ExprSplit | src/cg_where.c:73-94 | fills consecutive slots with the conjuncts, never more than there is room for, and touches no other slot |
| WherePlan.SplitIsConjuncts | src/cg_where.c:73-94 | if the slots suffice they hold all conjuncts left to right, and the count stays below the number of slots if and only if they do |
| WherePlan.ConjunctsDecide | src/cg_where.c:73-94 | a WHERE expression is true if and only if each of its conjuncts is |
| WherePlan.TermsAreClauses | src/cg_select.c:258-372 | the terms of the split ON and WHERE clauses hold together if and only if the clauses do, join by join |
| WherePlan.MaskSet.GetCursorBitmask | src/cg_where.c:103-119 | a known cursor keeps its bit, a new one gets the next free bit, and a new one beyond 32 gets none |
| WherePlan.MaskSet.ExprTableUsage | src/cg_where.c:142-167 | the mask is the set of bits of exactly the tables the expression mentions |
| WherePlan.BitsStable | src/cg_where.c:103-119 | masks taken earlier stay valid while the mask set grows |
| WherePlan.EnoughBits | src/cg_where.c:103-119 | all mentioned tables have a bit if and only if there are at most 32 |
| Joins.LoopIsCodedAnswer | src/cg_where.c:1318-1376 | for every query: nested loops that test each term at the earliest level binding its tables, and track a match flag for LEFT JOIN, yield exactly the rows and order of the join's definition with each flagged term read as an ON term of the LEFT JOIN that binds its last table; they yield the intended answer if and only if both readings answer alike |
| Joins.CodedIsSame | src/cg_where.c:1322-1343 | the two readings are the same query if and only if ON terms of a LEFT JOIN, and no other flagged terms, are first bound by its right table |
| Joins.DecidedEmpty | src/cg_where.c:1322-1343 | a WHERE term that fails once its tables are bound leaves no result row below, so testing it there loses nothing |
| Joins.OnTermTestedEarly | src/cg_where.c:1322-1343 | a LEFT JOIN whose ON term tests a column of the left table only: over one left row where that column is NULL the answer has one row and the loops yield none |
| Joins.InnerOnLetsNullsThrough | src/cg_where.c:1322-1343 | a LEFT JOIN followed by an inner join whose ON term tests a column of the right table: with no right rows the answer is empty and the loops yield one row |
| CodedLoops.UnspoiltLoop | src/cg_where.c:1318-1427 | as long as no LEFT JOIN from FROM entry 32 on comes to its NULL row, the coded loops yield the rows of the plain nested loops |
| CodedLoops.NeverSpoilt | src/cg_where.c:571-589 | that never happens on any tables if there is no LEFT JOIN from entry 32 on |
| CodedLoops.ElsewhereLoop | src/cg_where.c:1415-1427 | nor does it matter if cursor 0 is not one of the join's cursors |
| CodedLoops.TermFreeJoins | src/cg_where.c:1415-1427 | a join without terms whose outermost loop is over cursor 0 is answered on all tables if and only if there is no LEFT JOIN from entry 32 on; otherwise there are tables with two answers of which one is reported |
| CodedLoops.WideJoinLosesRow | src/cg_where.c:1415-1427 | 33 tables, the last in a LEFT JOIN without a match: two answers, one row reported |
| JoinCode.LoopRuns | src/cg_where.c:1066-1428 | the machine running the code of the remaining levels appends exactly the rows of the coded loops, with the second NULL row of levels from 32 on, keeps the stack, the outer cursors but for a spoilt cursor 0, and the outer flags, and leaves at the end of the code |
| JoinCode.RowsRun | src/cg_where.c:1403-1409 | the Rewind/Next loop of one level runs its body once per row from the current one on, until the last row or until cursor 0, if it is the loop's own, is moved to the NULL row; it sets the match flag exactly if some row passed the early terms |
| JoinCode.PassRuns | src/cg_where.c:1352-1376 | one pass below the early terms: sets the flag, tests the late terms, runs the inner levels |
| JoinCode.NullRuns | src/cg_where.c:1415-1427 | behind the loop of a LEFT JOIN level whose flag is not set the inner code runs once more with NULLs in its own table, and from level 32 on in cursor 0 too |
| JoinCode.TestFlag | src/cg_where.c:1415-1419 | the flag test jumps behind the code of the NULL row, whichever length it has, if and only if the flag is set |
| JoinCode.TermsRun | src/cg_where.c:1326-1343 | a list of coded terms falls through if all are true and otherwise goes to the continue address, with the stack unchanged |
| JoinGenerator.WhereBegin | src/cg_where.c:436-1386 | for full scans: emits the heads of all levels with their labels open, each term coded at the level its mask asks for |
| JoinGenerator.OpenLevel | src/cg_where.c:835-1376 | one level: flag, Rewind, the terms that are due, and for LEFT JOIN only ON terms first and the others behind the flag |
| JoinGenerator.EmitTerms | src/cg_where.c:1326-1343 | exactly the due terms are coded, in order, and struck off, so none is coded twice |
| JoinGenerator.AssignSources | src/cg_where.c:571-589 | the records of the first 32 levels get index cursor -1, all others keep the 0 they were allocated with |
| JoinGenerator.WhereEnd | src/cg_where.c:1393-1428 | closing the levels inside-out resolves both labels of each, leaves outer labels alone and completes the code of the whole nest |
| JoinGenerator.CloseLevel | src/cg_where.c:1403-1427 | one level closed around finished inner code is the finished code of one level more, with one or two NULL rows as its record says |
| JoinGenerator.PlanMasks | src/cg_where.c:528-532 | the masks computed before the loops place every term as comparing table sets would, for the tables that have a bit |
| JoinGenerator.TestedWhereBound | src/cg_where.c:1326-1343 | a term is never coded too late, and is coded exactly at the earliest level that binds it if and only if the last table it needs has a bit or is the first table |
| JoinGenerator.CodedTooEarly | src/cg_where.c:103-119 | a query over 34 tables, 33 of them mentioned: some term is coded in the outermost loop, above the one that positions its table |
| JoinProgram.ConstantConjuncts | src/cg_expr.c:437-484 | a WHERE clause is constant if and only if each of its conjuncts is |
| JoinProgram.ConstantMentionsNothing | src/cg_expr.c:437-484 | a constant expression mentions no table |
| JoinProgram.JumpIsTerms | src/cg_expr.c:1659-1752 | the jump code of an AND is the jump code of its conjuncts, one after the other |
| JoinProgram.CodeJoin | src/cg_where.c:436-1427 | fails only with more terms than slots; otherwise appends the test of a constant WHERE clause and the complete nested-loop code of the planned query, with the label behind the loops resolved |
| JoinProgram.GuardChangesNothing | src/cg_where.c:522-526 | testing a constant WHERE clause once in front of the loops reports what testing its terms inside would |
| JoinProgram.JoinRuns | src/cg_where.c:436-1427 | for every query with at most 32 mentioned tables, and any tables: running the generated program to its end reports exactly the rows of the coded loops, in order, and restores the stack |
| JoinProgram.JoinIsAnswer | src/cg_where.c:436-1427 | with no LEFT JOIN from entry 32 on, or cursor 0 elsewhere or unspoilt, these are the rows of the join's definition, LEFT JOIN included, with the terms read as `Joins.Coded` says; as written if every ON term is bound by its right table; also without FROM |
| JoinProgram.RunJoin | src/cg_where.c:436-1427 | generating a join and running the program from an empty stack ends at its end with an empty stack and these rows, which list the combinations of rows the join is made of; it fails only with more terms than slots |
| JoinRows.AnswerIs | src/cg_where.c:1318-1427 | a row is in the join's definition if and only if it comes from a combination of cursors, each on a row that satisfies its ON terms or, in a LEFT JOIN without such a row, on the NULL row, that WHERE accepts as a whole |
| JoinRows.RowsShowCombinations | src/vdbe.c:3384-3461 | every reported row shows such a combination and every combination is shown: a result that is a column or the record number of a table is that cell or number of its row, and NULL on the NULL row |
| JoinRows.UnmatchedShowsNull | src/vdbe.c:3384-3461 | where nothing in the table of an entry satisfies its ON terms the entry is a LEFT JOIN and all its columns are NULL, the record number included |
| Substitution.SubstEval | src/cg_select.c:1843-1900 | an expression over a subquery's columns evaluates as its substituted form does over the subquery's own tables, if every column exists, no comparison changes between text and numeric, and no minus sign comes to stand before a number literal |
| Substitution.ComparisonKept | src/cg_select.c:1843-1900 | one comparison of such operands is kept if and only if it stays text or stays numeric, or both ways of comparing agree on the two values |
| Substitution.MinusKept | src/cg_select.c:1843-1900 | a minus sign whose operand becomes a number literal is kept if and only if reading the literal with its sign gives the negated value |
| Substitution.TypeChangeMatters | src/cg_select.c:1843-1900 | the cell `1.0` of a numeric column compared with `'1'`: false over the materialised subquery, true after the substitution, for any helpers that tell the two apart as text and not as numbers |
| Flattening.SpliceFrom | src/cg_select.c:2091-2109 | the FROM list after the splice is the outer entries before, the subquery's entries, the outer entries after |
| Flattening.FlattenSame | src/cg_select.c:1983-2177 | the flattened query yields the same sequence of rows as the outer query over the materialised subquery |
| Flattening.FlatIsInner | src/cg_select.c:2077-2177 | the flattened query is again a well-formed inner join over distinct cursors, so flattening can be repeated |
| Flattening.MiddleSame | src/cg_select.c:2077-2177 | the loops over the subquery's tables produce, piece by piece, what the outer query produces on the subquery's rows |
| Flattening.TailSame | src/cg_select.c:2077-2177 | the loops behind the splice agree once the row of the subquery is fixed |
| Flattening.RejectedEmpty | src/cg_select.c:2165-2177 | a combination the subquery's WHERE rejects yields nothing in the flattened query |
| Compound.YieldIsAlgebra | src/cg_select.c:1614-1804 | for any left-to-right chain the rows are the union, difference or intersection of the parts as sets, sorted and without duplicates, and the bag sum for UNION ALL |
| Compound.ListingUnique | src/cg_select.c:1614-1804 | a sorted listing without duplicates is determined by its set of rows |
| Compound.InsertAllMeans | src/cg_select.c:595-600 | filling a temporary key table yields the sorted listing of the union with its contents |
| Compound.RemoveAllMeans | src/cg_select.c:621-626 | deleting rows through the table yields the sorted listing of the difference |
| Compound.CommonMeans | src/cg_select.c:1782-1799 | scanning one table and looking up in the other yields the sorted listing of the intersection |
| Compound.SliceSnoc | src/cg_select.c:544-554 | counting OFFSET and LIMIT row by row computes the slice of the whole sequence |
| Compound.SliceIs | src/cg_select.c:1484-1518 | LIMIT and OFFSET leave the rows from number OFFSET on, at most LIMIT of them, and fewer only where the rows end |
| Compound.Machine.LimitRegisters | src/cg_select.c:1484-1518 | fresh counters set to the negated limit and offset, if the code that sets them is reached |
| Compound.Machine.MemIncr | src/vdbe.c:4467-4478 | increments a counter that exists and reports whether it became positive |
| Compound.Machine.InnerLoop | src/cg_select.c:519-560 | for the k-th row: outputs it if the slice contains position k, stops once the limit is reached, and is stuck if its counters were never set |
| Compound.Machine.Scan | src/cg_select.c:519-560 | a whole scan appends the slice of its rows continuing where earlier parts that share the counters stopped |
| Compound.Machine.Select | src/cg_select.c:1556-1804 | any chain, limit, offset and destination: the destination receives exactly the slice of the chain's rows, reused temporary tables were empty, and the only failure is a limit above a UNION ALL whose leftmost set operation is empty while a later part has rows |
| Compound.Machine.SelectThroughTable | src/cg_select.c:1634-1730 | UNION and EXCEPT through a temporary table, whether it is reused or new |
| Compound.Machine.SelectIntersect | src/cg_select.c:1731-1804 | INTERSECT through two temporary tables |
| Compound.CounterNeverSet | src/cg_select.c:1709-1710 | a chain with LIMIT that counts with a counter that was never set |
| Constraints.AcceptedKeeps | src/cg_insert.c:740-1005 | a write that is accepted keeps exactly the rows that do not clash with it in the key or a unique index, and the row it replaces |
| Constraints.WriteKeepsLegal | src/cg_insert.c:740-1068 | after an accepted write every unique index again holds at most one row per key without NULLs |
| Constraints.FillMeans | src/cg_insert.c:775-824 | the NOT NULL pass changes only NULLs of checked columns and leaves none of them |
| Constraints.NeverIgnored | src/cg_insert.c:931-985 | after a REPLACE has deleted rows no later index can end in IGNORE |
| Constraints.WriteImages | src/cg_insert.c:1029-1068 | the image of each index after the write is the image of the kept rows, minus the old entry, plus the new one; it is unchanged for an index the write does not use |
| Constraints.UpdateIsSelective | src/cg_update.c:193-227 | an index outside `idx_used` has the same entry for the old and the new row |
| Constraints.ClosedMeansKept | src/cg_update.c:360-386 | if UPDATE leaves an index closed and no REPLACE comes from elsewhere, the write deletes no row |
| Constraints.ClosedIndexStale | src/cg_update.c:360-386 | an index left closed is right after the write if and only if the write deleted no row |
| Constraints.ReplaceBehindClosedIndex | src/cg_update.c:368-386 | a table and an UPDATE that deletes a row while an index is closed, because the transaction's clause is REPLACE |
| Constraints.LinkIndex | src/cg_build.c:2156-2173 | a new index goes in front, or behind all others if its action is REPLACE; nothing is lost and REPLACE stays last |
| ConflictOutcomes.StatementClauseWins | src/cg_insert.c:783-789 | a conflict clause of the statement makes the one of the transaction irrelevant, and without one that of the transaction acts as the statement's |
| ConflictOutcomes.NullOutcome | src/cg_insert.c:775-824 | the first NULL in a NOT NULL column: ABORT without any clause, and otherwise what the governing clause says, REPLACE by the default value if there is one |
| ConflictOutcomes.KeyOutcome | src/cg_insert.c:830-886 | a record number in use: the same, and under REPLACE the other row is not among those that are left |
| ConflictOutcomes.IndexOutcome | src/cg_insert.c:917-1003 | the first taken key of a unique index with no REPLACE before it: ABORT without any clause, and otherwise what the governing clause says |
| ConflictOutcomes.LaterIndexOutcome | src/cg_insert.c:931-936 | behind a REPLACE, IGNORE replaces and FAIL aborts |
| ConflictOutcomes.OrderKeepsActions | src/cg_insert.c:921-936 | with REPLACE last in the list and no clause elsewhere, the first index in which a key is taken acts as it was declared |
| Constraints.OpensEnoughMostly | src/cg_update.c:360-386 | opening the indices that UPDATE opens can only do harm without a clause of its own, under a transaction that says REPLACE, to an index it does not change |
| ConflictOutcomes.NoOutcome | src/cg_insert.c:740-1005 | without a violation the row is accepted as it is and no row is removed |
| ConflictOutcomes.SameKeyMeans | src/cg_insert.c:917-1003 | rows clash in an index if and only if they agree in all its columns and none of these is NULL |
| ConflictOutcomes.LegalMeans | src/cg_insert.c:917-1003 | in a legal table two rows differ in some column of every unique index, or one of them is NULL |
| ConflictOutcomes.AcceptedInsert | src/cg_insert.c:740-1068 | after an accepted INSERT the table holds the new row and exactly the other rows that do not clash with it |
| ConflictOutcomes.AcceptedUpdate | src/cg_update.c:395-452 | after an accepted UPDATE it holds the new row under its number, not the old number if that changed, and loses other rows only to clashes |
| RowWrites.Vm.ConstraintChecks | src/cg_insert.c:740-1005 | with computed stack offsets: goes on, ignores or halts exactly as the reference decision says; on IGNORE table, indices and stack are as before the statement's row, and on FAIL table and indices are |
| RowWrites.Vm.NotNullChecks | src/cg_insert.c:775-824 | the NOT NULL checks overwrite the right stack cells and pop exactly the working entries on IGNORE |
| RowWrites.Vm.KeyCheck | src/cg_insert.c:830-886 | the record number check, with its own deletion of a clashing row's index entries |
| RowWrites.Vm.UniqueCheck | src/cg_insert.c:917-1003 | one unique index: finds the one rival, removes it from the table and all open indices under REPLACE, and returns the cursor to the row being updated |
| RowWrites.Vm.IndexChecks | src/cg_insert.c:888-1004 | all indices: the stack holds exactly one key per used index, or is back at its base |
| RowWrites.Vm.PushNewKey | src/cg_insert.c:900-915 | the offsets used for copying columns pick the record number and the columns of the new row however many keys are already pushed |
| RowWrites.Vm.IsUnique | src/vdbe.c:2825-2902 | reports a rival exactly if another row has the key, and then leaves its record number |
| RowWrites.Vm.RowIndexDelete | src/cg_delete.c:469-496 | removes the current row's entry from every used open index and nothing else |
| RowWrites.Vm.RowDelete | src/cg_delete.c:429-441 | removes a row and its entries; a row that does not exist is skipped |
| RowWrites.Vm.CompleteInsertion | src/cg_insert.c:1029-1068 | adds each pushed key to its own index although they lie on the stack in reverse, stores the row and restores the stack |
| RowWrites.Vm.Insert | src/cg_insert.c:740-1068 | one row inserted as the reference decision says; unless ABORT or ROLLBACK halts it every index equals the image of the table |
| RowWrites.Vm.UsedIndices | src/cg_update.c:193-227 | an index is used if the record number changes or one of its columns is set |
| RowWrites.Vm.OpenForUpdate | src/cg_update.c:360-386 | opens the used indices, or all of them if the statement or an index says REPLACE |
| RowWrites.Vm.UpdateRow | src/cg_update.c:395-452 | one row updated as the reference decision says; all indices are right afterwards if and only if all were open or no row was deleted; a vanished row leaves its record number on the stack, and FAIL changes nothing |
| RowWrites.Vm.UpdateRows | src/cg_update.c:360-452 | a whole UPDATE keeps every index equal to the image of the table, under the condition that its REPLACE actions are visible to the opening code; FAIL keeps the rows updated before it |
| RowWrites.Vm.DeleteRows | src/cg_delete.c:278-366 | a DELETE removes exactly the listed rows and keeps every index |
| RowWrites.Vm.Run | src/cg_insert.c:740-1068 | any interleaving of INSERT, DELETE and UPDATE with any conflict actions keeps the table legal and every index equal to its image, until ABORT or ROLLBACK halts a statement; a halt by FAIL keeps them too, since FAIL becomes ABORT once a row may have been replaced |
| KeyCodec.KeyOrder | src/vdbe.c:2188-2285 | encoded keys with record numbers compare as their tuples: NULL before numbers before text, field by field, then by record number |
| KeyCodec.KeyInjective | src/vdbe.c:2188-2285 | equal encodings come from equal fields and equal record numbers |
| KeyCodec.FieldsOrder | src/vdbe.c:2188-2285 | the field part alone compares lexicographically whatever follows it |
| KeyCodec.FieldPrefix | src/vdbe.c:2242-2258 | no encoded field is a proper prefix of another |
| KeyCodec.FieldsPrefix | src/vdbe.c:2188-2285 | a shorter encoded tuple is a byte prefix of a longer one if and only if it equals its leading fields |
| KeyCodec.TerminatedOrder | src/vdbe.c:2242-2258 | NUL-terminated contents compare as the contents do, ties by what follows |
| KeyCodec.RecnoOrder | src/vdbe_method.c:1351-1363 | stored record numbers compare as signed numbers, negative ones included |
| KeyCodec.RecnoRoundTrip | src/vdbe_method.c:1351-1363 | decoding a stored record number gives it back |
| KeyCodec.CmpValues | src/sm.c:41-56 | the byte comparison is the sign of the unsigned lexicographic order with the shorter key first |
| KeyCodec.MakeKey | src/vdbe.c:2188-2285 | the two passes over the cells write exactly the encoding of the typed fields, and NULL is noticed exactly if there is one |
| KeyCodec.CellBytes | src/vdbe.c:2242-2258 | the key of a cell is `a`, `b` or `c`, its contents and a NUL; a string that looks like a number has the key of that number in a numeric column and of its text in a text column |
| KeyCodec.CellOrder | src/vdbe.c:2206-2258 | in a numeric column numbers and strings that look like numbers sort by value and before other strings, in a text column by their text; NULL comes first in both |
| KeyCodec.CellKeysJoin | src/vdbe.c:2206-2258 | the key of several cells is the keys of the cells one behind the other |
| SortableReals.RealAsSortable | src/common/str.c:693-783 | with the loops of the source, in a buffer of fourteen characters: the text of the scaled number, ended by a NUL |
| SortableReals.Scale | src/common/str.c:720-758 | the eight loops that multiply or divide by powers of 64 find the exponent and the fraction that stepping one power at a time does |
| SortableReals.NormalOrder | src/common/str.c:720-758 | of two numbers the larger has the larger exponent, or the same and the larger fraction |
| SortableReals.MantissaTells | src/common/str.c:773-782 | the digits of two fractions compare as the fractions if the larger needs no more digits than there are |
| SortableReals.OutOfOrder | src/common/str.c:676-783 | two texts are out of order if and only if the smaller number is not negative and its fraction reaches 1/2 - 2^-54 and that of the larger does not |
| SortableReals.RoundsUp | src/common/str.c:763-770 | exactly from that fraction on the sum is not below 1 |
| SortableReals.ExactOrder | src/common/str.c:676-783 | numbers whose scaled fraction has at most 53 binary places have different texts in their order, negative ones too |
| SortableReals.SortableIsFaithful | src/common/str.c:676-783 | over these numbers the text form has what the key format asks of it |
| SortableReals.IntegersExact | src/common/str.c:676-783 | integers below 2^47 in size are such numbers |
| SortableReals.SortableFits | src/common/str.c:688-690 | at most thirteen characters, none of them NUL |
| SortableReals.SomeTexts | src/common/str.c:708-783 | 0 is `000W`, 1 is `0G1X`, -1 is `-F~V` |
| SortableReals.GreaterThanLarger | src/common/str.c:763-770 | 32 - 2^-48 has a greater text than 33 |
| SortableReals.SameText | src/common/str.c:763-770 | 1 and 1 + 2^-52 have the same text |
| KeyCodec.SameKeySameNulls | src/vdbe.c:2188-2285 | equal keys come from fields with NULLs in the same places |
| IndexScan.IdxCursor.MoveTo | src/vdbe.c:2680-2741 | ends on the first entry not below the key, whichever neighbour the storage stopped on |
| IndexScan.IdxCursor.MoveLt | src/vdbe.c:2680-2741 | ends on the last entry below the key, or reports that there is none |
| IndexScan.IdxCursor.ScanForward | src/cg_where.c:899-1000 | visits exactly the entries whose leading columns equal the searched values, in index order, for a full key and a proper prefix; none if a value is NULL |
| IndexScan.IdxCursor.ScanReverse | src/cg_where.c:899-1000 | visits the same entries in reverse order |
| IndexScan.IncrOrder | src/vdbe.c:2295-2306 | comparing with the incremented key is comparing with the key or having it as a prefix |
| IndexScan.Compared | src/vdbe.c:3710-3739 | all byte comparisons a scan makes mean comparisons of leading columns with the searched values |
| IndexScan.Sorted | src/sm.c:41-56 | in byte order the entries below, equal to and above the searched values are three consecutive stretches |
| IndexScan.IdxIsNull | src/vdbe.c:3750-3772 | skipping encoded fields by their NUL bytes finds a NULL exactly if one of the first n columns is NULL |
| MergeSort.Sort | src/vdbe.c:4100-4131 | the comparison orders the result, a permutation of the list, and keeps the order of elements that compare equal |
| MergeSort.Carry | src/vdbe.c:4107-4124 | adding one element keeps every bin but the last empty or of size 2^i and sorted; the bins, from the highest down, hold consecutive parts of the elements taken so far, the oldest in the highest |
| MergeSort.SortedMerge | src/vdbe.c:422-448 | the relinking loop yields the merge of both lists |
| MergeSort.MergeTies | src/vdbe.c:422-448 | merging keeps equal elements in order, those of the first list first |
| MergeSort.MergeSorted | src/vdbe.c:422-448 | merging two sorted lists is sorted and adds nothing |
| MergeSort.StableUnique | src/vdbe.c:4100-4131 | being sorted and stable determines the result |
| MergeSort.TiesPermute | src/vdbe.c:4100-4131 | stability as stated implies being a permutation |
| MergeSort.TiesAre | src/vdbe.c:4100-4131 | the elements that keep their order are those that compare not greater both ways |
| Records.MakeRecord | src/vdbe.c:2040-2113 | writes header offsets and data of every field as the format says |
| Records.ColumnReadsBack | src/vdbe.c:3303-3368 | reading field k of a record below 2^24 bytes gives the field that was written, NULL distinct from the empty string |
| Records.WidthsAgree | src/vdbe.c:2052-2061 | the offset width the reader infers from the total size is the one the writer chose before adding the header, for every number of fields and bytes |
| Records.WidthsAreLeast | src/vdbe.c:2052-2061 | both are the narrowest width that holds the size of the record, or three bytes |
| Records.ColumnOfShort | src/vdbe.c:3325-3338 | a record that ends before the first offset of a column is corrupt, one that ends before the second is let through |
| Records.LowBytesBack | src/vdbe.c:3328-3337 | an offset that fits its width is read back |
| Dates.NextDay | src/cg_date.c:269-305 | the Julian day grows by exactly 1 from each day to the next, from year 0 on, with leap years and the century rule |
| Dates.Weekdays | src/cg_date.c:620-635 | 2000-01-01 is day 2451545 and a Saturday, and each day has the weekday after that of the day before |
| Dates.YmdInverts | src/cg_date.c:419-438 | converting a Julian day back gives the date if and only if the date is not 0300-03-01 |
| Dates.OneDayLost | src/cg_date.c:419-438 | on that day the result is 0300-02-29 |
| Dates.CenturyCorrection | src/cg_date.c:426-428 | the truncated quotient by 36524.25 recovers the century correction, off by one on one day only |
| Dates.JulianInverts | src/cg_date.c:429-436 | the quotients by 365.25 and 30.6001 recover year, month and day exactly |
| Dates.RatioTruncates | src/cg_date.c:290-294 | converting the exact quotient of two numbers to int truncates as the integer formulas here do |
| Dates.WeekdayLands | src/cg_date.c:620-635 | `weekday N` moves 0 to 6 days ahead to the first day with that weekday, and not at all the second time |
| Dates.DateTime.ComputeJd | src/cg_date.c:269-305 | sets the Julian day from the date, or from 2000-01-01 if there is none, only if it is not already valid |
| Dates.DateTime.ComputeYmd | src/cg_date.c:419-438 | sets the date from the Julian day only if it is not already valid |
| Dates.CurrentDay | src/cg_date.c:419-438 | a value that shows a date is read as that date if and only if its year, month and day are valid or the date is not 0300-03-01 |
| Dates.LandingIs | src/cg_date.c:620-635 | with the remainder of C the move ends on weekday N for every day number, and is the move of `WeekdayLands` if and only if the number is at least -1 or its weekday is 0 or above N; otherwise it is a week late |
| Dates.DateTime.Weekday | src/cg_date.c:620-635 | the modifier on whatever date is read makes exactly that move and drops the stale fields |
| Dates.ShiftDay | src/cg_date.c:690-701 | a value that shows a date is shifted by months from that date if and only if the date is not 0300-03-01, or both forms were valid |
| Dates.ShiftFromLostDay | src/cg_date.c:690-701 | from a valid year, month and day 0300-03-01 it is shifted from 0300-02-29 |
| Dates.DateTime.AddMonths | src/cg_date.c:690-709 | from the date read back from the Julian day, a month shift of any size lands in months 1 to 12, exactly that many months away, on the same day number |
| Scanners.GetToken | src/sql_tokenize.c:243-452 | the index loops find the token the definition says, and for an operator the longest one in the list of spellings, with its kind |
| Scanners.LongestOperator | src/sql_tokenize.c:264-372 | where an operator begins, and no comment, the token is the longest operator that begins there, with the kind the list of spellings gives it |
| Scanners.SameOperator | src/sql_tokenize.c:264-372 | two operators have the same kind if and only if they are spelled alike or are `=` and `==` or `!=` and `<>` |
| Scanners.NumberIs | src/sql_tokenize.c:393-424 | a number is its digits, a fraction and an exponent as far as they are there, and a float if and only if it has one of the last two |
| Scanners.KindByStart | src/sql_tokenize.c:243-452 | blanks, comments, strings, bracketed names, numbers and words are told by how they begin |
| Scanners.NoOperator | src/sql_tokenize.c:347-452 | everything else is illegal, one character or two after an exclamation mark |
| Scanners.CaseIgnored | src/sql_tokenize.c:199-203 | a keyword is matched by its letters or their capitals |
| Scanners.CompleteStmt | src/sql_tokenize.c:639-793 | the loop computes the automaton of the second scanner over the whole text |
| Scanners.CompleteStep | src/sql_tokenize.c:663-791 | one turn of the loop: a final answer, or one step of the automaton on the next piece |
| Scanners.WordsAgree | src/sql_tokenize.c:728-782 | the hand-written keyword tests, on any case, recognise exactly the words the keyword comparison does |
| Scanners.TokenSame | src/sql_tokenize.c:243-452 | one token of the first scanner moves the second scanner's state as its class does, however the second one splits it |
| Scanners.StringSame | src/sql_tokenize.c:373-388 | a string with doubled quotes, one token to the first scanner and several to the second, has the same effect |
| Scanners.NumberSame | src/sql_tokenize.c:393-424 | so has a number with fraction or exponent |
| Scanners.ScannersAgree | src/sql_tokenize.c:639-793 | for legal text the second scanner answers yes if and only if its automaton run over the tokens of the first ends in the start state outside an open comment |
| StatementEnds.Heading | src/sql_tokenize.c:597-637 | before the first semicolon the automaton is in its trigger state if and only if the words so far begin with CREATE, perhaps behind EXPLAIN, any number of TEMP, and TRIGGER |
| StatementEnds.PlainEnds | src/sql_tokenize.c:597-637 | for other statements the first semicolon completes the statement and nothing else does |
| StatementEnds.TriggerEnds | src/sql_tokenize.c:597-637 | a CREATE TRIGGER is complete exactly behind the first END between two semicolons |
| StatementEnds.BlanksDrop | src/sql_tokenize.c:597-637 | white space and comments change nothing anywhere |
| TablePrinter.IdentLength | src/cg_build.c:1076-1089 | computes the length of the name, its doubled quotes, and the enclosing quotes only if the name holds a quote |
| TablePrinter.WrittenFits | src/cg_build.c:1076-1089 | the written name is exactly this long, except two characters longer if and only if it is quoted without holding a quote |
| TablePrinter.CountTooShort | src/cg_build.c:1076-1089 | the name `1` is counted as one character and written as three |
| TablePrinter.IdentPut | src/cg_build.c:1098-1124 | writes the name, quoted if it is a keyword, starts with a digit or holds other characters, with quotes doubled |
| TablePrinter.GenCreateTableStmt | src/cg_build.c:1134-1171 | for all names the text is the complete statement and stays inside the computed size |
| TablePrinter.TwoColumns | src/cg_build.c:1134-1171 | the statement of a table with two columns, letter by letter: on one line if the names are short, with a line for each column otherwise, and CREATE TEMP TABLE for a temporary table |
| TablePrinter.NameReadsBack | src/cg_build.c:1098-1124 | scanning a written name gives one token, and unquoting the token gives the name |
| TablePrinter.StatementReadsBack | src/cg_build.c:1134-1171 | this holds for the table name and every column name at its place in the statement |
| TablePrinter.UnquoteDoubled | src/common/str.c:227-255 | unquoting undoes doubling |
| Utf8Text.Length | src/sql_fns.c:96-116 | counts the bytes that start a character |
| Utf8Text.Substr | src/sql_fns.c:144-201 | for all bytes and both arguments, negative ones too: the bytes from the first to the last clamped character start, though the loop moves its own bounds |
| Utf8Text.SubstrSelects | src/sql_fns.c:157-170 | the text begins at character p, at the last -p characters, or at the first, and ends n characters on or where the text ends |
| Utf8Text.SubstrLength | src/sql_fns.c:157-170 | how many characters it has for every p and n |
| Utf8Text.SliceLength | src/sql_fns.c:144-201 | the result has exactly as many characters as were asked for |
| Utf8Text.SlicesJoin | src/sql_fns.c:144-201 | adjacent substrings join to the whole |
| Triggers.GateDecides | src/cg_trigger.c:714-742 | a statement codes all the triggers that match it and are not being coded, and what their steps fire, if and only if there are none or the first trigger of its table is not on the stack; otherwise it codes none |
| Triggers.FiresOnly | src/cg_trigger.c:714-742 | something fires if and only if the table has a row trigger for the event and the time that is not being coded and, for an UPDATE, lists no columns or one that is set |
| Triggers.OtherColumnsFireNothing | src/cg_trigger.c:671-686 | an UPDATE of columns none of its triggers list codes none of them |
| Triggers.HeadHidesOthers | src/cg_trigger.c:735-737 | two AFTER INSERT triggers, the first of which inserts into the table again: the code is a, b where a, b, b is due |
| Triggers.Parser.AnyTrigger | src/cg_trigger.c:714-742 | the search answers yes if and only if a trigger of the table matches and the first one is not on the stack |
| Triggers.Parser.CodeStatement | src/cg_insert.c:170-174 | INSERT codes BEFORE triggers only if there are some, UPDATE and DELETE both kinds if there are any, and the stack is restored |
| Triggers.Parser.CodeRowTrigger | src/cg_trigger.c:884-980 | given that the statement asks for it, fires exactly the triggers that match the change, for an UPDATE by its SET list too, and are not already being coded, and restores the trigger stack and cursor count |
| Triggers.Parser.CheckColumnOverlap | src/cg_trigger.c:671-686 | the search finds a column of the SET list in the trigger's column list if and only if there is one |
| Triggers.Parser.CodeTriggerProgram | src/cg_trigger.c:794-850 | codes the steps in order and restores the stack; with mutually firing triggers it terminates, because the set of triggers not on the stack shrinks |
| Triggers.Parser.Fire | src/cg_trigger.c:929-976 | one trigger coded with itself on the stack, so that it cannot fire itself at any depth |
| Triggers.Parser.Push | src/cg_trigger.c:938-947 | pushing keeps the triggers on the stack distinct |
| Triggers.StackSize | src/cg_trigger.c:905-979 | a stack without repeats is as deep as its set of triggers is large, so never deeper than the number of triggers |

## Left out

- Storage, transactions, environments, file handling, authorization, pragmas, COPY, EXPLAIN, tracing, callbacks other than result rows, and the Tcl and Python bindings: plumbing or foreign code.
- Memory allocation failures, string ownership flags and freeing: cells are values.
- The LALR grammar, name resolution and the hash tables; the keyword table is a parameter of the scanners and of the printer.
- Expressions: LIKE, GLOB and aggregate functions are calls like any other function; RAISE and the result of EXISTS and scalar subqueries come from the environment.
- Joins: levels driven by an index, by ROWID or by IN, removal of `new.*` and `old.*` from masks inside triggers, and the final Close instructions. The choice of an index is not modelled; what a chosen equality scan visits is (`IndexScan`). GROUP BY, aggregates, DISTINCT and ORDER BY of a single SELECT are not modelled.
- IndexScan.IdxCursor.ScanForward: equality terms only; the inequality scans and IN-driven scans of src/cg_where.c:1104-1320 are not modelled.
- Flattening.FlattenSame: inner joins without DISTINCT, LIMIT, ORDER BY and aggregates in the subquery, as the rows are then not preserved in general; value-position IN and references to the ROWID of the subquery are outside its precondition. The materialised rows are cells; that storing them as records turns numbers into text is not modelled.
- SortableReals.RealAsSortable: infinities and NaN are not modelled, nor are sums of denormalised numbers; the return for a negative exponent field is never taken, as `Scale` keeps the exponent within its range.
- Compound.Machine.Select: without ORDER BY, and without the check that both sides have as many columns.
- Row writes: when ABORT or ROLLBACK stops the run nothing is claimed about the store, since the undo is not written (src/vdbe_method.c:1170-1176); a stop by FAIL is covered. CHECK constraints, triggers around row writes, views, the choice of a record number by NewRecno (any unused one) and indices without columns are not modelled.
- RowWrites.Vm.Run: an UPDATE must satisfy the condition that its REPLACE actions are visible to the code that opens indices; `ClosedIndexStale` says what happens otherwise.
- Records.MakeRecord: the variant that appends a unique number to the record is not modelled, as no caller asks for it; the partial read of a long record's header is modelled as reading it whole. A record that ends inside the two header entries of a column passes the test of the reader; what is read from behind it is not modelled (`PastRecord`).
- Dates: times of day, time zones, local time, parsing and formatting; decimal constants are exact rationals, so rounding of doubles is not modelled. `start of` modifiers are left out as easy.
- Scanners.ScannersAgree: for ASCII text without NUL bytes and vertical tabs in which every token is legal; a lone `!` is illegal, strings and brackets are terminated.
- TablePrinter.NameReadsBack: for non-empty ASCII names; types, defaults and constraints of columns are not printed by the source either.
- Triggers: names of columns are compared as given, as if already in one case; the code inside trigger steps, WHEN conditions, and the per-statement kind of trigger are not modelled; a step is the event it can fire.
- UTF-8 text is bytes; nothing is assumed about its validity.
