# Verified models of the repository's transformation and accounting cores

The repository carries a handful of small algorithms whose correctness nobody can see by
looking at one function: a source-to-source inliner, a structural summarizer, an incremental
session ingest, two replays of recorded reads, a splicer of rewrite edits, a boundary finder,
and a changelog repair tool. This project models them in Dafny and proves what each one is for.

`dafny verify dfyconfig.toml` checks everything. Nothing here is executed.

## What is modelled

**The inliner** (`scripts/inline-functions.ts`). `JsExpression` and `HelperLanguage` give a
fragment of JavaScript its meaning: expressions with effectful, throwing leaves and assignments,
lexical scopes with uninitialised bindings, loops, switches with fall-through, labels, nested
functions and calls. A `Machine` stands for all code outside the fragment: any of its operations
may look at everything that happened, rewrite every global and throw. `GuardText` is a token
printer and a recursive-descent parser with JavaScript's precedences (ECMA-262, 2022, sections
13.5, 13.10, 13.11, 13.13 and 13.14); `GuardInversion` prints negated guards as the tool does, as
flat text, and shows what the parser makes of that text; `GuardExactness` settles when flipping
comparators is right. `EscapeAnalysis` models the jump walk, `FreshNames`, `InlinePlan` the
replacement. `Renaming`, `Weakening`, `InlineCorrect`, `InlineTheorem` and `InsertedStatements` carry
the proof that a call and its replacement do the same; `InlineBlock` replaces every call that stands
directly in a block or a case block, and `InlineCaller` does so throughout a caller, however nested,
and removes the helper. `ShadowCheck` and `GuardReads` look at the name checks the theorem depends on.
`EscapePaths` and `NamePaths` say what the checks answer in terms of paths through the text, and
`InlineShape` what a replacement looks like.

**The summarizer** (`crates/pi-ast/src/summary.rs`). `SummaryTree` and `SummaryLaminar` define the
forest of elidable spans of a syntax tree and say when it is laminar; `SummaryForest` is the arena
and the walk that fills it, `SummarySpans` says which spans those are, node by node; `SummaryUnfold` the budgeted breadth-first unfold, `SummaryCounter` what
its counter counts; `SummaryNormalize`
and `SummarySegments` the normalisation and the segment scanner; `SummaryTheorem` the whole
pipeline. Tree-sitter's node kinds appear as the four questions the code asks about them.

**The session sync** (`scripts/session-stats/sync.py`). `SyncLines` reads bytes by lines,
`SyncRecords` turns lines into rows, `SyncTables` are the keyed tables and their upserts,
`SyncSession` is one sync of one file (decide, parse from an offset, write), `SyncTheorem` compares
any number of syncs with one rebuild, `SyncContents` says what the tables then hold, line by line, and
`SyncRuns` does the same for runs over many files.
`LongestRepeat` is the repeat detector of the same script.

**The read replays** (`scripts/session-stats/optimize_read_config.py`, `read_optimizer.py`).
`ReadCoverage` and `ReadPair` model the two-phase counterfactual replay, `ReadReplay` the grouped one.

**Splicing, boundaries, changelogs.** `Splice` models `apply_edits` (`crates/pi-ast/src/ops.rs`),
`BlockBoundaries` the boundary walk and the block climb (`crates/pi-ast/src/block.rs`). `ChangelogText`,
`ChangelogParse`, `ChangelogRender` and `ChangelogRoundTrip` are the changelog parser and printer,
`DiffScan`, `DiffPairing` and `DiffLocality` the reading and pairing of a diff, and `ChangelogItems`,
`ChangelogRepair`, `ChangelogPromotion`, `ChangelogNormalize` and `ChangelogSpacing` the item-level repair
(`scripts/fix-changelogs.ts`).

`Optional`, `Numbers`, `Bytes`, `TextLines`, `SourceText`, `StableSort` and `LineSpans` are shared.

## Conventions

Code that changes things step by step is a method (or a class with `modifies` clauses) proved
against a function; the lemmas are then about that function. External input the code cannot know
is a parameter: the `Machine` of an inlined program, the `Decoder` of a session line, the order in
which workers finish, the order of a hash set, the state of a growing file at each moment it is
looked at.

## Where the code and its promise differ

Each of these is stated and proved. Where an entry names an exact condition, the promise the entry
names holds if and only if that condition does.

* Flipping `<` to `>=` is wrong when the comparison is undefined: `GuardExactness.NaNIsNotFlipped`;
  `GuardExactness.InversionExact` gives the exact condition, readable off the guard's text.
* A guard may mention a local that the tail declares. The call then throws; the inlined condition
  stands outside the tail's block and reads the caller's variable:
  `GuardReads.GuardReadsCallersVariable`. For guards made of operations on variables,
  `GuardReads.GuardReadsExact` shows that replacing a call is right in every run if and only if no
  guard mentions such a local, so the theorems ask for it (`InlineTheorem.GuardsApart`). A guard
  that mentions one and never reads it does no harm: `GuardReads.GuardNeedNotRead`.
* The free-name check ignores scopes, so a name that is both free and declared in an inner block is
  not checked: `ShadowCheck.InnerDeclarationHidesOuterName`; the check sees every outer name exactly
  under the condition of `ShadowCheck.ShadowCheckExact`.
* Generated names are kept apart from the target block only, not from the helper's body:
  `ShadowCheck.TemporaryCapturesGlobal`. The theorems assume they do not occur there; that this is
  also necessary is not proved.
* The escape walk inspects descendants only: `EscapeAnalysis.BareJumpSlipsThrough`
  (such a statement is a syntax error at the top of a function body).
* Spans of one parent can overlap, because a run of siblings hides the spans of its inner members,
  and the visible counter can then be wrong: `SummaryTheorem.UncleanRunMiscounts`. For a valid tree it
  is right at every frontier of the forest if and only if the runs are clean, and it starts right if
  and only if the spans folded first are disjoint: `SummaryTheorem.TreeCounts`. A comment in the code
  calls a child's span strictly contained in its parent's; it may be equal.
* A line whose processing raises (the JSON text `[]`, say) ends the pass over its file. The rows of
  earlier syncs stay and no later sync changes anything, while a rebuild would store nothing:
  `SyncTheorem.BadLineStopsSync`, exact condition `SyncTheorem.QuietRunIsRebuild`.
* A full rebuild replaces a file's rows but merges its header, so a field the new file lacks keeps
  its old value: exact condition `SyncTheorem.RebuildHeader`.
* An added diff line that starts with `++ b/` reads as a file header: `DiffScan.HeaderLikeLineMisleads`,
  exact condition `DiffScan.ScanBodyExact`.
* The truncation counter of the grouped replay counts reads that lose only context lines:
  `ReadReplay.TruncationOvercounts`, exact condition `ReadReplay.TruncationExact`.
* `apply_edits` accepts an insertion before a deletion at one position and refuses the two in the
  other order: `Splice.InsertionMustComeFirst`. An edit whose ends are not character boundaries does
  not give an error but a panic: `Splice.ApplyEdits`.
* `block_range_at` says it excludes the whole-file root, but returns it when the root is the
  smallest named node on the line: `BlockBoundaries.RootIsReturned`, and in no other case,
  `BlockBoundaries.BlockFound`.

## Model

| member | source | states |
|---|---|---|
| GuardText.ConditionRoundTrip | scripts/inline-functions.ts:287-301 | Printing a condition that came from a parse tree and parsing the tokens again gives the same tree, for every condition. |
| GuardText.Precedences | scripts/inline-functions.ts:303-312 | The grammar that reads conditions back binds negation tightest, then relations, equalities, and, or. |
| GuardText.Grouping | scripts/inline-functions.ts:303-312 | Operators of one level group to the left, and a conditional takes what it can. |
| GuardInversion.LogicalPrecOf | scripts/inline-functions.ts:303-312 | The precedence of a negation's operand, after unwrapping any number of parentheses. |
| GuardInversion.Negate | scripts/inline-functions.ts:315-349 | The printer computes the specified text and precedence of a negated condition, by De Morgan and comparator flips, parenthesising weaker parts. |
| GuardInversion.FlippedComparator | scripts/inline-functions.ts:138-147 | A flipped comparator is the complement of the original if and only if the comparison has a defined result. |
| GuardInversion.CombineReadsBack | scripts/inline-functions.ts:352-356 | The combined condition, as printed, parses completely, to the stated tree. |
| GuardInversion.GuardInverts | scripts/inline-functions.ts:303-349 | The printed negation parses to a condition that evaluates the same leaves in the same order with the same effects and exceptions and has the opposite truth value, although flat text reassociates nested operators. |
| GuardInversion.CombinedGuards | scripts/inline-functions.ts:352-356 | Any number of guards with early return agree with the single combined condition: same guards, same order, same effects, tail reached exactly when no guard is truthy. |
| GuardExactness.StaticallyClean | scripts/inline-functions.ts:138-147 | If no flipped comparison of the text can meet an unordered value, no run of any JavaScript world has one. |
| GuardExactness.TotalOrderClean | scripts/inline-functions.ts:138-147 | On totally ordered values every condition inverts cleanly. |
| GuardExactness.InversionExact | scripts/inline-functions.ts:303-349 | With opaque leaves, the printed negation complements the guard in every run if and only if no flipped comparison can meet an unordered value. |
| GuardExactness.NaNIsNotFlipped | scripts/inline-functions.ts:138-147 | Inverting `a < b` to `a >= b` is refuted by a run with NaN. |
| EscapeAnalysis.JumpEscapes | scripts/inline-functions.ts:545-571 | The walk answers that a jump escapes exactly when no ancestor up to the tail statement catches it, labelled or not. |
| EscapeAnalysis.AcceptedExact | scripts/inline-functions.ts:669-681 | Among well-formed statements that are not bare jumps, the accepted ones are exactly those that no return of the helper and no jump can leave. |
| EscapePaths.ReturnsByPath | scripts/inline-functions.ts:669-673 | The check finds a return exactly when a path of child positions leads to one past no function literal. |
| EscapePaths.AcceptedByPath | scripts/inline-functions.ts:669-681 | A tail statement is accepted exactly when no path leads to a return past no function literal, nor to a jump below it past nothing it can be aimed at. |
| EscapePaths.ReturnsOutside | scripts/inline-functions.ts:540-543 | What stands inside function literals has no part in the return check: emptying them all changes nothing. |
| EscapePaths.LiteralAccepted | scripts/inline-functions.ts:669-681 | A well-formed function literal is always accepted, whatever it returns. |
| EscapeAnalysis.AcceptedNeverEscapes | scripts/inline-functions.ts:669-681 | No run of an accepted tail statement completes with a return, a break or a continue. |
| EscapeAnalysis.TailNeverEscapes | scripts/inline-functions.ts:669-681 | The same for a whole accepted tail, from every state, through loops, switches, labels and nested functions. |
| EscapeAnalysis.BareJumpSlipsThrough | scripts/inline-functions.ts:674-680 | The walk over descendants does not see a tail statement that is itself a jump. |
| FreshNames.FreshFrom | scripts/inline-functions.ts:501-507 | The search stops, because each taken candidate is a different one of finitely many taken names, at the first candidate that is not taken. |
| FreshNames.FreshName | scripts/inline-functions.ts:501-507 | The loop returns that name, which is not taken. |
| FreshNames.CandidateInjective | scripts/inline-functions.ts:501-507 | Different suffix numbers give different candidate names. |
| InlineShape.FreshIs | scripts/inline-functions.ts:501-507 | A made-up name is the wanted one or that one with an underscore and a number from 2 on, all smaller numbers being taken. |
| InlinePlan.Partition | scripts/inline-functions.ts:529-538 | The leading guards are the longest run of bare-return ifs without else; the rest is the tail. |
| InlinePlan.GuardCountUnique | scripts/inline-functions.ts:655-663 | That split is the only one. |
| InlinePlan.RenameCollidingLocals | scripts/inline-functions.ts:793-823 | The loop computes the specified renaming of the tail's own locals and the names then in use. |
| InlineShape.RenamedExactly | scripts/inline-functions.ts:793-823 | A local of the tail is renamed exactly when its name is in use by then, and to the first name that is not. |
| InlineTheorem.RenamesPlanned | scripts/inline-functions.ts:793-823 | The renamed locals are pairwise distinct and distinct from every name that was taken. |
| InlinePlan.BuildReplacement | scripts/inline-functions.ts:837-900 | Under strict effects the loops build the specified prefix, condition, tail and taken names. |
| InlineShape.PrefixExactly | scripts/inline-functions.ts:837-885 | The statements in front are, from left to right, one for each argument whose parameter is used, as a constant, and each other that is no literal, on its own. |
| Renaming.RunRenamed | scripts/inline-functions.ts:282-301 | Substituted text run in the caller's scope does what the original does in the helper's: same completion, same effects, the caller's other variables untouched, for every statement and state. |
| InlineTheorem.CallInlined | scripts/inline-functions.ts:837-900 | For every helper whose guards mention no local of its tail, every argument list and store, a call and the statements that replace it have the same completion, trace and globals, and frames that differ only in the added names; unused and missing arguments included. |
| InsertedStatements.InsertedNames | scripts/inline-functions.ts:837-900 | Inserted text mentions only the arguments' names, the helper's outer names, the names it adds, and the tail's locals that guards mention. |
| InsertedStatements.InsertedDeclares | scripts/inline-functions.ts:837-900 | The inserted statements declare exactly the names the plan took. |
| InlineBlock.InlineCandidate | scripts/inline-functions.ts:935-945 | Planning every call of a block first and applying from the last up gives the block with each call replaced in turn, each plan drawing names from one growing set. |
| InlineBlock.DirectNames | scripts/inline-functions.ts:763-785 | The new text declares the old declarations and the names drawn, and mentions nothing else new but the helper's outer names. |
| InlineBlock.BlockInlined | scripts/inline-functions.ts:902-933 | Replacing every direct call of a block leaves its completion, trace, globals and variables as they were, from every state. |
| InlineBlock.CasesInlined | scripts/inline-functions.ts:757-785 | The same for the case block of a switch, whose clauses share one scope and one set of names. |
| InlineCaller.StmtRuns | scripts/inline-functions.ts:935-946 | Every statement of a caller, with all calls in it replaced wherever they stand, runs as before from every state. |
| InlineCaller.InliningPreservesMeaning | scripts/inline-functions.ts:935-959 | Replacing every call in a caller and deleting the helper preserves every run: completion, trace, globals and variables. |
| ShadowCheck.ShadowCheckExact | scripts/inline-functions.ts:419-451 | The computed free names are always outer names of the helper, and all of them if and only if no outer name is also declared in an inner scope of the body. |
| NamePaths.UsedByPath | scripts/inline-functions.ts:643-647 | A parameter counts as used exactly when a path leads to a mention of it past no scope that binds the name. |
| NamePaths.WritesByPath | scripts/inline-functions.ts:648-651 | A name is written exactly when such a path leads to an assignment or declaration of it. |
| NamePaths.CallsByPath | scripts/inline-functions.ts:636-640 | The recursion check finds a call exactly when some path leads to one. |
| NamePaths.MentionsByPath | scripts/inline-functions.ts:444-449 | A name is mentioned exactly when some path leads to a mention of it, scopes or not. |
| NamePaths.BindersByPath | scripts/inline-functions.ts:421-442 | A name is bound inside exactly when some path leads to a declaration of it. |
| NamePaths.ExprMentions | scripts/inline-functions.ts:444-449 | An expression mentions a name exactly when renaming the name changes the expression. |
| NamePaths.ExprAssigns | scripts/inline-functions.ts:648-651 | It assigns a name exactly when putting a value in place of the name leaves it somewhere. |
| ShadowCheck.InnerDeclarationHidesOuterName | scripts/inline-functions.ts:419-451 | A body in which the check misses an outer name. |
| ShadowCheck.TemporaryCapturesGlobal | scripts/inline-functions.ts:772-785 | A helper and a world in which a generated name captures a global that the body reads. |
| GuardReads.GuardReadsExact | scripts/inline-functions.ts:655-668 | With guards made of operations on variables, none of whose flipped comparisons can meet an unordered value, replacing a call is right in every JavaScript run if and only if no guard mentions a local of the tail. |
| GuardReads.GuardReadsCallersVariable | scripts/inline-functions.ts:655-668 | A helper whose call throws while its replacement, reading the caller's variable, completes. |
| GuardReads.GuardNeedNotRead | scripts/inline-functions.ts:655-668 | A guard that mentions a local without reading it: call and replacement both complete. |
| SummaryTree.SpanLines | crates/pi-ast/src/summary.rs:255-278 | A comment long enough loses all lines but its first two and its last, an elidable body all but its first and last, a run the lines strictly between its outer members' content. |
| SummarySpans.ContentRows | crates/pi-ast/src/summary.rs:328-358 | The last content line of a node is the last row that holds a character of it. |
| SummarySpans.CollectedExactly | crates/pi-ast/src/summary.rs:247-358 | A span stands in the forest, at any depth, exactly when some node with no comment above it gives it: as a long comment, as an elidable body, or by a maximal run of groupable children. |
| SummarySpans.InteriorOrder | crates/pi-ast/src/summary.rs:281-326 | Inside a node the spans of its runs come first, from left to right, then those of its children in child order. |
| SummarySpans.ArenaSpans | crates/pi-ast/src/summary.rs:247-358 | So the walk puts a span into the arena exactly when some node visited gives it. |
| SummaryLaminar.ForestContained | crates/pi-ast/src/summary.rs:247-326 | In every valid tree each child span lies within its parent's. |
| SummaryLaminar.ForestRegion | crates/pi-ast/src/summary.rs:247-326 | What a node contributes lies strictly between its first and last line. |
| SummaryLaminar.ForestLaminar | crates/pi-ast/src/summary.rs:247-358 | Sibling spans are pairwise disjoint at every level if and only if no run that gets a span has an inner member with spans of its own. |
| SummaryLaminar.RunMeetsChild | crates/pi-ast/src/summary.rs:328-358 | A run's span overlaps exactly the spans of its inner members. |
| SummaryForest.ElidableForest.Push | crates/pi-ast/src/summary.rs:97-105 | Appends one span under its parent, or as a root, and keeps child lists and parent links in agreement. |
| SummaryForest.ElidableForest.FlushGroupableRun | crates/pi-ast/src/summary.rs:328-358 | Appends the span of the run, if it has one, and nothing else. |
| SummaryForest.ElidableForest.CollectElidableTree | crates/pi-ast/src/summary.rs:247-326 | The walk lays out exactly the node's span forest, in preorder, under the given parent. |
| SummaryForest.CollectedLaminar | crates/pi-ast/src/summary.rs:247-326 | For a valid tree the arena nests spans strictly inside the tree's lines, and it is laminar if and only if the runs are clean. |
| SummaryUnfold.FrontierAntichain | crates/pi-ast/src/summary.rs:136-161 | Folded spans form an antichain: every ancestor of a folded span is unfolded. |
| SummaryUnfold.FrontierStep | crates/pi-ast/src/summary.rs:153-157 | Opening a folded span replaces it in the frontier by its children, none of which was there. |
| SummaryUnfold.SelectFoldedSpans | crates/pi-ast/src/summary.rs:118-162 | The spans opened are those a walk over all spans, level by level, opens when the parent is open, less than the target is shown and the limit allows it; what stays folded is their frontier. Nothing is opened past the limit or once the target is shown; with a positive target either it is reached or opening any one remaining span would exceed the limit; no opened span lies deeper than one that could still be opened. |
| SummaryCounter.BalancedStep | crates/pi-ast/src/summary.rs:144-158 | In a laminar arena each step keeps visible lines plus folded lines equal to the total, and no saturation fires. |
| SummaryCounter.VisibleExact | crates/pi-ast/src/summary.rs:132-133 | Total minus the lengths of the folded spans is the number of lines outside them if and only if the spans are disjoint. |
| SummaryCounter.InitialExact | crates/pi-ast/src/summary.rs:132-133 | The counter starts right if and only if the roots are disjoint or cover every line. |
| SummaryCounter.CounterExact | crates/pi-ast/src/summary.rs:132-158 | In a nested arena the counter is the number of lines outside the folded spans at every frontier if and only if siblings are disjoint at every level. |
| SummaryNormalize.NormalizeSpans | crates/pi-ast/src/summary.rs:814-834 | The result is canonical (sorted, with gaps), lies in the file and covers the same lines of it. |
| SummarySegments.BuildSegments | crates/pi-ast/src/summary.rs:836-890 | Consecutive segments from line 1 to the last, kinds alternating, each uniform and carrying its text exactly when kept. |
| SummarySegments.SegmentsUnique | crates/pi-ast/src/summary.rs:836-875 | The source and the elided lines determine the segments. |
| SummarySegments.FillingRestores | crates/pi-ast/src/summary.rs:836-890 | Filling elided segments from the source restores every line. |
| SummarySegments.KeptCount | crates/pi-ast/src/summary.rs:836-875 | The kept segments hold exactly the lines that are not elided. |
| SummarySegments.OneSegmentPerSpan | crates/pi-ast/src/summary.rs:836-875 | The elided segments are the normalised spans, one each. |
| SummaryTheorem.Summarize | crates/pi-ast/src/summary.rs:187-203 | End to end: a source without an error-free tree is shown as it is; of any other the segments partition the lines by the frontier's spans, keep as many lines as lie outside them, and elide something exactly when the result says so. |
| SummaryTheorem.CounterIsKept | crates/pi-ast/src/summary.rs:199-203 | In the laminar case the kept segments hold exactly as many lines as the unfold's counter says. |
| SummaryTheorem.SummaryOmits | crates/pi-ast/src/summary.rs:187-203 | Without a target of lines, a line is missing from the summary exactly when it lies in a span that some node gives; limits are 4 and 6 lines unless given, and at least 2 and 4. |
| SummaryTheorem.TargetMet | crates/pi-ast/src/summary.rs:195-201 | With a target and no limit, the kept lines stay within twice the target once anything is opened, and fall short of it only if any further span would go beyond that. |
| SummaryTheorem.SummaryRestores | crates/pi-ast/src/summary.rs:199-203 | The summary of any source, gaps filled, is that source but for a last newline and carriage returns before newlines. |
| SourceText.LinesJoined | crates/pi-ast/src/summary.rs:840 | The lines of a source, joined, are the source but for a last newline and the carriage returns before newlines. |
| SourceText.FirstLine | crates/pi-ast/src/summary.rs:840 | A source is cut at its newlines, and one at its end does not start another line. |
| SourceText.DropsNothing | crates/pi-ast/src/summary.rs:840 | All of it comes back if and only if no carriage return stands before a newline. |
| SummaryTheorem.OrderIndependent | crates/pi-ast/src/summary.rs:161-203 | Any order of walking the hash set of folded spans gives the same normalised spans and the same segments. |
| SummaryTheorem.TreeCounts | crates/pi-ast/src/summary.rs:247-358 | For a syntax tree over the file the unfold's counter is the number of lines shown, at every frontier, if and only if the runs are clean; it starts right if and only if the spans folded first are disjoint. |
| SummaryTheorem.UncleanRunMiscounts | crates/pi-ast/src/summary.rs:132-133 | A tree with an unclean run for which the counter is 0 while three lines are shown. |
| SyncLines.SplitTotal | scripts/session-stats/sync.py:687-688 | Reading lines advances the offset by exactly the bytes read. |
| SyncLines.LinesOfBytes | scripts/session-stats/sync.py:687-688 | The lines put together are the bytes read, and a newline only ever ends a line. |
| SyncLines.SplitExact | scripts/session-stats/sync.py:684-688 | Reading an appended stretch on its own gives the lines of the whole file if and only if the first part ends in a newline or nothing was appended. |
| SyncRecords.PassesCompose | scripts/session-stats/sync.py:681-724 | Two passes, the second continuing the line count, collect what one pass over both parts collects. |
| SyncRecords.LinesOwned | scripts/session-stats/sync.py:660-718 | Every collected row carries its own file's key; only line 0 gives a header. |
| SyncSession.SessionRecords.IngestLine | scripts/session-stats/sync.py:698-718 | One decoded line appends exactly its rows to the lists. |
| SyncSession.ParseFile | scripts/session-stats/sync.py:649-733 | One pass yields the rows of all lines from the offset on, the new offset and the new line count, or nothing if a line cannot be processed. |
| SyncContents.CallsTable | scripts/session-stats/sync.py:748-772 | After a rebuild the call table has one row for each call id of each assistant line, from the last such item of the line, with the columns of line and item. |
| SyncContents.ResultsTable | scripts/session-stats/sync.py:864-875 | The result table has one row for each result line, under the call id it answers. |
| SyncContents.PartsAre | scripts/session-stats/sync.py:773-780 | The texts of a message are those of its items that are not empty, in order, thinking apart from the rest. |
| SyncContents.AssistantTable | scripts/session-stats/sync.py:782-795 | The message table has one row for each assistant line that says or thinks something, the texts joined by newlines. |
| SyncContents.UserTable | scripts/session-stats/sync.py:884-890 | The user table has one row for each user line that is not empty. |
| SyncContents.EditsTable | scripts/session-stats/sync.py:798-881 | The edit table has one row for each edit that some line calls or answers: number, time and length from its last call, success and warnings from its last result, warnings only on success, whichever stands first. |
| SyncContents.SectionsTable | scripts/session-stats/sync.py:827-861 | The section table has one row for each edit and section index, from the last call of the edit with such a section. |
| SyncContents.KeysShaped | scripts/session-stats/sync.py:741-861 | Calls and sections have no other rows. |
| SyncSession.StatsDb.WriteRecords | scripts/session-stats/sync.py:917-1033 | One transaction: purge on rebuild, upsert every table, merge the session row. |
| SyncSession.StatsDb.SyncFile | scripts/session-stats/sync.py:1049-1074 | One visit to a file does what the decision says: nothing, continue from the stored offset, or start over. |
| SyncTables.StubsPastOutcomes | scripts/session-stats/sync.py:961-984 | Edit stubs and edit outcomes write different columns, so they commute. |
| SyncTables.EditsPaired | scripts/session-stats/sync.py:961-984 | A freshly ingested edit table joins calls and results: a row for each edit with either, the call's columns from its last call, the result's from its last result. |
| SyncTables.IngestJoin | scripts/session-stats/sync.py:930-995 | Writing two batches in turn leaves what one joint batch leaves, edit results paired with calls of an earlier batch included. |
| SyncTables.IngestSlice | scripts/session-stats/sync.py:930-995 | A batch changes its own file's rows only, and changes them as if they were alone. |
| SyncTheorem.VisitStep | scripts/session-stats/sync.py:1049-1074 | One sync keeps a growing file's rows, offset and line count equal to a rebuild of the synced part, and catches up with what the run saw; if a line raises it changes nothing. |
| SyncTheorem.IncrementalIsRebuild | scripts/session-stats/sync.py:649-733 | Any sequence of syncs over a file that grows by whole lines leaves the tables, offset and line count of one full rebuild of what was synced when no line raised yet, whatever a stale database held before; syncs that meet a line that raises change nothing. |
| SyncContents.SyncedEdits | scripts/session-stats/sync.py:961-984 | After any such syncs the edit rows are those of the lines synced, calls and results paired across syncs. |
| SyncContents.SyncedHeader | scripts/session-stats/sync.py:698-705 | A header that was kept is that of the file's first line, and no other line's. |
| SyncTheorem.NextVisit | scripts/session-stats/sync.py:1049-1074 | After a visit the next one leaves the file alone exactly when it has the same size and is not newer, reads on from where the last ended if it is longer, and else starts over. |
| SyncTheorem.QuietRunIsRebuild | scripts/session-stats/sync.py:1068-1074 | If nothing is appended while the last run works, the tables are those of a rebuild of the whole file into an empty database if and only if no line of it raises, or nothing was ever stored. |
| SyncTheorem.BadLineStopsSync | scripts/session-stats/sync.py:693-722 | Two syncs of a file whose second line raises: the first row stays, a rebuild of the whole file would store nothing. |
| SyncTheorem.RewriteIsRebuild | scripts/session-stats/sync.py:1062-1073 | A file that shrank, or changed without growing, is rebuilt from its start: rows, offset and line count are those of the new content, or nothing changes if a line of it raises. |
| SyncTheorem.OtherFiles | scripts/session-stats/sync.py:917-1033 | A write leaves rows and session of every other file alone. |
| SyncTheorem.RunOrderIrrelevant | scripts/session-stats/sync.py:1141-1151 | The order in which workers' records are written does not show in the database. |
| SyncTheorem.RebuildHeader | scripts/session-stats/sync.py:1005-1014 | A rebuild stores the new header exactly if it loses no field; else old values stay. |
| SyncRuns.RunSyncsEach | scripts/session-stats/sync.py:1100-1151 | In a run over many files, decided beforehand and written in any order, each file gets what a sync of it alone gives. |
| SyncRuns.ManyFilesManyRuns | scripts/session-stats/sync.py:1100-1151 | Any runs over any files: a file that grew by whole lines ends as after a full rebuild of what its last run without a raising line had synced. |
| LongestRepeat.FindLongestRepeat | scripts/session-stats/sync.py:503-522 | Returns nothing exactly when there is no reportable repeat; else start and length of a longest one, the first pair among those. |
| LongestRepeat.RepeatIs | scripts/session-stats/sync.py:510-521 | A reportable repeat, line by line: the lines agree with a later copy, the run goes on to the copy, the end or a difference, and at least two and half of its lines are meaningful. |
| LongestRepeat.FullRunUnique | scripts/session-stats/sync.py:512-514 | A pair of positions has exactly one fully extended run. |
| ReadCoverage.Merge | scripts/session-stats/optimize_read_config.py:146-157 | The merged list covers the same lines and is canonical when no span is empty. |
| ReadCoverage.ContainedIsCovered | scripts/session-stats/optimize_read_config.py:160-164 | On a canonical list the single-interval test is set containment. |
| ReadCoverage.Contained | scripts/session-stats/optimize_read_config.py:160-164 | The loop answers whether one interval contains the target. |
| ReadCoverage.AdjacentSpansMiss | scripts/session-stats/optimize_read_config.py:160-164 | Without canonicity the test misses a covered range. |
| ReadCoverage.Subtract | scripts/session-stats/optimize_read_config.py:167-183 | Exactly the target's lines that no interval covers, as ordered non-empty pieces. |
| ReadCoverage.EffectiveReturned | scripts/session-stats/optimize_read_config.py:315-343 | A simulated read starts at the line asked for, is never empty and keeps the caps. |
| ReadCoverage.ReturnedExactly | scripts/session-stats/optimize_read_config.py:328-343 | Beyond its first line a simulated read returns exactly the lines up to which what was asked, the file and both caps allow it: the default page, the given end or else a page, or the file. |
| ReadCoverage.RangeEnd | scripts/session-stats/optimize_read_config.py:331-343 | A range is read to its given end at most, and to that end exactly if no limit cuts it. |
| ReadCoverage.ChunkCap | scripts/session-stats/optimize_read_config.py:358-361 | A chunk may have exactly as many lines as both caps allow, and always one. |
| ReadCoverage.ChunkRange | scripts/session-stats/optimize_read_config.py:357-368 | The chunks tile the range end to end, each within the cap and all but the last at the cap. |
| ReadCoverage.TilesExact | scripts/session-stats/optimize_read_config.py:357-368 | Tiles cover every line once and are as few as the cap allows. |
| ReadCoverage.ChunkAdvances | scripts/session-stats/optimize_read_config.py:364-367 | The chunk loop moves on if and only if the per-call maximum is at least one. |
| ReadPair.SimulateCalls | scripts/session-stats/optimize_read_config.py:385-402 | Phase one pays exactly the calls that have an uncovered line, and covers exactly what the paid calls return. |
| ReadPair.PaidDeliver | scripts/session-stats/optimize_read_config.py:389-402 | Every simulated call's lines are covered, paid or dropped. |
| ReadPair.PaidExactly | scripts/session-stats/optimize_read_config.py:385-402 | The calls paid are, in order, just those that bring a line which no call paid before them has. |
| ReadPair.NeededIs | scripts/session-stats/optimize_read_config.py:386-388 | What was needed are exactly the lines that some call was seen to return. |
| ReadPair.Gaps | scripts/session-stats/optimize_read_config.py:404-407 | The gaps are exactly the lines received but not covered, in order. |
| ReadPair.FillGaps | scripts/session-stats/optimize_read_config.py:408-414 | Filling adds exactly the gaps' lines, each paid once, in chunks within the cap. |
| ReadPair.ReplayPair | scripts/session-stats/optimize_read_config.py:371-415 | At the end every line the agent received is covered; cost and call count are those of the paid calls plus the chunks, and the chunks are exactly the shortfall. |
| ReadPair.ReplayCost | scripts/session-stats/optimize_read_config.py:346-354 | The cost is the tokens of each line paid in full and of each line of the shortfall, 0.35 of them for bare calls on a file that is summarised, and 200 for each call. |
| ReadReplay.IsCovered | scripts/session-stats/read_optimizer.py:251-258 | The early-exit test on a canonical list is set containment. |
| ReadReplay.AddInterval | scripts/session-stats/read_optimizer.py:261-278 | Inserting keeps the list sorted, disjoint and non-adjacent and adds exactly the item's lines. |
| ReadReplay.LinesSent | scripts/session-stats/read_optimizer.py:211-248 | A read asks for its range, for a default stretch from its start, or for the first stretch, and is answered with the first lines of that, context added, as many as the maximum allows. |
| ReadReplay.DeliversUnlessCapped | scripts/session-stats/read_optimizer.py:221-248 | A read delivers every line it asks for if and only if the maximum does not cut it. |
| ReadReplay.TruncationCounted | scripts/session-stats/read_optimizer.py:373-377 | Every explicit read that loses requested lines is counted as truncated. |
| ReadReplay.TruncationOvercounts | scripts/session-stats/read_optimizer.py:373-377 | A read that loses only context lines is counted too. |
| ReadReplay.TruncationExact | scripts/session-stats/read_optimizer.py:373-377 | The counter and the loss of requested lines agree if and only if the read is not one whose lines all fit while its trailing context meets the maximum. |
| ReadReplay.SkippedWasDelivered | scripts/session-stats/read_optimizer.py:364-370 | Every line of a skipped request was delivered by an earlier paid read. |
| ReadReplay.AnsweredIsCovered | scripts/session-stats/read_optimizer.py:346-394 | After a bounded read that is not cut, skipped or paid, all its lines are covered. |
| ReadReplay.FirstCoverSkipsRest | scripts/session-stats/read_optimizer.py:395-404 | If the first delivery holds every later bounded request, all later bounded reads are skipped. |
| ReadReplay.FirstCoverCount | scripts/session-stats/read_optimizer.py:395-407 | Such a group pays one bounded call. |
| ReadReplay.ReplayGroup | scripts/session-stats/read_optimizer.py:334-407 | Paid plus skipped is the number of reads; skipped are exactly the covered ones; tokens, truncations, byte-limited reads and unbounded calls are those of the paid reads. |
| ReadReplay.GroupCounts | scripts/session-stats/read_optimizer.py:346-394 | Each counter of a group for itself: calls skipped, without a range, truncated and limited in bytes, and the tokens, a paid call costing its arguments and the smaller of its lines' tokens and a quarter of the byte budget. |
| ReadReplay.Replay | scripts/session-stats/read_optimizer.py:316-427 | The same for all groups together and for the selector and default shares, with the group counts. |
| ReadReplay.SharesAddUp | scripts/session-stats/read_optimizer.py:334-356 | The totals are made up of three shares: groups that begin with a given start, with a default read, and with a read of no known range. |
| Splice.ApplyEdits | crates/pi-ast/src/ops.rs:188-213 | Right-to-left in-place application of byte edits equals the simultaneous splice of the stably sorted edits, and the result is UTF-8; it fails exactly on overlap, then out-of-bounds, then at the first edit from the right with bad text or an end inside a character; its length balances. |
| Splice.BufferStep | crates/pi-ast/src/ops.rs:199-211 | The bounds check against the mutated buffer fails exactly when the last edit ends beyond the original content, and character boundaries are those of the original. |
| Splice.NoTrouble | crates/pi-ast/src/ops.rs:201-211 | No edit fails if and only if every edit inserts UTF-8 between character boundaries. |
| Bytes.EncodedIsRead | crates/pi-ast/src/ops.rs:201-211 | The UTF-8 check reads every Unicode scalar value from its encoding. |
| Bytes.ReadIsEncoded | crates/pi-ast/src/ops.rs:201-211 | Whatever it reads as a character is the encoding of one scalar value. |
| Splice.SplicedLength | crates/pi-ast/src/ops.rs:188-213 | The length after splicing is the old length plus insertions minus deletions. |
| Splice.EqualPositionsKeepOrder | crates/pi-ast/src/ops.rs:189-190 | Edits at one position stay in input order. |
| Splice.DistinctPositionsAnyOrder | crates/pi-ast/src/ops.rs:189-190 | With distinct positions the input order does not matter. |
| Splice.InsertionMustComeFirst | crates/pi-ast/src/ops.rs:189-197 | At one position an insertion before a deletion is applied, after it refused. |
| BlockBoundaries.NormalizeRanges | crates/pi-ast/src/block.rs:150-168 | The merged list is canonical and covers exactly the lines of the valid requested ranges. |
| BlockBoundaries.IsVisible | crates/pi-ast/src/block.rs:170-182 | Binary search decides membership in that union. |
| BlockBoundaries.CollectBoundaries | crates/pi-ast/src/block.rs:187-216 | The walk adds exactly the hidden ends of multi-line named nodes below and, but for the root, at the node. |
| BlockBoundaries.EnclosingBoundaries | crates/pi-ast/src/block.rs:234-261 | A line is reported exactly when it is the hidden end of a multi-line named non-root node whose other end is requested, whatever the requested ranges look like. |
| BlockBoundaries.Climb | crates/pi-ast/src/block.rs:105-114 | The climb ends at the outermost node below the root that begins on the row, or at the root if the leaf is the root. |
| BlockBoundaries.BlockRangeAt | crates/pi-ast/src/block.rs:58-126 | The method resolves a line to the specified block. |
| BlockBoundaries.BlockFound | crates/pi-ast/src/block.rs:89-126 | A block is found exactly when the leaf begins on the line and what the climb reaches has no error; it begins on that line, is the outermost such node below the root, and is the root exactly when the leaf is. |
| BlockBoundaries.RootIsReturned | crates/pi-ast/src/block.rs:101-125 | A leaf that is the whole-file root is returned. |
| BlockBoundaries.ResolvedBlockIsSurfaced | crates/pi-ast/src/block.rs:187-216 | If a resolved block's first line is shown and its last is not, the last is reported. |
| ChangelogText.RenderedReadsBack | scripts/fix-changelogs.ts:125-131 | Rendered text splits into the lines it was joined from. |
| ChangelogText.ContentLines | scripts/fix-changelogs.ts:125-131 | A content is cut at each newline, carriage return, or both together, and one at its end does not start another line. |
| ChangelogText.TrimIs | scripts/fix-changelogs.ts:117-123 | A text is its trimmed form with white space around it ... |
| ChangelogText.TrimOnly | scripts/fix-changelogs.ts:117-123 | ... and nothing else without white space at its ends is that. |
| ChangelogText.RenderedHeading | scripts/fix-changelogs.ts:104-115 | A rendered subsection heading reads back as one with the same title. |
| ChangelogText.OnlySubsectionHeadings | scripts/fix-changelogs.ts:104-115 | A subsection heading is three hashes, white space, its title and white space at most. |
| ChangelogParse.ReleaseHeadingIs | scripts/fix-changelogs.ts:100-111 | Two hashes, a space and a bracketed title are a release heading with that title, whatever follows ... |
| ChangelogParse.OnlyReleaseHeadings | scripts/fix-changelogs.ts:100-111 | ... and every release heading is of that form. |
| ChangelogParse.ParseChangelog | scripts/fix-changelogs.ts:137-166 | The index-driven loops compute the specified document of the numbered lines. |
| ChangelogParse.ParseReleaseSection | scripts/fix-changelogs.ts:168-200 | The same for one release section. |
| ChangelogParse.ParseLosesNothing | scripts/fix-changelogs.ts:137-200 | Parsing keeps every line that is not a heading, with its number, in order. |
| ChangelogParse.HeadingsRead | scripts/fix-changelogs.ts:137-166 | There is one section for each release heading, in order, with its heading and the bracketed title. |
| ChangelogRender.TrimBlankLines | scripts/fix-changelogs.ts:202-208 | The two cursors trim exactly the blank edges. |
| ChangelogRender.RenderChangelog | scripts/fix-changelogs.ts:502-529 | The printer's output is the rendering of the document's outline. |
| ChangelogSpacing.DocumentLayout | scripts/fix-changelogs.ts:502-529 | Every heading and every stretch of text that is not empty stands in the rendering with one empty line between neighbours and none at the ends. |
| ChangelogRoundTrip.ParseOfRender | scripts/fix-changelogs.ts:502-529 | Parsing a rendered document returns it with blank edges trimmed and empty subsections dropped: order, headings, titles and body lines kept. |
| ChangelogRoundTrip.ParsedIsPrintable | scripts/fix-changelogs.ts:137-200 | What the parser returns always meets the condition for that. |
| ChangelogRoundTrip.RenderParseIdempotent | scripts/fix-changelogs.ts:137-529 | Rendering a parsed changelog once more changes nothing, on every input. |
| DiffScan.ScanDiff | scripts/fix-changelogs.ts:594-657 | The loop computes the specified scan of the diff. |
| DiffScan.ScanTrueNumbers | scripts/fix-changelogs.ts:594-657 | On a well-formed diff the scan finds every added and removed item, each addition at its true line of the new file. |
| DiffScan.ListItemIs | scripts/fix-changelogs.ts:117-119 | A list item is a dash and a space, indented or not. |
| DiffScan.AddedExactly | scripts/fix-changelogs.ts:624-642 | The additions of a hunk are its added list items, in order, each numbered as the line of the new file where its text stands. |
| DiffScan.RemovedExactly | scripts/fix-changelogs.ts:644-653 | The removals are its removed list items, in order. |
| DiffScan.ScanBodyExact | scripts/fix-changelogs.ts:600-657 | A hunk is read right if and only if none of its added lines reads as a file header. |
| DiffScan.HeaderLikeLineMisleads | scripts/fix-changelogs.ts:601-604 | After such a line an item is given another path and a line number one too low. |
| DiffPairing.PairItems | scripts/fix-changelogs.ts:659-677 | Taking the first free removal for each addition pairs, for each path and item text, the first additions with the first removals, as many as there are of both. |
| DiffPairing.PairingIsMaximum | scripts/fix-changelogs.ts:670-677 | Of each item min(additions, removals) are paired on both sides, and no other pairing of equal items pairs more. |
| DiffLocality.PairedExactly | scripts/fix-changelogs.ts:659-677 | An addition is paired exactly when the diff removes the same item (same file, same text but for white space around) more often than it adds it before. |
| DiffLocality.OneWithOne | scripts/fix-changelogs.ts:589-591 | One addition and one removal pair exactly when file and trimmed text agree. |
| DiffPairing.PromotedCount | scripts/fix-changelogs.ts:686-702 | In each hunk the promoted lines number the surplus of open additions over unpaired removals. |
| DiffPairing.PromotedAreLast | scripts/fix-changelogs.ts:686-702 | ... and are the last of them. |
| DiffPairing.CollectPromotableAddedItemLines | scripts/fix-changelogs.ts:593-705 | The whole collection returns, per path, exactly the line numbers of the promoted additions of the scanned diff. |
| DiffLocality.CollectedPerFile | scripts/fix-changelogs.ts:593-705 | On a well-formed diff of different files the lines collected for a file are those collected from its own part of the diff. |
| DiffPairing.CollectedOnce | scripts/fix-changelogs.ts:686-705 | That determines what is returned. |
| DiffPairing.PromotionAccounting | scripts/fix-changelogs.ts:679-702 | A hunk promotes nothing under an added release heading, else exactly max(0, unpaired additions - unpaired removals) lines. |
| ChangelogItems.ParseItems | scripts/fix-changelogs.ts:234-264 | The index-driven loops find the items: each list line with all lines up to the next. |
| ChangelogItems.LineRangeSet | scripts/fix-changelogs.ts:266-274 | The nested loops collect exactly the line numbers of the items. |
| ChangelogItems.RemovalExact | scripts/fix-changelogs.ts:546-550 | On lines numbered in order, filtering out the chosen items' line ranges removes exactly those items and nothing else. |
| ChangelogItems.ItemsOfKept | scripts/fix-changelogs.ts:546-550 | What is left reads back as exactly the items that were not chosen. |
| ChangelogRepair.AppendItem | scripts/fix-changelogs.ts:218-232 | Appending an item adds it after the subsection's items and changes no other. |
| ChangelogRepair.AppendKeepsLines | scripts/fix-changelogs.ts:218-232 | Appending loses no line and invents none but blank ones. |
| ChangelogSpacing.AppendedGap | scripts/fix-changelogs.ts:218-232 | What was there and what is added stand whole, and between them one empty line, but for list items next to each other. |
| ChangelogRepair.HasItemIs | scripts/fix-changelogs.ts:280-287 | Comparing joined texts tells items apart: the test answers whether the item is there. |
| ChangelogRepair.AddAllIs | scripts/fix-changelogs.ts:554-559 | Promoted items join those already there, in order, each once. |
| ChangelogPromotion.PromoteItems | scripts/fix-changelogs.ts:542-561 | The loop over the live array of sections, which meets a section twice when it puts Unreleased in front of it, leaves the specified document and counts the promoted items. |
| ChangelogPromotion.PromotionConserves | scripts/fix-changelogs.ts:542-561 | Every released section keeps heading, subsections and exactly the items that are not promotable; Unreleased gains, under the same titles and in document order, the promoted items it lacks. |
| ChangelogPromotion.DocumentConserves | scripts/fix-changelogs.ts:542-561 | In the document the loop leaves, every released section is in its place with all but the items taken, and the Unreleased section has gained those it lacked, in order. |
| ChangelogPromotion.NoEntryLost | scripts/fix-changelogs.ts:542-561 | Every item of a released subsection is still there, or its text is in Unreleased under the same title, which keeps what it had. |
| ChangelogPromotion.DocumentParsed | scripts/fix-changelogs.ts:536-542 | Every document the parser returns meets the conditions of these theorems. |
| ChangelogPromotion.SecondVisitTakesNothing | scripts/fix-changelogs.ts:331-343 | Creating Unreleased in front makes the loop visit a section twice; the second visit changes nothing. |
| ChangelogPromotion.VisitAgain | scripts/fix-changelogs.ts:331-343 | The visit after Unreleased has been put in front meets the same section and leaves the array as it is. |
| ChangelogNormalize.NormalizeSection | scripts/fix-changelogs.ts:379-419 | The loop with its title map computes the specified section and counters. |
| ChangelogNormalize.CompactKeepsLines | scripts/fix-changelogs.ts:359-377 | Compacting list spacing keeps every line that is not blank, in order. |
| ChangelogSpacing.CompactExactly | scripts/fix-changelogs.ts:359-377 | A list that begins with an item loses exactly the blank lines that no more text of an item follows; other text keeps all but its blank edges. |
| ChangelogNormalize.NormalizeConserves | scripts/fix-changelogs.ts:379-419 | Under each title the lines that are not blank are those of all subsections with it, in order; titles are then distinct, none is empty, and kept, merged and dropped headings add up. |
| ChangelogNormalize.SortKeepsLines | scripts/fix-changelogs.ts:354-357 | Sorting Unreleased's headings orders them and leaves every title's lines as they were. |

## Left out

- The inliner's default mode, which treats member access as pure and is not meant to preserve every effect; only `--strict-effects` is modelled.
- Parts of JavaScript outside the fragment: shorthand properties, type positions, destructuring, function values that are stored, getters on locals, exceptions caught inside the helper, `for` headers (loops are `while` loops).
- `InlineTheorem.CallInlined`: helpers with a guard that mentions a local of the tail are left out, since for them it is false (`GuardReads.GuardReadsExact`); guards that mention one and never read it are left out with them.
- That generated names do not occur in the helper's body is assumed, since the tool reserves names of the target block only.
- The rounds of `inlineFile`, which collects helpers again after each one: a caller and one helper are followed, and a helper that calls another is not.
- Runs are followed for every number of loop rounds; a run that never ends is covered round by round.
- Text edits by source position (overlap of edits, comments, formatting) are modelled as substitution by binding.
- Wrap-around of the 32-bit sums of span lengths: it cannot happen in a laminar forest of a file with 32-bit line numbers, and is not modelled for overlapping spans.
- UTF-8 boundaries and byte offsets of the summarizer: a source is a string of characters.
- Tree-sitter and the language tables: trees are arbitrary, and whether one has errors is an input.
- SQLite itself (row ids, column types, rollback), tokenization, columns copied straight through, path-derived columns, process pools beyond one atomic write per file.
- Session files whose stored part changes or ends in a torn line: growth by whole newline-terminated lines is a hypothesis of the sync theorems.
- The edit-section grammar of a session's edit calls: sections are values of the decoded line.
- `ReadCoverage.ChunkRange`: asks for a line cap of at least 1, because the source's loop does not end otherwise (`ReadCoverage.ChunkAdvances`).
- `ReadReplay.Replay`: asks for starts of at least 1, ranges that do not end before they start, and positive limits.
- Parsing of read selectors, footers and tool arguments, the Pareto filter and the search over configurations.
- `Splice.ApplyEdits`: contents are shorter than the address space.
- The hunk-header regular expression: a header line comes with its number.
- Dropping Unreleased items that repeat a released one, recovery from history and version order: they would add the same kind of claim with less in it.
- All drivers, command lines, network, git and file access.
