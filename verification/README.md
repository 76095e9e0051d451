# reldir, modelled and proved

reldir governs a folder of JSON files as a relational database. Most of its
core is a fast or incremental form that has to agree with a simple one: a
change judged by what it touches and not by judging everything, a folder
examined through stamps or a report of changed paths and not by reading every
file, history recorded by difference and not from nothing. This project models
those algorithms in Dafny and proves that each agrees with its simple form, or
exactly when it does.

The chapters, each a few modules:

- **Judging** (`Verdicts`, `Judging`, `Scoping`, `Prospecting`, `Catalogs`,
  `Validity`): the findings of a state as a function of its files; a verdict
  patched through a scope is the whole verdict.
- **Cycles** (`Forests`, `Cycles`, `CycleReports`, `TableGraph`): the depth-first
  search with its explicit stack, trail and colours decides acyclicity, and
  which cycles it reports.
- **Merging** (`Merging`, `MergeDocuments`, `TheirsResolved`, `Pointer`,
  `Document`, `Numbers`, `CanonicalForm`): three-way merge of values, and of
  documents that keep their member order.
- **Marking** (`MarkLayout` to `MarkTheorems`): conflict blocks spliced into a
  document's tokens, with commas placed so that every choice is JSON.
- **Contracts** (`Lexical`, `Shapes`, `Widenings`, `Tallies`, `Inference`,
  `Tallying`, `TableContract`, `Emission`): the join-semilattice of observed
  shapes, the tally that infers them, and the JSON Schema they are written as.
- **Referential actions** (`Referential` to `ReferentialChains`): the worklist
  closure over foreign keys as a function, the stateful form with its indexes,
  and what deletions, and plans of any kind, leave behind.
- **Scanning** (`Scanning`, `Coherence`): the cached scan and the monitor-driven
  one; and that taking a planned change in leaves what scanning would.
- **Naming** (`Utf8`, `Percent`, `Texts`, `Alphabets`, `AlphabetText`,
  `Naming`, `Identities`, `IdentityInference`): file names and keys determine
  each other; inference finds every convention a folder follows.
- **History** (`Recording`, `RecordedTree`, `Numbering`): deltas, trees and
  revision numbers.
- **Locating** (`Layouts`, `Locator`, `Locating`, `Locate`, `LocateExactly`):
  the byte scanner refines a grammar of laid-out documents.

Code that changes state is modelled by classes and methods with loops, each
proved equal to a function whose properties are lemmas; code made of
expressions is modelled by functions.

`dafny verify dfyconfig.toml` checks everything.

## Where the code and what is said of it differ

- The comment on `cycles` (integrity.rs:638-639) speaks of every elementary
  cycle. The search takes each node once, and of two cycles through a diamond
  reports one (`CycleReports.NotEveryElementaryCycleIsReported`). It reports
  every one exactly when each edge that lies on a cycle goes to the node it
  enters, or back up the forest the graph and the order of its keys determine
  (`CycleReports.EveryCycleIsReportedExactly`). That it reports something
  exactly when the graph is cyclic does hold.
- Keeping ours throughout a marked document gives the merged value as a
  logical value. Its spelling can change, since conflict sides are written
  canonically: exactly when some number on our side of a block is not in
  canonical form (`MarkTheorems.OursIsExact`, `MarkTheorems.OursCanBeRespelled`).
- The base side of a whole-document block with no ancestor is empty text, so
  keeping it is not JSON; every other resolution is
  (`MarkTheorems.EveryResolutionIsJson`).
- `still_held` (referential.rs:530-569) compares columns by name. Where a
  foreign key has several target tables, and one has a secondary unique key on
  the columns another is compared by, an accepted deletion can leave a
  reference to nothing. `ReferentialLimits.SafeExactlyWhenCoherent` says for
  which schemas this can happen, and `ReferentialLimits.SchemasCanBeIncoherent`
  names some: a condition on the schemas alone.
- The closure is described as leaving every reference true (referential.rs:1-20).
  A row is examined for the keys it held before the plan alone, so a plan that
  gives a row a key and deletes the row it cascades from is accepted and can
  leave a reference dangling (`ReferentialMixed.MixedPlansCanDangle`). No plan
  whose own references are sound can, exactly when no table that a foreign key
  targets itself cascades deletions (`ReferentialChains.SafeExactlyWhenUnchained`):
  again a condition on the schemas alone.
- Two rows trading paths are both to be kept (transaction.rs:190-192). Planned
  in one statement, the second change plans away the path the first filled
  (referential.rs:236-240), so the closure keeps one of them and accepts
  (`ReferentialPlans.TradedRowIsLost`, `ReferentialPlans.PlannedRowsAreKeptExactly`).
- A contract of big integers has a schema that accepts `3.0`, which the contract
  does not admit (`Emission.SchemaCanBeWider`); exactly which values are accepted
  beyond a contract is `Emission.SchemaAcceptsTheContract`.
- The normal form of an alphabet is unique except across the surrogate gap,
  where `successor` finds no next character (`Alphabets.GapHasTwoForms`); two
  forms of one set agree exactly when both break there or neither does
  (`Alphabets.NormalIsOneExactly`).
- A file named only `.json` has no extension for the scan, and ends in `.json`
  for the monitor-driven path (`Scanning.OnlyExtensionIsTaken`,
  `Scanning.OnlyExtensionDiffers`).
- The comment at history.rs:687-688 says the next writer gives revisions the
  numbers a reader gave them. Where an earlier revision arrives in between it
  does not (`Numbering.NumbersCanChange`); exactly when it does is
  `Numbering.LaterNumbersAgreeExactly`.
- The locator's answer is called exact (locate.rs:1-13). A byte-order mark,
  which the parser takes (json.rs:63-67), is to the locator a scalar, and
  whatever the document holds is not located: exactly the documents with
  nothing inside keep every pointer (`LocateExactly.MarkHidesWhatIsInside`).
- Identity inference tries no template when the first file listed has an empty
  key, so there the listing order matters
  (`IdentityInference.OrderMattersExactlyWhen`).

## Model

| member | source | states |
|---|---|---|
| Verdicts.FindingsAreTotal | crates/reldir-core/src/integrity.rs:36-56 | the order findings are put in is a strict total order whose only ties are identical findings, optional fields included |
| Verdicts.CanonicalIsOne | crates/reldir-core/src/integrity.rs:41-56 | two verdicts have one canonical form exactly when they hold the same findings as multisets: it forgets how they were found and nothing else |
| Verdicts.Rebuild | crates/reldir-core/src/integrity.rs:76-97 | the swap-remove loop succeeds exactly when every finding of `before` is held, counted with multiplicity, and then leaves previous − before + after as multisets |
| Verdicts.Revalidate | crates/reldir-core/src/integrity.rs:69-103 | the patched verdict is the very sequence canonicalizing any verdict with those multisets gives; and it is refused exactly when `before` is not held |
| Prospecting.Judge | crates/reldir-core/src/integrity.rs:342-636 | the nested judging loops, whole or by scope, produce the specified findings of every rule in order, errors and warnings apart |
| Scoping.RuleExchanges | crates/reldir-core/src/integrity.rs:346-636 | for every kind of rule -- row faults, primary and unique keys, namespaces, foreign keys, acyclic graphs, checks, assertions -- and every change confined to the scope, whole-after − scoped-after = whole-before − scoped-before as multisets |
| Scoping.ScopedIsWhole | crates/reldir-core/src/integrity.rs:58-103 | so a whole verdict of the old state, less the scoped findings before, plus those after, is the whole verdict of the new state, for errors and for warnings |
| Catalogs.ScopeConfines | crates/reldir-core/src/catalog.rs:424-449 | the paths a change touches, with the keys they hold before and after it, cover the change: every file outside stays, and none inside holds a key outside |
| Catalogs.ScopedVerdictIsWhole | crates/reldir-core/src/catalog.rs:344-422 | the two facts together, for every list of writes and deletes of row files, valid rows or not |
| Catalogs.Mirror.Put | crates/reldir-core/src/mirror/files.rs:167-268 | storing a file replaces what its path held and keeps the path order |
| Catalogs.Mirror.Remove | crates/reldir-core/src/mirror/files.rs:138-165 | forgetting a path removes exactly its file and keeps the path order |
| Catalogs.ScopeChange | crates/reldir-core/src/catalog.rs:424-449 | the loops over paths and writes compute exactly the tables, paths and keys of the change |
| Catalogs.IngestRows | crates/reldir-core/src/catalog.rs:226-342 | the mirror after the deletes and then the writes, and the findings of the observation that survive plus the name collisions the change makes |
| Catalogs.Prospect | crates/reldir-core/src/catalog.rs:344-422 | whether it patches an earlier verdict by scope or judges afresh, the result is the canonical whole verdict of the new state; refused, with the mirror untouched, exactly when some path is no row file |
| Validity.UniqueFindsNothing | crates/reldir-core/src/mirror/keys.rs:162-217 | a candidate key is clean exactly when no two files hold one key under it |
| Validity.NamespaceFindsNothing | crates/reldir-core/src/integrity.rs:429-511 | a domain or target list is clean exactly when no primary key is held in two of its tables |
| Validity.ForeignFindsNothing | crates/reldir-core/src/mirror/keys.rs:95-149 | a foreign key is clean exactly when every reference under it names a key some allowed row holds |
| Cycles.Search | crates/reldir-core/src/integrity.rs:638-725 | the explicit-stack three-colour search terminates, returns nothing exactly when the graph has no closed walk, takes the forest a recursive search of the starts in order takes, and reports exactly the elementary cycles down it closed by one edge back up, each set of nodes once |
| Cycles.TrailCloses | crates/reldir-core/src/integrity.rs:696-711 | a grey neighbour is always on the trail, and the trail from it, closed by it, is a cycle |
| Cycles.FinishedIsAcyclic | crates/reldir-core/src/integrity.rs:671-692 | finishing every node with no back edge met leaves no closed walk anywhere in the graph |
| CycleReports.EveryCycleIsReportedExactly | crates/reldir-core/src/integrity.rs:638-725 | every elementary cycle is reported if and only if each edge that lies on a cycle keeps to the forest that the graph and the order of its starts determine: it enters its node, or goes back up |
| CycleReports.ReportsAreOne | crates/reldir-core/src/integrity.rs:664-725 | the graph and the order of its starts settle which cycles are reported and where each begins |
| CycleReports.NotEveryElementaryCycleIsReported | crates/reldir-core/src/integrity.rs:638-648 | of the two elementary cycles of a four-node diamond the search reports the first and not the second |
| TableGraph.TableCycles | crates/reldir-core/src/integrity.rs:640-725 | building the key graph from rows and edges and searching it: a table is reported acyclic exactly when no chain of references returns to its start, and each report is a cycle with the first path holding each key, and the reports are those of the search over the keys in order |
| Merging.ConflictsAreSymmetric | crates/reldir-core/src/merge.rs:89-124 | the sides conflict at a path exactly when they do with ours and theirs exchanged |
| Merging.MergeIsSymmetric | crates/reldir-core/src/merge.rs:89-155 | resolving any set of conflicts their way equals the exchanged merge with the complementary set |
| Merging.TheirWayIsOursExchanged | crates/reldir-core/src/merge.rs:157-163 | all conflicts resolved as theirs is the merge with the sides exchanged; a clean merge commutes |
| Merging.OnlyConflictsMatter | crates/reldir-core/src/merge.rs:89-124 | a choice made anywhere but at a conflict changes nothing of the result |
| Merging.ConflictsAreApart | crates/reldir-core/src/merge.rs:126-155 | no conflict pointer is a proper prefix of another |
| Merging.ConflictsAreForks | crates/reldir-core/src/merge.rs:89-124 | both sides differ from the ancestor and each other at a conflict, not both objects, under objects all the way down |
| Merging.SetResolvesOne | crates/reldir-core/src/merge.rs:394-413 | setting their value at one conflict turns the merge into the one with that conflict resolved their way |
| MergeDocuments.MergeOrderIsComplete | crates/reldir-core/src/merge.rs:126-155 | the merged member order lists each name of any side exactly once |
| MergeDocuments.MergeValueMeans | crates/reldir-core/src/merge.rs:89-155 | the order-keeping recursion that threads a conflict list computes the merge of values and reports every conflict once with what each side holds, and nothing else |
| TheirsResolved.SetTreeSetsContent | crates/reldir-core/src/merge.rs:394-413 | editing a document in place at a pointer is setting the value there; the document stays well formed |
| TheirsResolved.TheirsResolvedIsMergeExchanged | crates/reldir-core/src/merge.rs:186-196 | setting theirs at every conflict in turn gives, up to member order, the merge with the sides exchanged |
| Pointer.SplitChild | crates/reldir-core/src/merge.rs:415-422 | splitting a pointer gives back its parent and its last token, through RFC 6901 section 4 escaping, for every name |
| Pointer.TextIsInjective | crates/reldir-core/src/schema/path.rs:191-204 | a pointer text names one path only |
| Document.JsonIsSpelledTrees | crates/reldir-core/src/json.rs:56-76 | a token sequence is accepted exactly when it spells a document without repeated names, and it spells only one |
| Numbers.PlainReadsBack | crates/reldir-core/src/value.rs:227-249 | the plain decimal text of an exact number reads back as that number |
| Numbers.CanonicalIsStable | crates/reldir-core/src/value.rs:406-410 | canonical number text is its own canonical text |
| CanonicalForm.CanonicalKeepsValue | crates/reldir-core/src/canonical.rs:18-52 | the canonical form, members sorted and numbers normalized, is a well-formed document of the same logical value |
| CanonicalForm.OneFormPerValue | crates/reldir-core/src/canonical.rs:18-52 | two documents have one canonical form exactly when they are one logical value |
| Marking.GroupByParent | crates/reldir-core/src/merge.rs:278-286 | conflicts are collected by parent pointer, in order |
| MarkPlan.PromotedIsApart | crates/reldir-core/src/merge.rs:287-307 | promoting a parent with no member to anchor on cannot overlap a conflict left pending |
| MarkPlan.PromotionKeeps | crates/reldir-core/src/merge.rs:296-307 | promotion keeps the conflicts disjoint, in place and faithful to the sides, and lowers the sum of their depths |
| Marking.SettledIsPending | crates/reldir-core/src/merge.rs:273-307 | the promotion loop ends with conflicts that are still faithful and all have an anchor |
| Marking.Settle | crates/reldir-core/src/merge.rs:273-307 | the loop that rewrites `pending` until nothing is unanchored computes exactly that, and terminates |
| Marking.SpliceAll | crates/reldir-core/src/merge.rs:380-391 | splicing replacements from the last back leaves each in its place |
| MarkTheorems.Stretches | crates/reldir-core/src/merge.rs:308-379 | the replacements collected are exactly the blocks, commas and anchors of every group, or one whole-document block |
| MarkTheorems.MarkConflicts | crates/reldir-core/src/merge.rs:252-392 | the whole marking method produces the specified marked document |
| MarkOutcome.EveryChoiceIsJson | crates/reldir-core/src/merge.rs:324-391 | below the root, any independent choice of side at each block leaves exactly the tokens of a well-formed document: the chosen side at each block, our merge everywhere else |
| MarkTheorems.EveryResolutionIsJson | crates/reldir-core/src/merge.rs:243-392 | a resolution of the marked document is JSON exactly when it does not keep the missing ancestor of a whole-document block |
| MarkTheorems.ResolutionHolds | crates/reldir-core/src/merge.rs:243-392 | and then at every block it holds the side chosen there, and elsewhere what both resolved documents hold |
| MarkTheorems.OneSideThroughout | crates/reldir-core/src/merge.rs:186-212 | ours throughout is the merged value, theirs throughout the theirs-resolved value, as logical values |
| MarkTheorems.OursIsExact | crates/reldir-core/src/merge.rs:214-216 | ours throughout is the merged value spelling and all, exactly when every number our sides hold is already canonical |
| MarkTheorems.OursCanBeRespelled | crates/reldir-core/src/merge.rs:214-242 | keeping our 1.50 against 2 gives 1.5; and the base side of that block, with no ancestor, is not JSON |
| MarkTheorems.MergeIsPending | crates/reldir-core/src/merge.rs:165-212 | what the merge hands to marking always meets what marking assumes |
| Shapes.JoinCommutes | crates/reldir-core/src/shape.rs:587-603 | join is commutative over nested records, maps, arrays, number classes and string forms |
| Shapes.JoinAssociates | crates/reldir-core/src/shape.rs:426-477 | join is associative, although a map absorbs a record name by name |
| Shapes.JoinIsIdempotentWithBottom | crates/reldir-core/src/shape.rs:535-540 | join is idempotent and `bottom` is its identity |
| Shapes.JoinIsLeast | crates/reldir-core/src/shape.rs:587-603 | the join is below a shape exactly when both sides are: it is the least upper bound |
| Shapes.LeIsBelow | crates/reldir-core/src/shape.rs:605-609 | deciding the order by joining and comparing agrees with reading the structure |
| Shapes.WideningIsLeast | crates/reldir-core/src/shape.rs:617-620 | `widening_for` is above the old shape, admits the value, and is below every shape that does both |
| Widenings.WidenIsEmptyExactlyWhenAdmitted | crates/reldir-core/src/shape.rs:622-630 | no widening is called for exactly when the value is admitted, at every depth |
| Widenings.ListWidenings | crates/reldir-core/src/shape.rs:748-833 | the list-appending recursion keeps what was listed and adds exactly the specified widenings |
| Tallies.TallyOfConcatenation | crates/reldir-core/src/shape.rs:884-900 | merging tallies is tallying the concatenation: merge is a homomorphism |
| Tallies.TallyOfPermutation | crates/reldir-core/src/shape.rs:863-900 | a tally does not depend on the order its values came in |
| Tallying.Counts.Count | crates/reldir-core/src/shape.rs:863-882 | counting a value in place reaches exactly the tally of one more value, counts below included |
| Tallying.Counts.Absorb | crates/reldir-core/src/shape.rs:884-900 | absorbing a tally in place reaches exactly their merge |
| Tallying.Reduce | crates/reldir-core/src/shape.rs:902-949 | reducing a tally, with a freshly merged tally at each map, terminates and gives the same shape in whatever order members are taken |
| Tallying.InferShape | crates/reldir-core/src/shape.rs:576-585 | the loop over values computes the inferred contract |
| Inference.MergeIsLow | crates/reldir-core/src/shape.rs:921-949 | a merged tally is no taller than the tallies merged: what the recursion through maps descends on |
| Inference.InferAdmitsItsValues | crates/reldir-core/src/shape.rs:576-585 | inference never refuses a value it was inferred from, at any depth, whatever is judged a map |
| Inference.InferIgnoresOrder | crates/reldir-core/src/shape.rs:576-585 | the same values in any order infer the same contract |
| TableContract.FromRowsRefusesSharedPaths | crates/reldir-core/src/shape.rs:970-988 | a table is refused exactly when two rows share a path, naming the least such path |
| TableContract.FromRowsAdmitsItsRows | crates/reldir-core/src/shape.rs:970-1002 | a table contract is a record that admits each of its rows |
| TableContract.FromRowsIgnoresOrder | crates/reldir-core/src/shape.rs:970-1002 | it depends on the rows, not on the order they were listed in |
| TableContract.EmptyTableAdmitsOnlyEmptyRows | crates/reldir-core/src/shape.rs:970-976 | with no rows the contract admits exactly the empty object |
| Tallying.ObserveTable | crates/reldir-core/src/shape.rs:970-1002 | sorting, refusing duplicates and counting row by row computes that contract |
| Emission.EmissionIsExact | crates/reldir-core/src/shape.rs:675-746 | under JSON Schema 2020-12, with the integer, float and ULID keywords of this program's own dialect, a value validates against the emitted schema exactly when it fits the contract as far as keywords can say, through the merged type list, `anyOf` and nullable forms |
| Emission.SchemaAcceptsTheContract | crates/reldir-core/src/shape.rs:479-509 | every admitted value validates; and a value that validates is admitted exactly unless it holds, where the contract has big integers, a spelling with a fraction or exponent, or, where it has upper-case UUIDs, one of digits alone |
| Emission.SchemaCanBeWider | crates/reldir-core/src/shape.rs:156-164 | 3.0 validates against an integer contract that does not admit it |
| Referential.StepAdvances | crates/reldir-core/src/referential.rs:251-298 | each step of the worklist raises the count of events within its bound or leaves it and shortens the queue: the closure terminates |
| ReferentialState.State.Index | crates/reldir-core/src/referential.rs:100-137 | indexing adds or removes one path under every key its row holds or names and nothing else |
| ReferentialState.State.Plan | crates/reldir-core/src/referential.rs:87-98 | after planning a row both indexes are exact: a path is under a key exactly when the planned row there holds or names it |
| ReferentialState.State.FindHolder | crates/reldir-core/src/referential.rs:530-569 | asking the indexes and the mirror whether a key is still held answers for the folder as planned |
| ReferentialState.State.FindReferrers | crates/reldir-core/src/referential.rs:408-424 | the referrers found are exactly the rows that name the key, as they were or as planned, in path order |
| ReferentialState.Expand | crates/reldir-core/src/referential.rs:215-375 | the stateful expansion, with indexes, queue and deferred checks, computes the specified closure |
| ReferentialClosure.StepKeeps | crates/reldir-core/src/referential.rs:251-298 | every step keeps the invariant that each key is held, about to be examined, or handled at every reference |
| ReferentialClosure.RunLeavesGone | crates/reldir-core/src/referential.rs:476-485 | a path once planned away stays away through the whole run: a cascade takes each row once |
| ReferentialClosure.DeletionsAreSafe | crates/reldir-core/src/referential.rs:215-375 | from a state without dangling references an accepted plan of deletions leaves none, under any mix of cascade, set_null, remove, restrict and no_action, self-references and cycles; every row it touches only loses references or goes, and each one beyond the plan is in `induced` with a true reason |
| ReferentialLimits.SafeExactlyWhenCoherent | crates/reldir-core/src/referential.rs:530-569 | deletions are safe for every folder exactly when no target of a foreign key has a second constraint over columns it compares another target by |
| ReferentialLimits.SchemasCanBeIncoherent | crates/reldir-core/src/referential.rs:530-569 | schemas that meet every declared condition, of which one foreign key into two tables is not coherent and deletions are not safe |
| ReferentialChains.SafeExactlyWhenUnchained | crates/reldir-core/src/referential.rs:1-20 | accepted plans of deletions, insertions, updates and moves together, under any actions but a reset to default, that write only sound references leave none dangling, on every folder, if and only if no table a foreign key targets itself declares a foreign key that cascades deletions |
| ReferentialPlans.OnlyIntroducedCanDangle | crates/reldir-core/src/referential.rs:215-375 | whatever an accepted plan does, only references to keys the plan itself brought in can be left naming nothing |
| ReferentialPlans.KeptPlansAreSafe | crates/reldir-core/src/referential.rs:215-375 | and of a plan that writes only sound references, only where a cascade took away a planned row that could be named |
| ReferentialMixed.MixedPlansCanDangle | crates/reldir-core/src/referential.rs:1-20 | a plan that changes a key of a row and deletes the row it cascades from is accepted and leaves a reference to the changed key dangling |
| ReferentialPlans.PlannedRowsAreKeptExactly | crates/reldir-core/src/referential.rs:226-245 | where no two changes fill one path, every planned row is in the plan if and only if no change leaves a path an earlier one filled |
| ReferentialPlans.TradedRowIsLost | crates/reldir-core/src/referential.rs:215-245 | two rows trading paths in one plan, which is accepted and keeps one of them |
| Scanning.TakeEntry | crates/reldir-core/src/catalog.rs:1159-1197 | one entry, trusted by its stamp, re-read and unchanged, vanished, or judged afresh, ends as reading it would make it |
| Scanning.ScanTable | crates/reldir-core/src/catalog.rs:1041-1203 | whatever was cached, the mirror ends with exactly the admissible files of the table, each with what its current bytes are judged to be; other tables are untouched, every difference is noted, and the findings are those of the listing |
| Scanning.TakePath | crates/reldir-core/src/catalog.rs:745-811 | a reported path is taken exactly when nothing about it but its row can have changed; nothing but its own entry changes |
| Scanning.TakeWatched | crates/reldir-core/src/catalog.rs:726-814 | when it accepts a report covering what changed since a quiet observation, every place is in step with the folder, no two files fold to one name, and a partial refusal leaves every stamp honest |
| Scanning.QuietIsInStep | crates/reldir-core/src/catalog.rs:726-731 | a table examined whole with nothing found leaves every place of it in step and its names apart: what a later report may rely on |
| Scanning.ReportCovers | crates/reldir-core/src/catalog.rs:726-731 | what was in step stays so at every path a covering report does not name, under the same rules |
| Scanning.Refresh | crates/reldir-core/src/catalog.rs:634-706 | one observation after another: by report where that will do and by examining every table otherwise, the mirror holds what examining afresh would put there, and an observation that finds nothing establishes what the next report needs |
| Coherence.IngestedIsScannedExactly | crates/reldir-core/src/catalog.rs:226-342 | where the mirror showed the folder and a change is then written to it, the mirror that took the change in shows the folder if and only if the scan admits every file written |
| Coherence.IngestThenScan | crates/reldir-core/src/catalog.rs:1041-1203 | taking planned rows in, and scanning a table of the folder they are written to, leave the same rows of it |
| Scanning.OnlyExtensionDiffers | crates/reldir-core/src/catalog.rs:213-224 | a file named only `.json`, taken as reported, stands as a scan would leave it exactly when no such file can be read |
| Scanning.OnlyExtensionIsTaken | crates/reldir-core/src/catalog.rs:213-224 | a readable file of that name which the report path takes and the scan refuses |
| Alphabets.FromRangesHolds | crates/reldir-core/src/naming.rs:175-200 | an alphabet is refused exactly when empty or holding `/` or NUL; otherwise its ranges are sorted, disjoint, non-adjacent and hold exactly the characters given |
| Alphabets.Build | crates/reldir-core/src/naming.rs:175-200 | the in-place merging loop computes that normal form |
| Alphabets.Contains | crates/reldir-core/src/naming.rs:202-214 | the binary search answers membership |
| Alphabets.NormalIsOneExactly | crates/reldir-core/src/naming.rs:134-142 | two normal forms of one set of characters are equal exactly when both break at the surrogate gap or neither does |
| Alphabets.GapHasTwoForms | crates/reldir-core/src/naming.rs:144-146 | across U+D7FF and U+E000 one set of characters has two normal forms |
| AlphabetText.AlphabetReadsBack | crates/reldir-core/src/naming.rs:216-314 | parsing what an alphabet is described as gives the alphabet back, through escapes, code points, two-character ranges and hyphens |
| AlphabetText.ParseIsValid | crates/reldir-core/src/naming.rs:216-287 | only alphabets in normal form are ever parsed |
| AlphabetText.Read | crates/reldir-core/src/naming.rs:216-287 | the index-driven parser computes the specified reading |
| AlphabetText.Write | crates/reldir-core/src/naming.rs:289-314 | the describing loop computes the specified text |
| Utf8.TextReadsBack | crates/reldir-core/src/canonical.rs:58-74 | UTF-8 bytes of a text decode to it |
| Utf8.TextIsItsBytes | crates/reldir-core/src/canonical.rs:58-74 | only the bytes of a text decode to it |
| Percent.PercentReadsBack | crates/reldir-core/src/naming.rs:661-680 | a key component reads back from its percent-encoding, which never holds a comma |
| Percent.ReldirEncode | crates/reldir-core/src/naming.rs:661-680 | the encoding loop computes the specified spelling, device names included |
| Percent.PercentDecode | crates/reldir-core/src/canonical.rs:58-74 | the decoding loop computes the specified text, or refuses |
| Texts.JoinedSplits | crates/reldir-core/src/naming.rs:504-515 | comma-joined components split back into the components |
| Naming.ParseInvertsRender | crates/reldir-core/src/naming.rs:639-659 | for every rule, a stem parses to key values exactly when those values render as it |
| Naming.RenderIsInjective | crates/reldir-core/src/naming.rs:535-560 | no two keys name one file |
| Naming.ReldirRefusesLengthAlone | crates/reldir-core/src/naming.rs:661-691 | one non-empty key under the reldir rule is refused only for its length, never as hidden or a device name |
| IdentityInference.NoRuleIsMissed | crates/reldir-core/src/naming.rs:905-1001 | a rule is found exactly when the first key is not empty and some constructible rule, of any alphabet, prefix and suffix, names every file |
| IdentityInference.RuleIsPreferred | crates/reldir-core/src/naming.rs:905-1001 | the rule found is verbatim where any alphabet will do, reldir where that will, a template only otherwise, verbatim inside if possible and with the longest prefix that works |
| IdentityInference.OrderMattersExactlyWhen | crates/reldir-core/src/naming.rs:948-975 | listing the files otherwise changes the rule exactly when a rule exists and one listing begins with an empty key and the other does not |
| IdentityInference.OrderCanMatter | crates/reldir-core/src/naming.rs:948-975 | two files, one keyed by the empty text, for which it does |
| Identities.FindTemplate | crates/reldir-core/src/naming.rs:948-1001 | trying each place the first key occurs, longest prefix first, computes the specified template |
| Identities.InferIdentity | crates/reldir-core/src/naming.rs:807-892 | the loop over columns computes the specified identity and the rule found for each column |
| Identities.FirstFreeIs | crates/reldir-core/src/naming.rs:865-875 | the search for an unused column name ends, at the first numbered name no body has |
| IdentityInference.BodyRenamesNothing | crates/reldir-core/src/naming.rs:807-892 | a body identity renders every row's key to that row's own stem, and the stem parses to the key |
| IdentityInference.StemsReadBack | crates/reldir-core/src/naming.rs:603-636 | a file-stem identity uses a column no body has, and every stem is the key text of the value it gives |
| IdentityInference.StemIsKeyExactlyWhen | crates/reldir-core/src/naming.rs:807-892 | the stem is the key exactly when no constructible rule makes some column's non-empty-first keys the file names |
| IdentityInference.InferenceIgnoresOrder | crates/reldir-core/src/naming.rs:807-892 | identity and the rule found for each column differ between two listings exactly when some column has a rule and its first key is empty in one listing alone |
| IdentityInference.CanonicalExactly | crates/reldir-core/src/naming.rs:693-702 | a stem counts as an integer exactly when it fits 64 bits with no sign but a minus, no leading zero and no minus zero |
| Recording.Pending | crates/reldir-core/src/history.rs:856-937 | reading rows through the mirror's marks alone, and the rest whole, finds exactly the difference between live and recorded |
| Recording.RecordedChanges | crates/reldir-core/src/history.rs:948-993 | the entries recorded for a delta are exactly those it calls for at each path |
| Recording.RecordingIsExact | crates/reldir-core/src/history.rs:948-993 | recording the difference leaves exactly the live state if and only if no table whose schema stands has a second file recorded |
| Recording.NothingIsPendingAfter | crates/reldir-core/src/history.rs:856-937 | where the recorded set is the live one, nothing is pending |
| Recording.RecordedHead.RowChanges | crates/reldir-core/src/mirror/recorded.rs:6-55 | looking only at marked paths finds every row that differs from the recorded head, and no other |
| Recording.RecordedHead.ApplyRecorded | crates/reldir-core/src/mirror/recorded.rs:185-212 | applying changes patches the recorded set and keeps every unmarked path in agreement |
| Recording.RecordedHead.ReplaceRecorded | crates/reldir-core/src/mirror/recorded.rs:139-171 | wholesale replacement keeps the same invariant |
| Recording.RecordedHead.Settle | crates/reldir-core/src/mirror/recorded.rs:214-227 | settling leaves marked only paths that do differ |
| RecordedTree.DeltaApplies | crates/reldir-core/src/history.rs:319-425 | the difference from a recorded head always applies to that head's tree: nothing added is there, nothing changed or removed is missing |
| RecordedTree.Prepare | crates/reldir-core/src/history.rs:319-425 | updating the parent's tree table by table and row by row keeps it valid and holds at each path what the delta records over the parent |
| RecordedTree.UpdateIsRebuild | crates/reldir-core/src/history.rs:319-472 | from a head that describes what is recorded, the updated tree and the tree built from the whole live state agree at every path |
| RecordedTree.BuiltDescribesLive | crates/reldir-core/src/history.rs:426-472 | the whole-state build describes the live state |
| RecordedTree.SyncByDifference | crates/reldir-core/src/history.rs:1070-1091 | patching the recorded set by the difference of two trees leaves exactly what the new tree describes |
| RecordedTree.ReadNonRows | crates/reldir-core/src/history.rs:1023-1068 | what a tree holds besides rows is read off it, and refused exactly when it keeps a table without the file of its schema |
| RecordedTree.Sync | crates/reldir-core/src/history.rs:995-1109 | by difference or wholesale, the mirror's copy ends as the head's tree describes; refused with nothing changed |
| RecordedTree.RecordingStaysDescribed | crates/reldir-core/src/history.rs:319-472 | what a tree describes never has a second schema file, so over it recording is always exact, and the updated tree describes what is then recorded |
| RecordedTree.Record | crates/reldir-core/src/history.rs:856-993 | comparing, preparing and applying in turn keep the mirror's copy, its marks and the head's tree in agreement, and leave exactly the live state recorded |
| Numbering.NumberAll | crates/reldir-core/src/history.rs:634-701 | the walk back from the heads numbers exactly the revisions reached before a numbered one, once each, after the highest number, by time and id; it fails exactly when one of them cannot be loaded |
| Numbering.NumbersAreDistinct | crates/reldir-core/src/history.rs:626-633 | no two revisions share a number, and a new number is above every old one |
| Numbering.EarlierIsLower | crates/reldir-core/src/history.rs:680-687 | among new revisions numbers follow time and then id |
| Numbering.NumberingIsOne | crates/reldir-core/src/history.rs:690-696 | over one history, numbers do not depend on the order its heads are listed or walked |
| Numbering.LaterNumbersAgreeExactly | crates/reldir-core/src/history.rs:687-688 | over a history that has grown, the next writer gives the same revisions the same numbers exactly when every newly reached one comes after them by time and id |
| Numbering.NumbersCanChange | crates/reldir-core/src/history.rs:687-688 | a reader's number that the next writer changes, an earlier revision having arrived in between |
| Numbering.EveryRevisionIsNumbered | crates/reldir-core/src/history.rs:655-672 | where the numbered revisions' parents were numbered, every revision of every lineage is afterwards, so another numbering finds nothing to do |
| Locator.Scanner.Bump | crates/reldir-core/src/locate.rs:90-100 | line and column are, at every step, those the bytes read so far give, counting characters |
| Locator.Scanner.ReadString | crates/reldir-core/src/locate.rs:108-124 | a string is read to its first unescaped quote and decoded, or the input is used up |
| Locate.LocateAll | crates/reldir-core/src/locate.rs:29-235 | for a document in any whitespace layout the frame-stack scan records exactly the marks of the recursive grammar, in order; on arbitrary bytes it terminates and records only positions in the input or at its end, and the root alone where the first byte opens nothing |
| LocateExactly.MarksAreOnce | crates/reldir-core/src/locate.rs:136-235 | a document that repeats no name has at most one value and one name at each pointer |
| LocateExactly.SpansAreExact | crates/reldir-core/src/locate.rs:136-235 | so the spans hold exactly the document's pointers, each at the line and column where its value, or its name, begins |
| LocateExactly.MarkHidesWhatIsInside | crates/reldir-core/src/locate.rs:136-173 | after a byte-order mark the root alone is located, which is every pointer of the document exactly when it has nothing inside |

## Left out

- ReferentialClosure.DeletionsAreSafe: rows carry keys and references apart, so a foreign key whose columns lie inside a candidate key is not covered, nor `set_default`; an action then also never moves a row to another path. It requires every foreign key to be coherent, which `ReferentialLimits.SafeExactlyWhenCoherent` shows is exactly what is needed.
- ReferentialChains.SafeExactlyWhenUnchained: the limits of `ReferentialClosure.DeletionsAreSafe`, coherent foreign keys among them; and rows stay in the table their path belongs to.
- ReferentialState.Expand: the row's JSON is its list of reference slots, each with the array elements it lies within; `set`, `remove_at` and `carried` act on slots and not on nested values.
- Catalogs.Prospect: reading a file's bytes, the table a path belongs to, checks, assertions, locations and the cycles of a graph are functions given to it; `TableGraph.TableCycles` proves the last of these apart.
- Coherence.IngestThenScan: the two models of the mirror are related by the rows they hold; what a path's directory and name are is given.
- Scanning.Refresh: a report is taken to cover what changed since the last observation; folders without a schema, which also make an observation not quiet, are not modelled.
- RecordedTree.SyncByDifference: the node-by-node walk of two Merkle trees is modelled by its result, the paths whose rows differ.
- RecordedTree.Prepare: blobs, packs and row counts are not modelled; a tree is what it holds at each path.
- RecordedTree.UpdateIsRebuild: says of rows and schemas their hashes and not the blobs that hold their bytes. There the two trees do differ, where only a file's formatting changed: the update keeps the blob the parent named.
- Tallying.Counts.Count: the counter's own fields change in place; nested tallies are values a fresh counter loads and stores.
- MarkTheorems.MarkConflicts: a document is its tokens, so whitespace and member indentation around a block are not modelled; `block`'s labels and line breaks are marker tokens.
- TheirsResolved.SetTreeSetsContent: `set` edits a tree value and returns it.
- Widenings.ListWidenings: a widening is its pointer and its reason; the sentence it is told in is not modelled, nor the order among members.
- Emission.EmissionIsExact: a schema is its keywords and their values; the order of keywords and of members is not modelled. `date-time` is read as RFC 3339 section 5.6 without leap seconds, as the classifier reads it.
- AlphabetText.AlphabetReadsBack: which characters are written by code point (controls, whitespace, combining marks) is a parameter; the round trip holds for every choice.
- Identities.InferIdentity: why a column was rejected is not modelled, only that it was.
- Cycles.Search: two cycles are told apart by their set of nodes; the joined signature of the source does so while no key holds U+001F, which a key's JSON text never does.
- Numbering.NumberAll: the table of numbers is a map; whether new entries are persisted is not modelled.
- Locate.LocateAll: decoding a string literal is a function given to the scanner.
- `validate_schemas`, schema loading, configuration and `find_ungoverned`: validation without state across steps.
- SQLite, SQL checks and assertions, planner statistics: opaque functions of rows or of the whole state.
- The commit journal, packs, filesystem, locks, the monitor's socket, clocks and generated identifiers: outside the core logic.
- Diagnostic wording, help, fixes, lints, bindings and the command line: interface and text.
- The parser's depth limit, and `json_edit`'s byte splicing: documents are token sequences.
- Unicode normalization and case folding: `fold` is a parameter.
- `resolve` of a revision by number or prefix, and `fold_collisions`: a lookup and a grouping.
