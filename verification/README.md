# Verified model of the sub2api-plus release, gate and storage logic

This project models the parts of the repository whose correctness cannot be read off one function,
and proves properties of the model with Dafny. `dafny verify dfyconfig.toml` checks all of it.

| files | what they model |
|---|---|
| `EagerLoading.dfy`, `AccountQueries.dfy` | eager loading of account edges: batched loaders with index maps, and the whole account query against a lookup per row |
| `BulkCreate.dfy` | bulk creation of accounts: the nest of hooks, checks and specs around one batch insertion |
| `Versions.dfy`, `VersionTokens.dfy`, `Patterns.dfy`, `LineTokens.dfy` | version names and the regular-expression passes over documents, character by character and token by token |
| `UpstreamTable.dfy`, `MappingRows.dfy`, `ReleaseDocs.dfy`, `ReleaseSelection.dfy`, `ReleaseUpdate.dfy` | the release table, the document rewrite, the selection of the rollback release, the update run on a worktree |
| `Finalization.dfy`, `Regeneration.dfy`, `FinalizationGate.dfy` | the planned-to-published flip, the regenerated tree, and the gate over runs of commits |
| `Migrations.dfy` | the migration gate and what runs of accepted comparisons keep |
| `Coverage.dfy`, `BrowserCoverage.dfy`, `AuditExceptions.dfy` | three gates over an event log, a suite tree and an audit report |
| `ValidationCleanup.dfy` | cleanup, purge and launch of the validation runtime, step by step, with steps that fail |
| `WrittenTree.dfy` | a tree written from three versions, which is clean and can be finalized |
| `Wrappers.dfy`, `Sequences.dfy`, `Strings.dfy`, `StringOrder.dfy` | shared helpers |

Go objects and Python worktrees that are updated in place are classes; loops are methods with
invariants, proved against functions that say what they compute. SQL, git, the container engine and
the file system appear through what they return: rows, trees, diffs, listings, outcomes of steps.

## Where the code does not do what is said of it

Each of these is a lemma that exhibits the failure, next to the condition under which the promise
does hold.

- **A release can be published without finalization.** The gate looks for rows that go from
  `planned` to `published` in one step. Two ordinary pushes, through a third status, publish a row
  and are both accepted (`FinalizationGate.DetourIsOrdinary`); a row that is deleted and added again
  is such a detour too. A run holds the finalization of a release if and only if one of its steps
  makes that move (`FinalizationGate.FinalizedInRunIff`), and a release that was planned and is
  published was finalized unless some commit on the way shows its row otherwise or not at all
  (`FinalizationGate.PublishedOnlyByFinalization`).
- **The finalization of a clean base can be rejected.** The gate reads UPSTREAM.md stripped, so an
  indented first line that is no row of the file may become one and repeat another
  (`FinalizationGate.IndentedCopyIsRepeated`). The regenerated tree is accepted if and only if the
  stripped text of the base has distinct rows (`FinalizationGate.RegeneratedIsAcceptedIff`).
- **A migration can disappear.** `backend/migrations/README.md` forbids renaming migrations; the gate
  reads only the new name of a rename and skips names that do not end in `.sql`
  (`Migrations.RenamingAwayIsAccepted`). A migration survives an accepted comparison, and any run of
  them, if and only if no diff renames it away (`Migrations.AcceptedKeepsUnlessRenamedAway`,
  `Migrations.SurvivesIffNotRenamedAway`).
- **A hook can get a row past the check.** The bulk mutator checks the builder's mutation and only
  then replaces it by the one it was handed (`BulkCreate.SubstitutedMutationEvadesCheck`); even an
  account of no fields at all can be saved (`BulkCreate.EmptyAccountEvadesCheck`). The hooks
  of a builder leave the check in force for every schema if and only if they hand on, from any
  fields, the fields that are checked (`BulkCreate.HooksGuardRowsIff`).
- **A bulk save is all or nothing only if hooks keep verdicts.** A hook that swallows the error of
  the chain it wraps makes the save succeed with nothing inserted, after a failed batch as after a
  failed check (`BulkCreate.SwallowedErrorReportsSuccess`, `BulkCreate.SwallowedCheckReportsSuccess`;
  exact condition in `BulkCreate.AllOrNothingIffVerdictsKept`).
- **Of several fetched rows with one account id, only the last gets its groups and children**
  (`AccountQueries.RepeatedRowLosesItsLists`, exact condition in `AccountQueries.LoadedIsNaiveIff`).
- **The order of an account's groups depends on the other accounts fetched with it**
  (`AccountQueries.OtherAccountsChangeTheOrder`, exact condition in `AccountQueries.SameGroupListIff`).
- **A test that ran and passed may be started again and never finish**; the coverage gate compares
  sets (`Coverage.StartingAgainStaysCovered`). When no test is started twice, every start of a covered
  log is followed by a pass (`Coverage.RunsOncePass`); in general this holds if and only if none is
  started after its last pass (`Coverage.EveryRunPassesIff`).
- **The verdict of the audit gate can depend on the order of findings**: of several findings with one
  key the first decides the severity (`AuditExceptions.OrderMattersIff` says for which reports; it
  does not when severities agree, `AuditExceptions.OrderDoesNotMatterIfSeveritiesAgree`).
- **An audit exception whose value has a line break is not read back** from the file it is written to
  (`AuditExceptions.TwoLineValueIsNotReadBack`, exact condition in
  `AuditExceptions.WrittenListIsReadBackIff`).
- **Outside WSL, cleanup also removes directories it does not know.** Its description limits it to
  validation generations; the branch for local engines removes every directory and link but the
  current one (`ValidationCleanup.CleanUnknownDirectory`, exact condition in
  `ValidationCleanup.CacheBranchesAgreeIff`).

## Model

| member | source | states |
|---|---|---|
| EagerLoading.IndexById | backend/ent/account_query.go:630-635 | the index holds exactly the ids of the nodes, each with the last node that has it |
| EagerLoading.ScanJoin | backend/ent/account_query.go:649-673 | after the scan of the joined rows the neighbours are the groups in first-seen order, and every group is mapped to exactly the accounts the join connects with it |
| EagerLoading.HandOut | backend/ent/account_query.go:678-685 | whatever order the set of accounts is visited in, exactly those accounts receive the neighbour once, all others keep their edges |
| EagerLoading.LoadGroups | backend/ent/account_query.go:627-687 | the failure of the joined query or of an interceptor is returned; otherwise the error is that of the first neighbour not in the join, and without one every account that owns its id holds the neighbours the join connects with it, and nothing else changes |
| EagerLoading.GroupsAreExactlyTheJoined | backend/ent/account_query.go:627-687 | for any join rows, duplicates included, these are exactly the groups joined to the account, each once, in first-seen order |
| EagerLoading.CollectKeys | backend/ent/account_query.go:689-701 | the queried ids are the keys in first-seen order and each is mapped to exactly the accounts holding it |
| EagerLoading.KeysAreQueriedOnce | backend/ent/account_query.go:689-701 | the queried ids are exactly the non-null keys, without repetition |
| EagerLoading.KeysAreInFirstSeenOrder | backend/ent/account_query.go:689-701 | of two queried ids the first is held by an account before which none holds the other |
| EagerLoading.LoadToOne | backend/ent/account_query.go:688-751 | a failed query changes nothing; the error is that of the first neighbour not asked for; without one every account with key k holds the last neighbour with id k, if any, and keeps what it had if none |
| EagerLoading.LoadToMany | backend/ent/account_query.go:752-845 | the error is that of the first neighbour with a null or unknown foreign key, told apart; without one every account that owns its id holds, in return order, the neighbours that refer to it |
| EagerLoading.ManyIsAPartition | backend/ent/account_query.go:752-845 | the lists handed out have together as many elements as there are neighbours: none is lost, none handed out twice |
| EagerLoading.QuerySpecColumns | backend/ent/account_query.go:858-882 | the fetched columns for a select list and the requested edges |
| EagerLoading.ColumnsKeepKeys | backend/ent/account_query.go:858-882 | under every select list the id, all selected columns and the key of every requested edge are fetched as they are in the row |
| EagerLoading.ColumnsReadNothingElse | backend/ent/account_query.go:858-882 | with a select list nothing but the selected columns, the id and the requested keys is fetched; without one the whole row |
| EagerLoading.NeighborsKeepKeys | backend/ent/account_query.go:762-764 | a neighbour query with a select list still fetches the foreign key its loader reads |
| AccountQueries.ToOneIsLookup | backend/ent/account_query.go:704-718 | restricting the neighbour query to the collected ids changes no lookup and makes the unexpected-key error unreachable |
| AccountQueries.ReferringFetched | backend/ent/account_query.go:765-783 | restricting the neighbour query to the account ids and to its columns gives each account the referring rows of the table, fetched, in order |
| AccountQueries.SqlAll | backend/ent/account_query.go:550-625 | no loader fails, and every account ends with the edges looked up in the full tables for its row alone, up to the order of the groups, exactly when it is the last row with its id or has nothing to list; and with the groups in that order too exactly when the shared join shows them so |
| AccountQueries.SharedAreOwnGroups | backend/ent/account_query.go:627-687 | the join for all accounts gives an account the groups of a join for it alone, each once |
| AccountQueries.SameGroupListIff | backend/ent/account_query.go:649-687 | both joins list them in the same order if and only if they first show any two of them in the same order |
| AccountQueries.OtherAccountsChangeTheOrder | backend/ent/account_query.go:649-687 | two accounts and two groups where the shared join reverses the order |
| AccountQueries.LoadedIsNaiveIff | backend/ent/account_query.go:550-625 | what the batches load for a row, groups and all three lists, is its own lookup up to the order of the groups if and only if it is the last row with its id or its lookup lists nothing |
| AccountQueries.LoadedEqualsNaiveIff | backend/ent/account_query.go:550-625 | it is its own lookup, order included, if and only if moreover the orders of the groups agree |
| AccountQueries.RequestedEdgeIsFoundOrMissing | backend/ent/account.go:120-138 | after the query a requested proxy or parent is never reported as not loaded; not found exactly when the key is null or no row has it; otherwise a row with that id |
| AccountQueries.NotRequestedIsNotLoaded | backend/ent/account.go:120-138 | an edge that was not requested reads as not loaded |
| AccountQueries.RequestedGroupsAreRead | backend/ent/account.go:111-118 | groups read as not loaded exactly when they were not requested; the last row with an id reads the groups of its own lookup |
| AccountQueries.RequestedListsAreRead | backend/ent/account.go:140-165 | children, usage logs and account groups read as loaded exactly when they were requested, and the last row with an id reads those of its own lookup |
| AccountQueries.RepeatedRowLosesItsLists | backend/ent/account_query.go:627-687 | an account fetched twice has neither its group nor its child at its first row, and both at its last |
| BulkCreate.Builder.Defaults | backend/ent/account_create.go:527-585 | unset fields receive their defaults, in order, up to the first one without a default; nothing else changes |
| BulkCreate.DefaultsOnlyAdd | backend/ent/account_create.go:527-585 | defaults never change a set field, add only defaults, and fill every defaulted field unless a default is missing |
| BulkCreate.Builder.Check | backend/ent/account_create.go:588-660 | the error of the first broken rule, or none |
| BulkCreate.NoFailureIffChecked | backend/ent/account_create.go:588-660 | there is no error exactly when every rule holds |
| BulkCreate.FailureIsOfFirstBrokenRule | backend/ent/account_create.go:588-660 | the error is that of rule k if and only if k is broken and all rules before it hold: missing when its field is not set, invalid when it is |
| BulkCreate.AccountCheckAfterDefaults | backend/ent/account_create.go:527-660 | after defaults an account passes exactly when name, platform and type were given and all validated fields are valid |
| BulkCreate.MissingDefaultIsCaught | backend/ent/account_create.go:2106-2113 | a required field without a default fails the check although the report of `defaults` is dropped |
| BulkCreate.Chain.Mutate | backend/ent/account_create.go:2108-2142 | the nested calls end, return what the hooks make of the outcome, and leave every later builder, spec, node and the batch log as the run defines |
| BulkCreate.Chain.BatchCreate | backend/ent/account_create.go:2123-2131 | one insertion of all specs in index order, which fails as a whole or gives every row its id |
| BulkCreate.AccountCreateBulk.Save | backend/ent/account_create.go:2095-2152 | at most one batch, run exactly when every builder passed, holding the rows in order; each mutation done exactly when reached and the rest succeeded, then with the id of its row |
| BulkCreate.FaithfulHooksAreAllOrNothing | backend/ent/account_create.go:2095-2152 | with hooks that pass outcomes on, either the save succeeds, the rows are in and all mutations are done, or it fails, no row is in and none is done |
| BulkCreate.ChainInAndOut | backend/ent/account_create.go:2140-2142 | the fields pass the hooks from the outside in up to the first rejection, and the outcome passes the hooks outside of it in reverse |
| BulkCreate.CheckedAtFirstSubstitute | backend/ent/account_create.go:2113-2118 | the check sees the edits of all hooks up to the first one that hands on another mutation, its own edit included |
| BulkCreate.RowIsHandedOn | backend/ent/account_create.go:2117-2119 | the row of a builder holds what its hooks handed on, whenever none rejected |
| BulkCreate.FaithfulSaveReturns | backend/ent/account_create.go:2095-2152 | with hooks that pass outcomes on, a save returns the rejection or the first broken rule of the first builder that is stopped, and the error of the insertion when none is |
| BulkCreate.FaithfulSaveGivesIds | backend/ent/account_create.go:2130-2138 | after a successful save with such hooks every node has the fields its hooks handed on and the id the insertion gave its row |
| BulkCreate.AllOrNothingIffVerdictsKept | backend/ent/account_create.go:2117-2142 | a save is all or nothing for every outcome of the batch if and only if the hooks before the first builder that stops, and those outside that stop, report a failure as one, and when none stops all hooks report success exactly when they were given it |
| BulkCreate.SwallowedErrorReportsSuccess | backend/ent/account_create.go:2132-2142 | for every schema and all fields that pass it, a hook that swallows errors makes the save succeed although the batch failed |
| BulkCreate.SwallowedCheckReportsSuccess | backend/ent/account_create.go:2113-2142 | the same for all fields that fail the check: the save succeeds without any batch |
| BulkCreate.BatchIsChecked | backend/ent/account_create.go:2113-2131 | when the hooks hand on what is checked, every row of a batch keeps all rules |
| BulkCreate.HooksGuardRowsIff | backend/ent/account_create.go:2113-2118 | whatever the schema and the starting fields, a row let through by these hooks and the check keeps all rules, if and only if from all fields the hooks hand on the fields that are checked |
| BulkCreate.WithoutSubstituteHandOnChecked | backend/ent/account_create.go:2108-2118 | hooks that never hand on another mutation do so |
| BulkCreate.SubstitutedMutationEvadesCheck | backend/ent/account_create.go:2113-2118 | for every schema with a required field and all fields that pass it, a hook that hands on an empty mutation gets a row of no fields handed to the batch, and inserted by a save that succeeds when the batch does |
| BulkCreate.EmptyAccountEvadesCheck | backend/ent/account_create.go:2113-2118 | so an account given name, platform and type, all fields valid, is saved as a row of no fields |
| Versions.ParseRenders | tools/release_docs.py:10-13 | what a version expression reads is printed back as the text it was read from |
| Versions.RenderParses | tools/release_docs.py:10-13 | a printed version is read back, whatever follows it |
| Versions.ParseAllIffRendered | tools/release_docs.py:10-13 | a text is a version of a kind exactly when it is the print of well-formed parts |
| Versions.KindsExclude | tools/release_docs.py:10-12 | a text starts with at most one kind of version |
| Versions.DerivedNames | tools/release_docs.py:233-240 | the application version and the image tag derived from a tag are the prints of the same parts |
| Versions.RenderIs | tools/release_docs.py:10-12 | how the three kinds of versions are written |
| Versions.BranchIs | tools/release_finalization.py:124-128 | the branch of a tag as it is written, and none for the overlay number 000 |
| Versions.KeyOrderIsTextOrder | tools/release_docs.py:153-155 | keys order tags by the first group that differs as a number, told from the digits as they are written: fewer significant ones first, then the order of strings |
| Versions.BranchThenTag | tools/release_finalization.py:124-149 | the tag read from the finalization branch of a valid tag is that tag |
| Versions.TagThenBranch | tools/release_finalization.py:124-149 | every branch accepted as a finalization branch is the branch of its tag, so the round-trip error is unreachable |
| VersionTokens.SameShapeGood | tools/release_docs.py:10-13 | exchanging versions for others of their kinds keeps a token sequence the reading of its text |
| Patterns.SubnIsTokenwise | tools/release_docs.py:21-43 | scanning a line for an expression and substituting, character by character, replaces exactly the marked version tokens and counts them |
| Patterns.MatchIff | tools/release_docs.py:21-43 | an expression matches at the head of a text if and only if the text is its literal, white space where it asks for it, a version of its kind, its tail and a rest |
| LineTokens.MarksShape | tools/release_docs.py:21-43 | which tokens an expression marks depends on the shape of the line, not on its versions |
| LineTokens.ExclusiveMarks | tools/release_docs.py:21-43 | two expressions with different text before the version never mark one token |
| LineTokens.WrittenSurvives | tools/release_docs.py:213-230 | what one pass wrote is still there after every other pass of the table |
| LineTokens.RunSettles | tools/release_docs.py:243-274 | running all passes of a document a second time changes nothing |
| LineTokens.ChangeOnePass | tools/release_docs.py:243-274 | when one pass writes another version, exactly the tokens it marks change |
| UpstreamTable.SubnBar | tools/release_docs.py:213-230 | a substitution acts on the cells of a line separately |
| UpstreamTable.RowSurvives | tools/release_docs.py:14-17 | a substitution of the table leaves tag and status of every row of UPSTREAM.md as they were |
| MappingRows.LooseRowIff | tools/release_docs.py:14-17 | a line is a row for the documentation tools if and only if it is composed of bars, a tag in back ticks, any text and a status, with white space around tag and status |
| MappingRows.StrictRowIff | tools/release_finalization.py:18-24 | a line is a row for the finalizer if and only if it is composed of bars, a releasable tag, an upstream tag and a commit of forty hexadecimal digits in back ticks, and a status |
| ReleaseDocs.RewriteDocument | tools/release_docs.py:243-274 | the loop over the replacements computes the rewrite or the first count mismatch |
| ReleaseDocs.TableIsValid | tools/release_docs.py:66-146 | every rule of the document table has expressions that never compete for one version |
| ReleaseDocs.RewriteRuns | tools/release_docs.py:243-274 | a rewrite succeeds exactly when every expression occurs as often as the table says, and is then the run of the passes |
| ReleaseDocs.RewriteReportsFirstMismatch | tools/release_docs.py:243-274 | a failing rewrite names the first expression of the rule whose count in the original text is not the expected one, with that count |
| ReleaseDocs.RewriteIdempotent | tools/release_docs.py:243-274 | rewriting a rewritten document succeeds and returns it |
| ReleaseSelection.SelectPreviousReleaseTag | tools/release_docs.py:162-181 | the loop over the tags returns the selected candidate |
| ReleaseSelection.SelectedIsPrevious | tools/release_docs.py:162-181 | the result is an eligible tag strictly below the target with no eligible one above it, and none exactly when there is no eligible tag |
| ReleaseSelection.SelectionIgnoresOrder | tools/release_docs.py:162-181 | the selection depends on the set of tags only |
| ReleaseSelection.SelectionIsMonotone | tools/release_docs.py:184-210 | giving a row an eligible status never lowers the selected version, which stays or becomes that row |
| ReleaseSelection.MigrationBaseIsNotBelowRollback | tools/check_new_migrations.py:118-141 | the release migrations are compared with is not below the one the documents roll back to, when that one is tagged |
| ReleaseUpdate.ResolvedVersionsAre | tools/release_docs.py:184-210 | versions are found exactly when VERSION names a release with a row and an eligible one is below it; they are that release and the greatest eligible one below it |
| ReleaseUpdate.ResolutionFails | tools/release_docs.py:184-210 | what each failure means: a missing file, an unsupported version, no row for it, no published row below it |
| ReleaseUpdate.FirstFailingDocument | tools/release_docs.py:277-286 | a failing generation is stopped by the first document of the table that is missing or cannot be rewritten |
| ReleaseUpdate.Worktree.RewriteDocuments | tools/release_docs.py:277-286 | the rewrites of all documents, or the first error, without touching the tree |
| ReleaseUpdate.Worktree.Update | tools/update_release_docs.py:16-57 | a check reports the stale documents and writes nothing; an update writes exactly those |
| ReleaseUpdate.RewriteKeepsStatuses | tools/release_docs.py:243-274 | rewriting UPSTREAM.md changes no row of its table |
| ReleaseUpdate.UpdateSettles | tools/release_docs.py:184-286 | generating again from an updated tree gives the same versions and the same documents |
| ReleaseUpdate.UpdateThenCheck | tools/update_release_docs.py:25-50 | after a successful update the check finds nothing stale |
| Finalization.ReadMappingStatuses | tools/release_finalization.py:89-96 | the statuses of the table, or the error for a repeated row |
| Finalization.FlippedRow | tools/release_finalization.py:156-167 | flipping a line changes its status exactly when it is the planned row of the tag, for the strict and the loose reader |
| Finalization.ReplacementIsTheTransition | tools/release_finalization.py:99-121 | after a successful replacement every other row has its status and the transition found between the two texts is exactly the tag |
| Finalization.ReplacementIff | tools/release_finalization.py:156-167 | exactly one planned line of the tag is flipped and no other line changes; otherwise the error tells how many there are |
| Finalization.TransitionTagIff | tools/release_finalization.py:99-121 | a tag is named if and only if it is the only one planned before and published after; otherwise the error tells how many there are |
| Finalization.FlippedStatuses | tools/release_finalization.py:156-167 | the statuses that select versions change at most by that one publication |
| Regeneration.RegenerateExpectedTree | tools/release_finalization.py:188-243 | the step-by-step regeneration computes the regenerated tree or its error |
| Regeneration.CleanIffCheckPasses | tools/release_docs.py:289-296 | a tree is clean exactly when every document equals its rewrite |
| Regeneration.VersionsAfterFlip | tools/release_docs.py:184-210 | publishing a planned row keeps the current version and never lowers the rollback version |
| Regeneration.FlippedUpstreamIsClean | tools/release_finalization.py:188-243 | the flipped UPSTREAM.md of a clean tree is still what its own rewrite gives |
| Regeneration.RewriteForAnotherRollback | tools/release_docs.py:243-274 | rewriting a clean document for another rollback version changes it exactly when its rule has rollback commands |
| Regeneration.CleanBaseRegenerates | tools/release_finalization.py:188-243 | from a clean base the regeneration changes UPSTREAM.md and, exactly when the rollback version moved, the documents with rollback commands; the path rejection is unreachable |
| Regeneration.RegeneratedIsClean | tools/release_finalization.py:188-243 | from any base, clean or not, a regenerated tree passes the update check |
| Regeneration.RegeneratedIff | tools/release_finalization.py:188-243 | from any base the regeneration succeeds if and only if one line shows the tag as planned, the documents can be generated with it published, and only the five allowed documents change; tree and paths are then determined |
| WrittenTree.WrittenTreeIsClean | tools/release_docs.py:66-146 | for a release, an earlier one and a third to be planned, the documents written for the rules of the table form a clean tree with these versions and one planned row |
| WrittenTree.SomeTreeCanBeFinalized | tools/release_finalization.py:188-243 | there is a clean tree with one planned row |
| FinalizationGate.AcceptedIsOrdinaryOrRegenerated | tools/release_finalization.py:255-347 | an accepted change publishes nothing, or publishes one row and is the regenerated tree of its base, on the branch or merge the tag demands |
| FinalizationGate.OrdinaryIff | tools/release_finalization.py:309-347 | off the finalization branches a change is ordinary if and only if both tables are read and no tag goes from planned to published |
| FinalizationGate.OrdinaryErrors | tools/release_finalization.py:325-335 | and elsewhere than on a push to the default branch the only errors are a missing table, a repeated row and a publication, each exactly then |
| FinalizationGate.UncheckedIsOrdinary | tools/release_finalization.py:317-324 | without a base or head, for a new branch and on other events nothing is checked |
| FinalizationGate.FinalizationIsAcceptedIff | tools/release_finalization.py:255-347 | a finalization is accepted if and only if the change publishes one row, is the regenerated tree of its base, and comes on the branch of its tag or as a merge pushed to the default branch |
| FinalizationGate.NamedErrors | tools/release_finalization.py:255-347 | the verdict on a finalization branch, error by error in the order they are found; a wrong branch is always told as a wrong tag |
| FinalizationGate.RegeneratedIsAcceptedIff | tools/release_finalization.py:255-347 | the regenerated tree of a clean base with one planned row of the tag, proposed on the branch of the tag, is accepted if and only if the stripped UPSTREAM.md of the base has distinct rows; otherwise the repeated row is the error |
| FinalizationGate.MergedIsAcceptedIff | tools/release_finalization.py:255-347 | pushed to the default branch it is accepted if and only if moreover the head is a merge of the base with a commit of the same tree |
| FinalizationGate.IndentedCopyIsRepeated | tools/release_finalization.py:74-82 | a text with distinct rows whose first line is an indented copy of one has a repeated row once it is stripped |
| FinalizationGate.TransitionIsStatusChange | tools/release_finalization.py:99-121 | a transition is found for a tag exactly when its row is planned before and published after |
| FinalizationGate.FinalizedIffPublished | tools/release_finalization.py:309-347 | a step of an accepted run is classified as the finalization of a tag if and only if it takes its row from planned to published; the head is then the regenerated tree of the base |
| FinalizationGate.FinalizedInRunIff | tools/release_finalization.py:309-347 | over any accepted run, some step is the finalization of a tag if and only if some step takes its row from planned to published in one move |
| FinalizationGate.FinalizedHeadIsClean | tools/release_finalization.py:188-347 | over any accepted run the head of every finalization passes the update check, whatever the commits before it |
| FinalizationGate.PublishedOnlyByFinalization | tools/release_finalization.py:309-347 | over any accepted run, a release that goes from planned to published was accepted as a finalization at some step, unless some commit between shows its row with another status or not at all |
| FinalizationGate.DetourIsOrdinary | tools/release_finalization.py:309-347 | a run that publishes a planned row through a third status is accepted as ordinary at every step |
| FinalizationGate.PrintedRowIsRead | tools/release_finalization.py:18-24 | a row printed with its columns is read back by the strict reader |
| Migrations.GreaterPrefixIsLater | tools/check_new_migrations.py:17 | a name with a greater numeric prefix sorts later |
| Migrations.MigrationNameIff | tools/check_new_migrations.py:17 | a name is accepted if and only if it is three digits, possibly a letter, an underscore, a description of lower-case letters, digits and underscores, and the ending |
| Migrations.PrefixOrderIsTextOrder | tools/check_new_migrations.py:17 | prefixes are ordered as their three digits are |
| Migrations.NumberAdded | tools/check_new_migrations.py:191-207 | the new files, the maximum raised by unchanged pinned files, and for each file what is wrong with its name, its content or its pinned blob, and nothing else |
| Migrations.Validate | tools/check_new_migrations.py:144-228 | no error exactly for an accepted comparison, and each error exactly for the file and the reason it names, with the maximum that a prefix should exceed |
| Migrations.AcceptedIffPairwise | tools/check_new_migrations.py:144-228 | a comparison is accepted if and only if the listing is well named, every change is accepted on its own, and every two together: new files with different numbers, and pinned ones below new ones |
| Migrations.AcceptedKeepsUnlessRenamedAway | tools/check_new_migrations.py:101-115 | an accepted comparison keeps a migration with its content exactly when the diff does not rename it away, and drops it otherwise |
| Migrations.AcceptedKeepsSqlIffNotRenamedAway | tools/check_new_migrations.py:101-115 | an accepted comparison keeps all migrations with their content if and only if the diff renames none to a name that is not an SQL file |
| Migrations.RenamingAwayIsAccepted | tools/check_new_migrations.py:182-189 | renaming any migration to any new name that is not an SQL file is accepted and removes it |
| Migrations.StepAppends | tools/check_new_migrations.py:182-222 | what an accepted comparison adds is pinned or sorts after all files it keeps, renames away included |
| Migrations.RunAppends | tools/check_new_migrations.py:144-228 | over any run of accepted comparisons, what is new is pinned or sorts after all files that survived the run |
| Migrations.SurvivesIffNotRenamedAway | tools/check_new_migrations.py:144-228 | a file survives any run of accepted comparisons if and only if no diff renames it away |
| Migrations.RunExtendsExecutionList | tools/check_new_migrations.py:144-228 | over any run the sorted list of the survivors is a prefix of the execution list at the end, once the pinned files that entered are left out |
| Migrations.CleanRunExtendsExecutionList | tools/check_new_migrations.py:144-228 | a run that renames no file away and adds no pinned file only extends the execution list |
| Coverage.ScanLog | tools/check_seven_provider_coverage.py:1468-1506 | the loop's sets are the tests that ran, finished, and passed after they ran, and it reports of each line exactly what is wrong with it |
| Coverage.CleanSets | tools/check_seven_provider_coverage.py:1493-1506 | in a clean log what finished is what passed, and all of it ran |
| Coverage.CoverageErrors | tools/check_seven_provider_coverage.py:1462-1519 | no error exactly for a covered log: lines well formed, nothing failed, the package passed, every test passed after it ran, required ones included, and the exit code is 0; each error exactly for the line or the test it names |
| Coverage.CoveredTestByTest | tools/check_seven_provider_coverage.py:1462-1519 | the verdict looks at each test alone: it depends on the actions of every test and of the package in order, not on how they interleave |
| Coverage.OtherPackagesDoNotMatter | tools/check_seven_provider_coverage.py:1486-1489 | blank lines and events of other packages, failed builds apart, never change the verdict |
| Coverage.EveryRunPassesIff | tools/check_seven_provider_coverage.py:1493-1513 | in a covered log every start is followed by a pass of its test if and only if no test is started after its last pass |
| Coverage.RunsOncePass | tools/check_seven_provider_coverage.py:1493-1513 | when no test is started twice, every start of a covered log is followed by a pass |
| Coverage.StartingAgainStaysCovered | tools/check_seven_provider_coverage.py:1512-1513 | starting any test of a covered log once more keeps it covered, and that start never passes |
| Coverage.ValidateManifest | tools/check_seven_provider_coverage.py:1522-1536 | no error exactly for groups with distinct packages, valid distinct tests and subtests of those tests |
| Coverage.ManifestNamesAre | tools/check_seven_provider_coverage.py:1526-1531 | package paths and test names are their prefix and some of the allowed characters |
| Coverage.RequiredSubtestAndParentPass | tools/check_seven_provider_coverage.py:1462-1536 | with a valid manifest a covered log shows every required subtest and its top-level test passing after they ran |
| BrowserCoverage.Visitor.Visit | tools/run_seven_provider_browser.py:65-86 | the recursive visit treats the scenarios of a tree of any depth in the order of the flattened tree |
| BrowserCoverage.BrowserCoverageErrors | tools/run_seven_provider_browser.py:56-93 | no error exactly when something is selected, there is no global error, and the tree shows each selected title once, nothing else, each run once successfully in Chromium; each error exactly for the scenario it names |
| BrowserCoverage.NestingDoesNotMatter | tools/run_seven_provider_browser.py:56-93 | the verdict depends on the multiset of scenarios, not on order or nesting |
| AuditExceptions.ParseExceptions | tools/check_pnpm_audit_exceptions.py:23-48 | the loop reads the items of the list, or stops at an item line without a colon |
| AuditExceptions.NoiseDoesNotMatter | tools/check_pnpm_audit_exceptions.py:28-47 | blank lines, comments, the two headers and lines without a colon that start no item change nothing, wherever they stand |
| AuditExceptions.OutsideItems | tools/check_pnpm_audit_exceptions.py:33-46 | a line before the first item says nothing; an item line without a colon raises |
| AuditExceptions.QuotedValueIsRead | tools/check_pnpm_audit_exceptions.py:12-20 | a value loses its quotes of either kind; a lone quote mark reads as empty |
| AuditExceptions.BareValueIsRead | tools/check_pnpm_audit_exceptions.py:12-20 | a value without a pair of quotes is read as it is |
| AuditExceptions.LineEndsDoNotMatter | tools/check_pnpm_audit_exceptions.py:27-29 | a file has the same lines with any of the three line ends |
| AuditExceptions.WrittenListIsReadBackIff | tools/check_pnpm_audit_exceptions.py:12-48 | a list written to a file with quoted values is read back as it was if and only if no name and no value holds a line break |
| AuditExceptions.TwoLineValueIsNotReadBack | tools/check_pnpm_audit_exceptions.py:23-48 | a value of two lines is not read back |
| AuditExceptions.IterVulns | tools/check_pnpm_audit_exceptions.py:51-111 | the findings of both report shapes, in order, with the identifier each falls back to |
| AuditExceptions.FindingsAre | tools/check_pnpm_audit_exceptions.py:51-111 | one finding for each advisory in order, then one for each place of a vulnerability with an identifier, in order; names and identifiers are the first ones that are not empty among the fields in the source order |
| AuditExceptions.FoundIffReported | tools/check_pnpm_audit_exceptions.py:51-111 | a finding comes out if and only if it is that of an advisory or of such a place |
| AuditExceptions.LowerFoldsCase | tools/check_pnpm_audit_exceptions.py:114-132 | two texts have the same lower-case form exactly when they differ in the case of letters at most |
| AuditExceptions.IndexExceptions | tools/check_pnpm_audit_exceptions.py:158-196 | no error exactly when all exceptions are good and their keys distinct; the index holds the first good one of each key, and each error stands for what is wrong with an exception or for a key that two good ones share |
| AuditExceptions.MatchFindings | tools/check_pnpm_audit_exceptions.py:198-231 | no error exactly when every high finding has an identifier and an unexpired exception agreeing with the first finding of its key; each error exactly for the finding or the key it names |
| AuditExceptions.Validate | tools/check_pnpm_audit_exceptions.py:156-258 | no error exactly for an accepted list: good, distinct, its keys those of the high findings, unexpired, severities of the first findings; otherwise the errors are exactly those of the list, of the findings, and of the exceptions that match none |
| AuditExceptions.Gate | tools/check_pnpm_audit_exceptions.py:142-263 | exit code 0 exactly for an accepted list, 1 otherwise, on the list parsed from the lines of the file and the findings of the report; with 0 every high advisory and item of the report has an exception for its package and identifier |
| AuditExceptions.AcceptedCoversReport | tools/check_pnpm_audit_exceptions.py:156-258 | for an accepted list, every high finding the report shows has an unexpired, complete exception for it, and every exception is for one |
| AuditExceptions.AcceptedKeysAreDetermined | tools/check_pnpm_audit_exceptions.py:233-250 | two accepted lists for one report have the same keys, each as often |
| AuditExceptions.AcceptedEarlier | tools/check_pnpm_audit_exceptions.py:227-231 | an accepted list is accepted on every earlier day |
| AuditExceptions.OrderDoesNotMatterIfSeveritiesAgree | tools/check_pnpm_audit_exceptions.py:204-226 | when findings with one key agree on the severity, neither order nor repetition changes the verdict |
| AuditExceptions.OrderMattersIff | tools/check_pnpm_audit_exceptions.py:204-226 | for any findings, some exception list gets another verdict on some reordering of them if and only if two high findings with one key differ in severity, every high finding has a package and an advisory, and the calendar has a day that has not passed |
| ValidationCleanup.RemoveStaleImages | tools/validation_runtime.py:754-773 | it succeeds exactly when the listing and all its removals do, and has then removed exactly the stale images; otherwise it names the step that failed, and no step removes anything else |
| ValidationCleanup.RemoveStaleCaches | tools/validation_runtime.py:775-820 | the same for the caches of the branch of the runtime |
| ValidationCleanup.RemoveStaleContainers | tools/validation_runtime.py:822-845 | the same for stopped project containers; none for Apple Containers |
| ValidationCleanup.Cleanup | tools/validation_runtime.py:713-845 | succeeds exactly when both references are valid and every step, listings included, is done, and then exactly the stale resources are gone; invalid references stop it before any step; otherwise the error names the last step, and after every step only stale resources are gone |
| ValidationCleanup.TagFollowsColon | tools/validation_runtime.py:749 | the tag of a reference is what follows its last colon, or all of it |
| ValidationCleanup.GenerationIff | tools/validation_runtime.py:52 | a generation is sixteen lower-case hexadecimal digits |
| ValidationCleanup.CleanupForImage | tools/validation_runtime.py:713-845 | for a reference with tag t, images with tag t are there after every step, and a success leaves exactly the images, caches and containers that are in use, foreign, unknown or not stopped |
| ValidationCleanup.ProtectedIsNeverStale | tools/validation_runtime.py:723-731 | the current image and cache, foreign images, running and foreign containers survive in every such state |
| ValidationCleanup.NothingStaleAfterCleanup | tools/validation_runtime.py:713-845 | nothing is stale after a cleanup |
| ValidationCleanup.SecondCleanupRemovesNothing | tools/validation_runtime.py:713-845 | a second cleanup leaves the host unchanged at every step, however it ends |
| ValidationCleanup.CacheBranchesAgreeIff | tools/validation_runtime.py:775-820 | cleanups on WSL and elsewhere leave the same caches exactly when every entry is the current one, a file, or a directory with a known name |
| ValidationCleanup.CleanUnknownDirectory | tools/validation_runtime.py:775-820 | a cleanup run on each engine: the local one removes a directory of unknown name, WSL keeps it |
| ValidationCleanup.Purge | tools/validation_runtime.py:848-910 | succeeds exactly when every step, listings included, is done, and then all project resources are gone and foreign ones are as before; otherwise the error names the step that failed, and every step stays inside the project's resources |
| ValidationCleanup.PurgedLeaves | tools/validation_runtime.py:848-910 | what a purge leaves: images of other repositories, no cache, containers without the label, and all containers with Apple Containers |
| ValidationCleanup.PurgeRemovesMore | tools/validation_runtime.py:848-910 | what a purge leaves, a cleanup would leave too |
| ValidationCleanup.Launch | tools/validation_runtime.py:644-695 | after the steps of the run, failed or not, the full cleanup is run on the host as it then is; the error of a failed run is reported with that of the cleanup as a warning, otherwise the result is that of the cleanup; protected images, containers and the current cache survive every step |
| ValidationCleanup.LaunchForImage | tools/validation_runtime.py:644-695 | for a reference with tag t, images with tag t and the current cache are there after every step of a launch, however it ends |
| ValidationCleanup.LaunchLeavesNothingStale | tools/validation_runtime.py:644-695 | after a launch that succeeds the cache of the generation is there, nothing is stale, and a container left behind by the run is gone |

## Left out

- `scanValues` and `assignValues` of `backend/ent/account.go`: two tables over the same columns; modelling them would only add easy members. Rows reach the model as ids and integer columns.
- Limits, offsets, ordering and predicates of queries: a query is the sequence of rows it selects, in return order, and the join of the groups returns the rows for some accounts in the order it has for all. An interceptor of the group query is an arbitrary function on the neighbours; interceptors of other queries are part of what the query returns.
- AccountQueries.SqlAll: its queries succeed; what a failing one does is said of the loaders.
- EagerLoading.LoadToOne: says nothing about the edges when a neighbour was not asked for; the query then returns an error and no accounts.
- EagerLoading.LoadToMany: the same.
- BulkCreate.AccountCreateBulk.Save: hooks are described by what they do to the fields, whether they hand on another mutation and how they turn the outcome; a hook calls the next mutator at most once. A hook that retries is not modelled. Conflict options, edges of a spec and field types are not modelled; the builders have distinct mutations, as the client creates them.
- The single `Save`, upserts, updates and deletes of `backend/ent`, and the other entities: the same templates.
- Expressions on text: lines are separate, so `\s` does not cross a line break; digits are ASCII; the sizes of texts are unbounded.
- ReleaseUpdate.Worktree.Update: reading and writing files does not fail half way.
- FinalizationGate.AcceptedIsOrdinaryOrRegenerated: git is a map of commits with an ancestry relation; the zero base of a new branch and the file written for later jobs are not modelled.
- Migrations.Validate: the check of the SQL in an added file is an arbitrary predicate on path and blob; the base is an ancestor of the head; git quotes no path name. The resolution of a base from a target release is that of `ReleaseSelection`.
- Migrations.RunAppends: the twelve pinned names and their digests are a parameter of the gate; subdirectories are compared too, but only top-level SQL files are executed, so the statements are about those.
- Coverage.CoverageErrors: the order of the errors and the wording of messages; JSON decoding ends in one of the modelled kinds of lines. The tables of required tests are finite constants.
- BrowserCoverage.BrowserCoverageErrors: a missing list reads as empty; the required titles are a parameter, and the filter is an arbitrary predicate on titles.
- AuditExceptions.Gate: white space and case are ASCII; a calendar is an arbitrary function from texts to days; titles and messages are not modelled; a severity in the report is a text.
- ValidationCleanup.Cleanup: the host is changed by the steps alone; a cache root that is itself a link, and digests of toolchain inputs, are not modelled. A removal that fails half way counts as failed before or after it took effect; a cache root that does not exist is an empty one.
- Process launching, probing of engines, mounts and environment of the container, network checks of the browser runner: effects outside the model.
