# Verification of db-tui

This project models the protocols behind db-tui, a PostgreSQL terminal client, in Dafny and
proves what they promise. It stands beside the Go sources and refers to them by path and line.

- **Keyset paging** (`Sql`, `Keyset`, `KeysetPages`, `KeysetSpans`, `KeysetWalk`, `KeysetOrder`).
  An SQL expression tree with a three-valued evaluator, a static table and a server that answers
  every query as SQL says. A sort choice becomes an order and a seek predicate; pages turn out to
  be windows of the one sorted table, walks cover it in the order the user chose, and Previous
  undoes Next.
- **Staged edits** (`GridData`, `IdentityKeys`, `StringOrder`, `Staging`, `StagingEffect`,
  `GridState`, `GridEffect`, `EditEffect`, `GridInvariant`, `GridClicks`, `GridRuns`,
  `GridEditing`, `GridPaging`, `GridSelection`, `GridModel`). A table tab as a step function over
  its messages and, in `GridModel`, as the object with mutable fields that refines it. What each
  key, button and result does, and lemmas over runs: staging invariant, request matching, what an
  apply in flight sees and what disturbs it, where a failure leads, which row an editor writes
  to, which cursors are sent.
- **Optimistic apply** (`Statements`, `Transactions`, `ApplyBatch`, `Overlay`, `ApplySuccess`,
  `SecondApply`). Statements with placeholders and arguments, their execution on rows that carry
  an `xmin`, one transaction for the batch, exactly when it succeeds, and the theorem that the
  table afterwards is what the grid showed.
- **Profiles and credentials** (`Profiles`, `ProfileEffect`, `ProfileErrors`, `ProfileDocuments`, `Credentials`,
  `CredentialEffect`, `ProfileService`). Which drafts are accepted and as what, what is reported otherwise, the documents the
  repository accepts, and the saga over document, keychain and session secrets, where every
  external call may fail on its own.
- **SQL editor** (`TextPositions`, `EditorHistory`, `EditorEffect`, `SqlEditor`). Offsets against
  lines and columns, and the two bounded stacks as one linear history.
- **Workspace and sessions** (`WorkspaceTabs`, `WorkspaceEffect`, `WorkspaceRequests`,
  `RequestEffect`, `WorkspaceModel`, `ContentSync`, `ContentEffect`, `SessionCustody`, `AppModel`). Tab identity,
  confirmations, request matching, the contents behind the tabs, and who owns each database
  session.
- **Windows and parameter text** (`Windows`, `ParameterText`, `ParameterMeaning`). Which columns
  and tabs are shown, and how connection parameters are printed and read.

`Relations` and `Decimals` hold what several of these share.

Each stateful component comes as functions on a value, about which the lemmas speak, and as a
class whose methods are proved to compute those functions. What lies outside is a parameter:
the server's answers, casts, defaults and constraints (`Server`, `Schema`, `Driver`), the
encoded length of a cursor, client-side validation of typed text, Unicode tables (`Text`), and
for every external call of the profile service whether it fails. Column values compare as a
linear order with null apart; a driver value is known by the type and syntax it prints.

Assumptions made where a theorem needs them, and only there: relation metadata is right
(identity unique and not null, column names distinct); a type name contains no colon; transaction
numbers are not reused; a failing store call has no effect; lower-casing is idempotent and does
not make spaces; Connect returns new sessions; a page arrives with cursors of the sort it was
requested with (`KeysetWalk.CursorsTellTheTruth` shows that keyset pages do). A fetched cell means the value it carries, which
is never sent; only the text of a staged cell is read by PostgreSQL.

## Where the code differs from what it says

- A cursor that encodes to more than 65536 bytes is handed out and then refused
  (`KeysetWalk.HandedOutCursorIsAccepted` gives the exact condition).
- Choosing "apply" on the refresh question sets a note to reload page one that is cleared before
  it is read (internal/grid/staging.go:78, internal/grid/model.go:196-209). The last requested
  page is reloaded instead, so page one if and only if it was the last one requested, as it is
  where internal/grid/model_test.go:401-411 expects it (`GridRuns.RefreshThenApplyReloads`;
  `GridEditing.RefreshThenApplyMissesPageOne` is a run where it is not).
- Keys are ignored while an operation runs, clicks are not (internal/grid/model.go:259-266,
  internal/grid/mouse.go:5-43): a draft added by a click during an apply is lost, and an apply
  can be sent twice (`GridRuns.ClickDuringApplyLosesDraft`, `GridRuns.ClicksStartSecondApply`).
  `GridRuns.StepDisturbs` says exactly which messages disturb an operation in flight.
- A click also opens an editor while a page loads, and the page that arrives does not close it
  (internal/grid/model.go:169-185), so the text is committed to whatever row then has that
  index (`GridEditing.EditorKeepsItsRow`, `GridEditing.EditorDuringLoadMovesOn`).
- Choosing a sort takes effect before its page has been loaded (internal/grid/model.go:387-406). If
  that load fails, Next sends the cursor of the page still shown with the new sort, which is
  refused (`GridPaging.CursorsBelongToTheirSort`, `GridPaging.FailedSortMixesCursor`).
- Staging compares with the row shown, not with the stored original
  (internal/grid/staging.go:356), so a value equal to the original can stay staged after a reload
  (`Staging.StagingKeepsClean` gives the exact condition, `Staging.ShownRowDecides` an input).
- End selects by the number of page rows and ignores the drafts above them
  (`GridSelection.EndCountsOnlyPageRows`).
- Saving a new profile does not read what the keychain holds for the generated identifier, so
  compensation cannot restore it (`Credentials.FailedCommitChangesNothing` gives the exact
  condition, `Credentials.FailedCommitLosesEntry` an input).

## Model

| member | source | states |
|---|---|---|
| Keyset.EffectiveOrder | internal/postgres/browser.go:369-384 | the loop builds the sort column followed by the other identity columns in key order, and refuses exactly unknown or unsortable sort columns |
| Keyset.SeekPredicate | internal/postgres/browser.go:445-464 | the nested loops build one group per term that some row can satisfy, and FALSE when there is none |
| Keyset.KeysetQuery | internal/postgres/browser.go:407-425 | filter, ORDER BY, limit and arguments of a page query |
| Keyset.SeekSelectsBeyondCursor | internal/postgres/browser.go:445-490 | in three-valued logic the seek predicate is true of exactly the rows strictly after (before) the cursor in the order that ORDER BY and its NULLS placement define, for every cursor with any nulls |
| Keyset.SeekReferencesEveryParameter | internal/postgres/browser.go:445-490 | the predicate references exactly $1..$n if and only if the last cursor value is not null |
| Sql.AnswerExists | internal/postgres/browser.go:262-286 | every page query has an answer, so the assumed server exists |
| KeysetPages.ReverseOrderReverses | internal/postgres/browser.go:492-500 | reversing each direction together with its NULLS placement reverses the whole order |
| KeysetPages.OrderEndsInIdentity | internal/postgres/browser.go:369-384 | the effective order of every sort choice ends in an identity column |
| KeysetPages.TableIsArranged | internal/postgres/browser.go:369-384 | a keyed table has exactly one arrangement under the effective order |
| KeysetPages.ValidateKeysetCursor | internal/postgres/browser.go:584-594 | a cursor is accepted if and only if relation, sort, terms and number of values agree |
| KeysetPages.AssemblePage | internal/postgres/browser.go:287-316 | over-fetch by one, reversal on Previous, and a cursor at each end that is asked for |
| KeysetPages.FetchKeysetPage | internal/postgres/browser.go:262-318 | the page of a request, or the first of the errors in the order the code checks them |
| KeysetPages.FirstPageIsWindow | internal/postgres/browser.go:262-318 | First shows the first rows of the sorted table, with a next cursor exactly when more follow |
| KeysetPages.NextPageIsWindow | internal/postgres/browser.go:262-318 | Next from the cursor of row k-1 shows the rows from k on, with both cursors present exactly when rows exist on that side |
| KeysetPages.PreviousPageIsWindow | internal/postgres/browser.go:262-318 | Previous from the cursor of row k shows the rows just before k in forward order |
| KeysetWalk.TrailSpans | internal/postgres/browser.go:212-318 | every page of every run of First, Next and Previous with any limits is a span of the sorted table, moved as positions move |
| KeysetWalk.CursorsTellTheTruth | internal/postgres/browser.go:287-316 | on every page of every run a cursor is present exactly when the table has rows on that side, and it is one that fits this relation and sort |
| KeysetWalk.HandedOutCursorIsAccepted | internal/postgres/browser.go:569-594 | a request with a cursor of the page before succeeds if and only if the encoded cursor is at most 65536 bytes |
| KeysetWalk.OversizedCursorIsRefused | internal/postgres/browser.go:569-582 | a table whose first row has a cursor over the limit: with page size one that cursor is handed out and then refused |
| KeysetWalk.WalkCoversTable | internal/postgres/browser.go:262-318 | following Next until no cursor is left returns the whole table in the effective order, each row once, whatever the limits |
| KeysetWalk.WalkTerminates | internal/postgres/browser.go:262-318 | a forward walk has at most one page per row |
| KeysetWalk.BrowsingShowsWholeTable | internal/postgres/browser.go:212-318 | First and then Next while a cursor exists ends and shows the whole sorted table, for every sort choice and every page size |
| KeysetWalk.PreviousUndoesNext | internal/postgres/browser.go:262-318 | after Next and Previous the page before is back, rows and cursors alike, if and only if it was full for the limit or a first page within it |
| KeysetWalk.PreviousAndNextAreInverse | internal/postgres/browser.go:262-318 | in a run with one page size Previous always undoes Next and Next undoes Previous |
| KeysetWalk.CursorQueriesUseTheirParameters | internal/postgres/browser.go:407-425 | every query a run sends uses exactly the parameters it binds |
| KeysetOrder.ArrangedAsChosen | internal/postgres/browser.go:369-384 | of any two rows of the arranged table the one listed first has the smaller value in the sorted column (the larger one when descending, nulls last or first), or, where these agree or none is chosen, in the first key column on which they differ |
| KeysetOrder.WalkListsAsChosen | internal/postgres/browser.go:262-318 | a finished walk has shown every row once, in that order |
| KeysetOrder.BrowsingListsAsChosen | internal/postgres/browser.go:212-318 | browsing does so for every sort by a column that can be sorted, and without a sort |
| KeysetOrder.OtherSortsAreRefused | internal/postgres/browser.go:369-384 | every other sort is refused |
| KeysetOrder.AnsweredExactly | internal/postgres/browser.go:212-318 | a request is answered if and only if its relation, size, direction, sort and cursor are acceptable, and otherwise with the first error in that order |
| KeysetOrder.UnspecifiedIsFirst | internal/postgres/browser.go:212-250 | a request without a direction is for page one |
| KeysetOrder.PagesHaveTheirSize | internal/postgres/browser.go:262-318 | a page has at most as many rows as were asked for, a hundred if no number was given, and exactly that many when more follow |
| IdentityKeys.IdentityKey | internal/grid/staging.go:619-630 | the builder loop concatenates length-prefixed columns and values in identity order |
| IdentityKeys.KeyIdentifiesRow | internal/grid/staging.go:619-630 | two identities have the same key if and only if they agree on every identity column |
| Decimals.DecimalColonSplits | internal/grid/staging.go:625-627 | a decimal length followed by a colon can be split off unambiguously |
| StringOrder.SortStrings | internal/grid/staging.go:590-596 | the keys of a map in ascending order |
| Staging.SnapshotOf | internal/grid/staging.go:572-588 | tombstones by key, then updates without tombstone by key, then drafts in order |
| Staging.CountChanges | internal/grid/staging.go:50-58 | the counting loop counts drafts, tombstones and the updates without tombstone |
| Staging.ChangeCountIsSnapshotLength | internal/grid/staging.go:50-58 | the change count is the length of the snapshot, and a tab is dirty if and only if the snapshot is not empty |
| Staging.SnapshotHasNoRepeats | internal/grid/staging.go:572-588 | no row and no draft occurs twice in a snapshot |
| Staging.StageValueConsistent | internal/grid/staging.go:338-366 | staging a value keeps entries non-empty, keyed by the identity of their original row, and limited to writable columns |
| Staging.RemoveDraftConsistent | internal/grid/staging.go:384-389 | removing a draft keeps draft ids distinct and below the counter |
| Staging.ToggleDeleteConsistent | internal/grid/staging.go:379-408 | toggling a tombstone keeps every tombstone keyed by the identity of its row |
| Staging.StagingKeepsClean | internal/grid/staging.go:338-366 | staging keeps an update free of values that its original has if and only if the value, if it equals the original, also equals the row shown, with which alone it is compared |
| Staging.StagingRemovesRedundant | internal/grid/staging.go:356-365 | in particular it does, also for a first update, while the row shown has the cells of the original |
| Staging.ShownRowDecides | internal/grid/staging.go:356-365 | the failing input: once shown and original text differ, typing the original's text back stages it |
| StagingEffect.StagingChangesOneCell | internal/grid/staging.go:338-366 | staging a value of a page row leaves drafts, tombstones, other rows and the other values of that row as they were, stages the value unless the row shows it, and keeps the row the update was begun on |
| StagingEffect.StagingShowsOneCell | internal/grid/staging.go:99-140 | the grid then shows that one cell changed, and every other as before |
| StagingEffect.StagingChangesOneDraft | internal/grid/staging.go:338-350 | the same for a draft, where the default is the absence of a value |
| StagingEffect.StagingShowsOneDraft | internal/grid/staging.go:99-140 | and the grid shows that one cell of the draft changed |
| StagingEffect.InsertAddsOneDraft | internal/grid/staging.go:142-155 | a new draft comes last, without values, and everything else stays |
| StagingEffect.RemovingTakesOneDraft | internal/grid/staging.go:384-389 | removing a draft takes that one and closes the gap |
| StagingEffect.TogglingSetsOneTombstone | internal/grid/staging.go:379-408 | toggling sets or takes away one tombstone, and twice is as before |
| StagingEffect.RevertingTakesOneRow | internal/grid/staging.go:410-432 | reverting takes away what is staged for one row |
| GridModel.Model.constructor | internal/grid/model.go:121-127 | a new tab has no relation, nothing staged and no request |
| GridModel.Model.NewRequest | internal/grid/model.go:487-500 | the next number becomes the active operation of that kind |
| GridModel.Model.StartPage | internal/grid/model.go:364-378 | a page request becomes active and is remembered, or metadata is requested first |
| GridModel.Model.Retry | internal/grid/model.go:380-385 | the last page request again, or metadata |
| GridModel.Model.CycleSort | internal/grid/model.go:387-406 | ascending, descending, then no sort, and page one |
| GridModel.Model.EnsureVisible | internal/grid/model.go:424-433 | scrolls to the selected row as the step function does |
| GridModel.Model.StageInsert | internal/grid/staging.go:142-155 | a new draft with the next id, selected |
| GridModel.Model.StageValueIn | internal/grid/staging.go:338-366 | the staged value of a draft or an update |
| GridModel.Model.ToggleDelete | internal/grid/staging.go:379-408 | removes a draft or toggles a tombstone |
| GridModel.Model.RevertSelectedRow | internal/grid/staging.go:410-432 | removes a draft or everything staged for the row |
| GridModel.Model.ClearChanges | internal/grid/staging.go:70-81 | drops everything staged and keeps the draft counter |
| GridModel.Model.ValidateDrafts | internal/grid/staging.go:450-469 | finds the first required value that a draft lacks and selects it |
| GridModel.Model.StartApply | internal/grid/staging.go:554-570 | sends the snapshot and remembers it |
| GridModel.Model.FocusMutationError | internal/grid/staging.go:644-671 | selects the row and column of the mutation that failed |
| GridModel.Model.CommitCell | internal/grid/staging.go:288-305 | stages the typed text if it validates |
| GridModel.Model.UpdateOverlayKey | internal/grid/staging.go:471-534 | keys of each overlay |
| GridModel.Model.UpdateKeyMessage | internal/grid/model.go:257-351 | keys, ignored while an operation is in flight except its cancellation |
| GridModel.Model.UpdateClick | internal/grid/mouse.go:5-63 | clicks, which have no such gate |
| GridModel.Model.Update | internal/grid/model.go:154-255 | every message does what the step function says, which the lemmas are about, and keeps the object's own invariant, the selection on the grid included |
| GridInvariant.NewGridSound | internal/grid/model.go:121-131 | a new tab, also once it has asked for its metadata, satisfies the invariants |
| GridInvariant.StepKeepsInvariant | internal/grid/model.go:154-255 | every message keeps the staging invariant, at most one active operation numbered below the next, and an open editor on a writable cell |
| GridRuns.RunKeepsInvariant | internal/grid/model.go:154-255 | and so does every run |
| GridRuns.RunSnapshotIsClean | internal/grid/staging.go:572-588 | in every reachable state the change count is the snapshot length and no row occurs in it twice |
| GridRuns.RequestNumbersIncrease | internal/grid/model.go:487-491 | over every run request numbers strictly increase |
| GridRuns.AcceptedResultSettles | internal/grid/model.go:502-504 | the result that is accepted for a request settles it |
| GridRuns.LateResultsChangeNothing | internal/grid/model.go:502-504 | after any further run a late result of a settled request changes nothing |
| GridClicks.ClickChanges | internal/grid/mouse.go:5-130 | exactly which clicks change what is staged and which start a request, in every state |
| GridRuns.OneOperationAtATime | internal/grid/model.go:257-266 | while an operation is in flight another starts, other than by the result that ends it, if and only if a click confirms an apply or a refresh |
| GridRuns.StepDisturbs | internal/grid/model.go:154-255 | a message leaves the operation in flight and what is staged alone if and only if it is neither its result nor a disturbing click |
| GridRuns.StepInFlight | internal/grid/model.go:154-255 | what is staged stays what was sent for every message but a disturbing click |
| GridRuns.NewTabInFlight | internal/grid/model.go:154-255 | from a new tab on, over every run in which no click disturbs an apply in flight, what is staged during an apply is what was sent |
| GridRuns.ApplyRunsUndisturbed | internal/grid/model.go:154-255 | over every run without its result and without disturbing clicks, an apply stays the active operation and what is staged stays what was sent |
| GridRuns.FailureFocusesItsRow | internal/grid/staging.go:644-671 | a failure selects, and scrolls to, the row of that very mutation whenever the grid shows it, and leaves the selected row otherwise |
| GridRuns.ClickDuringApplyLosesDraft | internal/grid/mouse.go:5-63 | a draft added by a click during an apply was not sent and is discarded on success |
| GridRuns.ClicksStartSecondApply | internal/grid/mouse.go:90-130 | two clicks during an apply send the same changes again and orphan the first apply |
| GridEditing.DisturbingClickIsReached | internal/grid/mouse.go:5-130 | a run from a new tab on, for every relation that admits an empty draft, to an apply in flight that clicks disturb |
| GridEditing.EditorKeepsItsRow | internal/grid/staging.go:288-305 | over every run an open editor commits to the row it was opened on if and only if that is a draft or the page that arrives meanwhile has a row of that identity in its place; no page arrives if no load was in flight |
| GridEditing.EditorDuringLoadMovesOn | internal/grid/staging.go:170-194 | the failing run: an editor opened by a click while a page loads commits to a row of that page |
| GridRuns.RefreshThenApplyReloads | internal/grid/model.go:186-210 | after refresh-then-apply the last requested page is reloaded, because the flag is cleared before it is read, so page one if and only if it was the last one requested |
| GridEditing.RefreshThenApplyMissesPageOne | internal/grid/staging.go:471-534 | the failing run, from a new tab on: refresh-then-apply on the second page reloads the second page |
| GridPaging.CursorsBelongToTheirSort | internal/grid/model.go:364-406 | over every run from a new tab on, all page requests carry cursors of the sort they ask for if and only if pages are only turned while the chosen sort is that of the page shown |
| GridPaging.FailedSortMixesCursor | internal/grid/model.go:364-406 | the failing run: after the load of a newly sorted page has failed, Next sends the old cursor with the new sort |
| GridEffect.RowsMove | internal/grid/model.go:408-433 | moving stops at the first and last row and keeps the selected row in view |
| GridEffect.ArrowsMove | internal/grid/model.go:257-351 | the arrow keys move by one row or column |
| GridEffect.RowLettersMove | internal/grid/model.go:257-351 | so do j and k |
| GridEffect.ColumnLettersMove | internal/grid/model.go:257-351 | and h and l |
| GridEffect.HomeMoves | internal/grid/model.go:257-351 | Home and g go to the first row |
| GridEffect.EndMoves | internal/grid/model.go:257-351 | End and G go to the row whose index is that of the last page row |
| GridEffect.WheelMoves | internal/grid/mouse.go:132-156 | the wheel moves by three rows, or sideways by one column |
| GridEffect.CellClickSelects | internal/grid/mouse.go:41-63 | a click on a cell selects it |
| GridEffect.ResizeKeepsSelection | internal/grid/model.go:424-433 | a change of height keeps the selected row, in view |
| GridEffect.WheelRests | internal/grid/mouse.go:132-156 | the wheel leaves the selection alone while the question before an apply or the list of changes is open |
| GridEffect.TurningAsks | internal/grid/model.go:290-305 | Next and Previous ask for the page at that cursor, in that direction, under the chosen sort, a hundred rows at a time |
| GridEffect.SortingAsks | internal/grid/model.go:387-406 | the sort goes from ascending to descending to none and page one is asked for |
| GridEffect.RefreshingAsks | internal/grid/model.go:306-321 | refresh asks for page one, asks the user first with unsent changes, and repeats what failed |
| GridEffect.MetadataArrives | internal/grid/model.go:155-168 | awaited metadata becomes known and page one is asked for, unsorted |
| GridEffect.PageArrives | internal/grid/model.go:169-191 | an awaited page is shown from its first row under its number |
| GridEffect.ApplyArrives | internal/grid/model.go:192-212 | after a successful apply nothing is staged and the last requested page is loaded again |
| GridEffect.FailureArrives | internal/grid/model.go:213-243 | a failure ends its operation, keeps everything staged and is shown, unless it was cancelled |
| GridEffect.FailureSelectsColumn | internal/grid/staging.go:644-671 | after a failed apply the column the failure names is selected, if the table has it |
| GridEffect.KeysWhileBusy | internal/grid/model.go:257-266 | while an operation runs only Control-C does something: it cancels that operation |
| EditEffect.KeysAreButtons | internal/grid/model.go:324-350 | each letter does what the button of its action does |
| EditEffect.InsertSelectsDraft | internal/grid/staging.go:142-155 | Insert adds a draft and selects it, if rows may be inserted |
| EditEffect.EditOpensEditor | internal/grid/staging.go:170-220 | Edit opens an editor with the text of the cell exactly where the column, and for a row its not being deleted, allow it |
| EditEffect.SpecialsStage | internal/grid/staging.go:307-336 | Null and Default are staged exactly where the cell may be edited and the column admits them |
| EditEffect.DeleteDropsOrMarks | internal/grid/staging.go:379-408 | Delete drops a draft or toggles a tombstone, if rows may be deleted |
| EditEffect.RevertTakesBack | internal/grid/staging.go:410-432 | Revert drops a draft or takes back what is staged for the row |
| EditEffect.QuestionsAreAsked | internal/grid/staging.go:434-448 | Apply, Revert all and Changes ask exactly when something is staged, Apply also only when no draft lacks a required value |
| EditEffect.ApplySelectsMissing | internal/grid/staging.go:450-469 | otherwise Apply selects the first missing value |
| EditEffect.TypingInserts | internal/grid/staging.go:266-274 | a typed character is inserted at the cursor |
| EditEffect.ErasingRemoves | internal/grid/staging.go:275-287 | Backspace and Delete remove the character before and after the cursor |
| EditEffect.PastingInserts | internal/grid/staging.go:222-228 | pasted text is inserted at the cursor |
| EditEffect.CursorMoves | internal/grid/staging.go:229-265 | left and right move the cursor within the text |
| EditEffect.CursorJumps | internal/grid/staging.go:229-265 | Home and End, Control-A and Control-E, go to its start and end |
| EditEffect.EditorCloses | internal/grid/staging.go:288-305 | Enter stages valid text for the cell and closes the editor, Escape closes it and stages nothing |
| EditEffect.EditorWithoutCell | internal/grid/staging.go:288-305 | Enter closes an editor whose cell is gone and stages nothing |
| EditEffect.EditingTakesInput | internal/grid/mouse.go:5-11 | clicks do nothing while a cell is edited, pasting nothing while none is |
| EditEffect.ApplyQuestion | internal/grid/staging.go:471-490 | confirming sends exactly what is staged |
| EditEffect.RevertAllQuestion | internal/grid/staging.go:491-510 | confirming drops exactly what is staged |
| EditEffect.RefreshQuestion | internal/grid/staging.go:491-534 | the refresh question applies, drops and reloads, or does neither |
| EditEffect.ApplyButtons | internal/grid/mouse.go:90-131 | the buttons of the apply question do what its keys do |
| EditEffect.RevertAllButtons | internal/grid/mouse.go:90-131 | so do those of the revert question |
| EditEffect.RefreshConfirmButton | internal/grid/mouse.go:90-131 | and the apply button of the refresh question |
| EditEffect.RefreshOtherButtons | internal/grid/mouse.go:90-131 | and its two others |
| EditEffect.ChangesListCloses | internal/grid/staging.go:471-534 | the list of changes is closed, or leads to the apply question |
| EditEffect.ErrorCloses | internal/grid/staging.go:471-534 | closing the error ends the failure |
| EditEffect.ErrorLeadsToApply | internal/grid/staging.go:471-534 | from the error Apply asks again |
| GridSelection.StepStaysOnGrid | internal/grid/model.go:387-423 | every message keeps the selected row and column on the grid |
| GridSelection.NewTabStaysOnGrid | internal/grid/model.go:408-433 | from a new tab on, over every run, the selected row and column exist if there are any |
| GridSelection.SortedColumnExists | internal/grid/model.go:387-406 | sorting never looks up a column that does not exist |
| Statements.OrderedMutationColumns | internal/postgres/mutations.go:213-235 | known columns in relation order, then unknown names sorted |
| Statements.OrderedColumnsAreTheValues | internal/postgres/mutations.go:213-235 | exactly the columns named in the staged values are written |
| Statements.Assign | internal/postgres/mutations.go:96-145 | assignments with their arguments, or the first column that may not be written |
| Statements.OptimisticPredicate | internal/postgres/mutations.go:197-211 | identity and xmin conditions with consecutive parameters, or an incomplete identity |
| Statements.RenderInsert | internal/postgres/mutations.go:96-117 | the INSERT of a draft or the reason there is none |
| Statements.RenderUpdate | internal/postgres/mutations.go:129-152 | the UPDATE of a row or the reason there is none |
| Statements.RenderDelete | internal/postgres/mutations.go:165-174 | the DELETE of a row or the reason there is none |
| Statements.PlaceholdersLineUp | internal/postgres/mutations.go:186-211 | placeholders of every rendered statement are $1..$n in order, one per argument, also where DEFAULT consumes none |
| Transactions.StatementDoesWhatIsStaged | internal/postgres/mutations.go:96-184 | executing a rendered statement casts the staged text, writes NULL and DEFAULT, and touches exactly rows with the original identity and xmin |
| Transactions.TokenSelectsTarget | internal/postgres/mutations.go:197-211 | the rendered conditions select exactly the rows with the original identity and xmin |
| ApplyBatch.Apply | internal/postgres/mutations.go:19-67 | outcome and table of an apply: refusal, first failing mutation, or the commit's answer, with counts by kind |
| ApplyBatch.AllOrNothing | internal/postgres/mutations.go:19-80 | success leaves the table after every mutation; a failure leaves it untouched and names the first mutation that fails; a lost confirmation leaves one of the two |
| ApplyBatch.BatchFindsOriginals | internal/postgres/mutations.go:129-184 | success implies every targeted row was in the initial table with its original identity and xmin |
| ApplyBatch.StaleRowFailsBatch | internal/postgres/mutations.go:153-184 | one row changed or deleted since it was loaded fails the whole batch and changes nothing |
| Overlay.ApplyLeavesStagedRows | internal/grid/staging.go:572-588 | a successful apply of the snapshot leaves exactly the rows as staged, tombstoned ones gone, then the drafts |
| Overlay.GridShowsWhatApplyDoes | internal/grid/staging.go:99-140 | what the grid shows is what apply does: after a successful apply the rows of any page, in any order, are cell by cell as the grid showed them, tombstoned ones gone, the drafts are as shown with DEFAULT and unset cells standing for the default, and every other row is as staged |
| Overlay.WholeTableShown | internal/grid/staging.go:99-140 | on a page that holds the whole table the grid shows the whole result |
| Overlay.ChangedPageRow | internal/grid/staging.go:99-140 | a page row changed since it was fetched is shown as the table has it after the apply if and only if it has a tombstone or its unstaged columns are as fetched |
| SecondApply.SecondApplyFails | internal/postgres/mutations.go:34-67 | after a commit that was kept but whose answer was lost, applying the same changes again fails and changes nothing if they include an update or a tombstone |
| SecondApply.SecondApplyRepeatsDrafts | internal/postgres/mutations.go:34-67 | with drafts alone they are inserted a second time if and only if the table admits them |
| Overlay.AppliedSnapshot | internal/postgres/mutations.go:34-67 | on success the counts are the numbers of drafts, of updates without tombstone and of tombstones |
| Overlay.WrittenOnce | internal/postgres/mutations.go:197-211 | a row this transaction has written is never the target of a later mutation |
| ApplySuccess.BatchSucceedsWhen | internal/postgres/mutations.go:19-67 | the batch of everything staged succeeds if and only if each row it is about is still there as it was loaded, each text it sends can be read as a value, and the constraints hold after each of its mutations |
| ApplySuccess.ApplySucceedsWhen | internal/postgres/mutations.go:19-67 | so does the apply on a table with a key once the commit is confirmed, and otherwise it fails and changes nothing |
| ApplySuccess.FirstStaleRowConflicts | internal/postgres/mutations.go:129-184 | the first change whose row is gone or changed fails with a conflict at its index |
| ApplySuccess.RequestRefusals | internal/postgres/mutations.go:82-94 | a request without changes, on something that is no table, or on a table without a key or row version is refused, in that order |
| ApplySuccess.CommitOutcomes | internal/postgres/mutations.go:19-80 | what is reported and what the table is after the commit was confirmed, rolled back or got lost |
| ApplySuccess.MutationRefusals | internal/postgres/mutations.go:96-211 | the first reason for which a single change is refused |
| Profiles.ValidateDraft | internal/profile/validation.go:61-188 | the errors in the order they are checked, or the canonical profile |
| Profiles.AcceptedIsCanonical | internal/profile/validation.go:61-188 | an accepted profile is trimmed, lower-cased where it should be, and within every limit |
| Profiles.ValidationIsIdempotent | internal/profile/validation.go:61-216 | validating the draft of an accepted profile returns the same profile |
| Profiles.SortParameters | internal/profile/validation.go:204-215 | the parameters in ascending order of their names |
| Profiles.DraftFromProfile | internal/profile/profile.go:64-77 | the draft of a saved profile |
| Profiles.PortRoundTrip | internal/profile/validation.go:217-219 | a formatted port reads back |
| ProfileEffect.AcceptedExactly | internal/profile/validation.go:61-188 | a draft is accepted if and only if every stated condition on its fields, its parameters and the uniqueness of its name holds |
| ProfileEffect.AcceptedAs | internal/profile/validation.go:176-188 | and then as the trimmed texts, the number of the port, the mode in lower case and the parameters under canonical names |
| ProfileErrors.EverythingWrongIsReported | internal/profile/validation.go:61-188 | a problem is reported for a field or a parameter if and only if it is there; of several with one parameter the first in the order they are looked for, and a repeated name only beside an otherwise fine one |
| ProfileErrors.ProblemIsFirst | internal/profile/validation.go:133-169 | the problem of a parameter is the first thing wrong with it |
| ProfileEffect.DocumentsAcceptedExactly | internal/platform/profile_repository.go:174-202 | a document is acceptable if and only if its profiles are, their identifiers are distinct and present, and nothing in it is named like a secret |
| ProfileDocuments.ValidateProfileDocument | internal/platform/profile_repository.go:174-192 | accepts exactly documents with present, distinct identifiers, no secret fields and acceptable profiles |
| ProfileDocuments.HasSensitiveUnknownField | internal/platform/profile_repository.go:194-202 | finds a forbidden field name in any case and with surrounding spaces |
| ProfileDocuments.ValidDocumentHasUniqueNames | internal/platform/profile_repository.go:174-192 | in an accepted document identifiers and case-folded names are unique |
| ProfileDocuments.PutKeepsDocumentValid | internal/profile/service.go:261-269 | storing a canonical profile with a free name keeps the document acceptable |
| Credentials.CommittedDocumentIsValid | internal/profile/service.go:251-270 | committing a prepared profile onto the document it was prepared on yields an acceptable document |
| Credentials.DeletedDocumentIsValid | internal/profile/service.go:307-307 | and so does deleting one |
| Credentials.FailedCommitChangesNothing | internal/profile/service.go:172-282 | a commit that returns an error changes nothing, given compensation succeeds, if and only if it did not get to write over an entry the keychain already held for a generated identifier |
| Credentials.FailedCommitLosesEntry | internal/profile/service.go:172-282 | the failing input: a new profile prepared under an identifier that has an entry, and saving fails |
| Credentials.FailedDeleteChangesNothing | internal/profile/service.go:284-322 | a delete that returns an error changes nothing, given compensation succeeds |
| Credentials.CommitTouchesOneProfile | internal/profile/service.go:172-282 | no commit touches the secrets of another profile, whichever calls fail |
| Credentials.DeleteTouchesOneProfile | internal/profile/service.go:284-322 | nor does a delete |
| Credentials.PasswordReadsBack | internal/profile/service.go:125-251 | after a successful commit the next Prepare finds the same password if and only if a stated condition on the keychain faults and entries holds; it does whenever the keychain works throughout or fails throughout |
| CredentialEffect.PreparedPassword | internal/profile/service.go:125-161 | a typed password is used, else the keychain's where the profile keeps it there, else the session's |
| CredentialEffect.PrepareSucceedsWhen | internal/profile/service.go:90-162 | exactly when Prepare succeeds |
| CredentialEffect.PrepareErrors | internal/profile/service.go:90-162 | which error Prepare reports otherwise |
| CredentialEffect.CommitPlacesSecrets | internal/profile/service.go:186-249 | after a successful commit: without saving the keychain has no entry and the session the password; a new password is in the keychain alone, or in the session alone if the keychain fails; else both are as before |
| CredentialEffect.CommitSavesProfile | internal/profile/service.go:251-282 | the saved profile has the fields of the draft and kept-up times, in the place of the one before or at the end, and no other profile changes |
| CredentialEffect.CommitSucceedsWhen | internal/profile/service.go:172-282 | exactly when a commit of what was prepared succeeds |
| CredentialEffect.CommitReturnsSaved | internal/profile/service.go:172-282 | it returns the profile it saved and says where its password now is; the document saved is of version 1 |
| CredentialEffect.CommitErrors | internal/profile/service.go:172-282 | which error a commit reports otherwise |
| CredentialEffect.DeleteRemovesProfile | internal/profile/service.go:284-314 | a successful delete removes that profile and both its secrets, and nothing else |
| CredentialEffect.DeleteSucceedsWhen | internal/profile/service.go:284-314 | exactly when a delete succeeds |
| CredentialEffect.DeleteErrors | internal/profile/service.go:284-314 | which error a delete reports otherwise |
| ProfileService.Service.Prepare | internal/profile/service.go:90-162 | the prepared profile and where its password comes from, or the first error |
| ProfileService.Service.FindCredential | internal/profile/service.go:125-161 | typed, keychain or session password, or an unavailable keychain |
| ProfileService.Service.ChangeSecret | internal/profile/service.go:186-249 | the credential part of a commit on keychain and session |
| ProfileService.Service.Commit | internal/profile/service.go:172-282 | result, document, keychain and session after a commit, compensation included |
| ProfileService.Service.Delete | internal/profile/service.go:284-314 | result, document, keychain and session after a delete |
| ProfileService.Service.RestoreSecret | internal/profile/service.go:316-322 | puts the old secret back or removes the new one |
| TextPositions.PositionHasOffset | internal/sqltab/editor.go:183-211 | stepping over k characters leads to the line and column whose offset is k |
| TextPositions.OffsetHasPosition | internal/sqltab/editor.go:183-211 | lines and columns on the text and offsets correspond one to one |
| SqlEditor.Editor.CursorOffset | internal/sqltab/editor.go:183-191 | the loop over lines computes the offset of the cursor |
| SqlEditor.Editor.SetCursorOffset | internal/sqltab/editor.go:193-211 | the loop over characters places the cursor |
| EditorHistory.PlacedIsThere | internal/sqltab/editor.go:183-211 | the offset read back after placing the cursor at k is k, clamped to the text |
| SqlEditor.Editor.ReplaceSelection | internal/sqltab/editor.go:122-140 | replaces the selection or inserts at the cursor, remembering the state before |
| SqlEditor.Editor.PushUndo | internal/sqltab/editor.go:142-148 | keeps the last 200 snapshots and forgets what could be redone |
| SqlEditor.Editor.UndoEdit | internal/sqltab/editor.go:150-161 | restores the last snapshot and remembers the current one for redo |
| SqlEditor.Editor.RedoEdit | internal/sqltab/editor.go:163-174 | the converse |
| SqlEditor.Editor.UpdateTextArea | internal/sqltab/editor.go:90-96 | an edit by the text area is remembered and drops the selection, a movement is not |
| EditorHistory.RedoUndoesUndo | internal/sqltab/editor.go:150-181 | redo after undo restores text, cursor and both stacks |
| EditorHistory.UndoUndoesRedo | internal/sqltab/editor.go:150-181 | undo after redo restores text, cursor and both stacks |
| EditorHistory.RedosTakeBackUndos | internal/sqltab/editor.go:150-181 | any number of undos is taken back by as many redos |
| EditorHistory.UndoMovesBack | internal/sqltab/editor.go:150-161 | undo moves back along one linear history without changing it |
| EditorHistory.RedoMovesForward | internal/sqltab/editor.go:163-174 | redo moves forward along it |
| EditorHistory.TimelineDetermines | internal/sqltab/editor.go:142-181 | history and place in it determine the editor, selection aside |
| EditorHistory.EditExtendsHistory | internal/sqltab/editor.go:142-148 | an edit discards the future and appends; beyond 200 steps the oldest entry goes |
| EditorHistory.RunStaysBounded | internal/sqltab/editor.go:142-174 | over every run both stacks together hold at most 200 snapshots |
| EditorHistory.ReplaceThenUndo | internal/sqltab/editor.go:122-161 | a replacement splices the text and leaves the cursor behind it; undoing it restores text and cursor |
| EditorEffect.ReplacementSplices | internal/sqltab/editor.go:122-148 | typing replaces exactly the selected part, or inserts at the cursor, and remembers the state before if the text changed |
| EditorEffect.TypingRemembers | internal/sqltab/editor.go:90-96 | an edit of the text area is remembered, a movement is not |
| EditorEffect.SelectingSelects | internal/sqltab/mouse.go:40-95 | selecting changes selection and cursor and nothing else |
| EditorEffect.UndoBringsBack | internal/sqltab/editor.go:150-161 | undo restores the last remembered text and cursor |
| EditorEffect.RedoBringsForward | internal/sqltab/editor.go:163-174 | redo restores the text and cursor last undone |
| SqlEditor.SubmittedPosition | internal/sqltab/view.go:325-340 | line and column of a server position, clamped to the text |
| WorkspaceModel.Model.OpenTableTab | internal/workspace/model.go:699-725 | focuses the relation's tab or opens one under a new identifier |
| WorkspaceModel.Model.OpenSQLTab | internal/workspace/model.go:727-742 | opens a SQL tab under a new identifier |
| WorkspaceModel.Model.CloseActiveTab | internal/workspace/model.go:744-759 | closes a clean tab or asks first |
| WorkspaceModel.Model.CloseTabAt | internal/workspace/model.go:761-775 | removes the tab and activates its successor |
| WorkspaceModel.Model.RequestLeave | internal/workspace/model.go:777-789 | leaves at once without hazardous tabs, else asks |
| WorkspaceModel.Model.UpdateModalKey | internal/workspace/model.go:800-841 | cancels, toggles or carries out a confirmation |
| WorkspaceModel.Model.MoveTab | internal/workspace/model.go:843-859 | activates the neighbouring tab, cyclically |
| WorkspaceModel.Model.TabStateChanged | internal/workspace/model.go:384-395 | the tab takes the state its content reports |
| WorkspaceModel.Model.HandleFailure | internal/workspace/model.go:628-673 | a failure settles its own request and may mark the connection lost |
| WorkspaceModel.Model.Reconnected | internal/workspace/model.go:367-383 | an expected reconnection settles every request and refreshes the schemas |
| WorkspaceModel.Model.MoveFocus | internal/workspace/model.go:868-882 | moves the focus cyclically among navigator, tabs and, with an active tab, content |
| WorkspaceModel.Model.Update | internal/workspace/model.go:426-524 | every event on the tabs does what the step function says and keeps tab identity |
| WorkspaceModel.Model.UpdateRequests | internal/workspace/model.go:329-424 | every event on requests does what the step function says and keeps pending numbers issued and distinct |
| WorkspaceTabs.StepKeepsTabs | internal/workspace/model.go:699-883 | every event keeps identifiers unique, one table tab per relation, and an active tab exactly when there are tabs |
| WorkspaceTabs.RunKeepsTabs | internal/workspace/model.go:699-883 | and so does every run |
| WorkspaceTabs.HazardousTabsAreKept | internal/workspace/model.go:744-841 | a dirty or running tab is removed only by the confirmed closing of that very tab |
| WorkspaceTabs.LeavingIsSafe | internal/workspace/model.go:777-841 | a request to quit or disconnect is made only without hazardous tabs or on the confirmed choice of exactly that |
| WorkspaceTabs.NoChoiceNoLoss | internal/workspace/model.go:744-841 | over every run in which nobody chooses the destructive side, a tab with work stays |
| WorkspaceEffect.OpeningShowsRelation | internal/workspace/model.go:699-725 | opening a relation activates its tab, adding and asking for one exactly if it has none |
| WorkspaceEffect.OpeningSqlAddsTab | internal/workspace/model.go:727-742 | opening a SQL tab adds an active tab under a new identifier |
| WorkspaceEffect.ClosingActive | internal/workspace/model.go:744-775 | a tab without work goes and its successor or the last is active; one with work is asked about |
| WorkspaceEffect.ClosingByClick | internal/workspace/mouse.go:120-125 | the close button of a tab closes that tab in the same way |
| WorkspaceEffect.ConfirmingDoesIt | internal/workspace/model.go:800-841 | confirming closes that tab and cancels what runs in it, disconnects, or quits, whichever was asked |
| WorkspaceEffect.DecliningDoesNothing | internal/workspace/model.go:800-841 | declining changes no tab and gives the focus back |
| WorkspaceEffect.TogglingChoosesOther | internal/workspace/model.go:800-841 | toggling chooses the other side of the dialog |
| WorkspaceEffect.DialogHoldsBack | internal/workspace/model.go:426-429 | while a dialog is open nothing else happens, except that contents report |
| WorkspaceEffect.LeavingAsksOrGoes | internal/workspace/model.go:777-798 | quit and disconnect happen at once exactly if no tab has work, and are asked about otherwise |
| WorkspaceEffect.MovingActivatesNeighbour | internal/workspace/model.go:843-859 | moving activates the neighbouring tab, first and last being neighbours |
| WorkspaceEffect.FocusGoesRound | internal/workspace/model.go:868-882 | the focus goes round navigator, tabs and content |
| WorkspaceEffect.SelectingActivates | internal/workspace/mouse.go:114-119 | a click on a tab activates it |
| WorkspaceEffect.EnteringFocusesContent | internal/workspace/mouse.go:129-133 | a click into the content moves the focus there |
| WorkspaceEffect.EscapingGoesToTabs | internal/workspace/model.go:472-477 | Escape goes to the tabs, from the navigator only where that hides them |
| WorkspaceEffect.OpeningFocusesContent | internal/workspace/model.go:699-725 | after any run from a new workspace, opening a relation puts the focus on its content |
| WorkspaceEffect.ReportingChangesOneTab | internal/workspace/model.go:384-395 | a report changes the state of its own tab alone |
| WorkspaceRequests.StepPending | internal/workspace/model.go:957-973 | only the number a step issues becomes pending |
| WorkspaceRequests.StepKeepsDistinct | internal/workspace/model.go:957-973 | pending numbers stay distinct and an accepted result settles its request |
| WorkspaceRequests.NewWorkspaceKeepsDistinct | internal/workspace/model.go:957-973 | from a new workspace on, over every run, pending numbers were issued and are distinct |
| WorkspaceRequests.LateResultsAreIgnored | internal/workspace/model.go:628-673 | over every run a late result of a settled request changes nothing |
| RequestEffect.TogglingAsksOnce | internal/workspace/model.go:568-583 | expanding a schema asks for its relations unless they are there or asked for |
| RequestEffect.NewWorkspaceIsConnected | internal/workspace/model.go:201-208 | a new workspace is connected, shows no schemas and waits for nothing |
| RequestEffect.CollapsingHides | internal/workspace/model.go:549-566 | collapsing hides the relations and leaves a request for them waiting |
| RequestEffect.HealthIsChecked | internal/workspace/model.go:398-407 | a due check is sent exactly for this workspace and connection, while connected and none is waited for |
| RequestEffect.HealthIsFine | internal/workspace/model.go:359-366 | an awaited good check is settled |
| RequestEffect.RefreshingAsks | internal/workspace/model.go:585-594 | refreshing asks for the schemas unless they are asked for |
| RequestEffect.ReconnectingStarts | internal/workspace/model.go:596-606 | reconnecting starts once, from a lost connection or by its button |
| RequestEffect.SchemasArrive | internal/workspace/model.go:329-346 | awaited schemas are shown |
| RequestEffect.RelationsArrive | internal/workspace/model.go:347-357 | awaited relations arrive at their schema |
| RequestEffect.ReconnectionArrives | internal/workspace/model.go:367-383 | an awaited reconnection brings the connection up and asks for the schemas anew |
| RequestEffect.FailureArrives | internal/workspace/model.go:628-673 | a failure settles its request and loses the connection exactly in the stated cases |
| ContentSync.StepKeepsSynced | internal/app/model.go:652-792 | the dirty and running state shown for a tab is that of its content after every event |
| ContentSync.LeavingLosesNothing | internal/app/model.go:652-769 | an unconfirmed request to leave is made only when no content of an open tab has unsaved or running work |
| ContentSync.WorkIsKept | internal/app/model.go:771-792 | content with unsaved or running work goes only with the confirmed closing of its tab |
| ContentEffect.ContentsFollowTabs | internal/app/model.go:652-792 | after a workspace message the contents left are those of open tabs, each in its state, except that a SQL tab that became active no longer counts as failed |
| ContentEffect.CommandsArePassedOn | internal/app/model.go:652-664 | what the shell asks for is passed on |
| ContentEffect.NothingWithoutWorkspace | internal/app/model.go:652-664 | without a workspace the shell does nothing |
| ContentEffect.TableIsCreatedOnce | internal/app/model.go:442-459 | the content of a table tab is created once, for the workspace that asked, and shown by the shell; anything else changes nothing |
| ContentEffect.SqlIsCreatedOnce | internal/app/model.go:461-475 | the same for a SQL tab |
| ContentEffect.ReportIsKeptAndShown | internal/app/model.go:555-575 | a content's new state is kept as its own and shown for its tab, and no other changes |
| ContentEffect.ClickMovesFocus | internal/app/model.go:584-650 | a click into a content also moves the focus there |
| ContentEffect.ConnectingStartsAfresh | internal/app/model.go:192-233 | a connection shows an empty workspace with a number of its own |
| ContentEffect.LeavingDropsContents | internal/app/model.go:924-948 | leaving drops every content, and until the next connection nothing happens |
| SessionCustody.EverySessionHasOneOwner | internal/app/model.go:192-251 | until shutdown every session that was connected is in exactly one of: undelivered, installed, awaiting close, closed once |
| SessionCustody.StepKeepsCustody | internal/app/model.go:192-251 | and catalog, browser, applier and executor come from the installed session or are all absent |
| SessionCustody.DisconnectingGivesUp | internal/app/model.go:924-948 | disconnecting leaves no session and no service, and the session about to be closed |
| SessionCustody.DeliveringInstallsOrCloses | internal/app/model.go:192-251 | an expected session with a catalog is installed with what it offers and the one before closed; any other is closed and nothing else changes |
| SessionCustody.ClosingCloses | internal/app/model.go:924-948 | the close command closes its session |
| SessionCustody.ConnectingDeliversOrCloses | internal/app/model.go:382-412 | a connected session is delivered, or closed if its profile cannot be saved |
| SessionCustody.NothingLeaks | internal/app/model.go:192-251 | once disconnected, with nothing undelivered and every close command run, every session ever connected is closed once |
| AppModel.App.ConnectionSucceeded | internal/app/model.go:192-233 | installs an expected session with a catalog under a new workspace and closes any other |
| AppModel.App.ReconnectionSucceeded | internal/app/model.go:234-251 | installs an expected session and keeps the tabs |
| AppModel.App.DisconnectWorkspace | internal/app/model.go:924-948 | drops session and services at once and hands the session to a close command |
| AppModel.App.UpdateWorkspace | internal/app/model.go:652-664 | updates the shell, drops contents without a tab, visits a SQL tab that became active |
| AppModel.App.Reconcile | internal/app/model.go:771-792 | keeps exactly the contents of open tabs |
| AppModel.App.OpenTable | internal/app/model.go:442-459 | creates the content of a table tab once, for the current workspace only |
| AppModel.App.Update | internal/app/model.go:442-664 | every message of workspace and contents does what the step function says, and the shell goes on showing what the contents report |
| AppModel.App.Receive | internal/app/model.go:192-251 | an arriving session leaves every session with one owner |
| AppModel.App.RunCommand | internal/app/model.go:382-412 | the connect, reconnect and close commands hand over, deliver or close their session, and every session keeps one owner |
| Windows.EnsureColumnVisible | internal/grid/model.go:435-457 | scrolls left to the selection, or right as little as shows it |
| Windows.VisibleColumns | internal/grid/view.go:105-124 | the columns from the offset that fit, at least one, and no more would |
| Windows.WindowContainsSelection | internal/sqltab/view.go:431-468 | for all widths the selected column is among the visible ones |
| Windows.ShowSelection | internal/grid/model.go:435-457 | after scrolling it into view the selected column is among the visible ones |
| Windows.VisibleTabIndices | internal/workspace/view.go:249-296 | a contiguous run with the active tab that fits its budget unless it is that tab alone, and cannot be extended at either end |
| Windows.ColumnsFit | internal/grid/view.go:105-124 | on a screen of three cells or more, two or more columns with their gaps leave two cells, and one more would not |
| Windows.TabsFit | internal/workspace/view.go:249-296 | on a screen of thirteen cells or more, two or more tabs with their gaps leave nine cells, and no neighbour would fit |
| ParameterText.FormatAdvanced | internal/launcher/model.go:574-580 | the loop joins escaped name=value pairs |
| ParameterText.ParseAdvanced | internal/launcher/model.go:553-572 | the parameters, or the first part without an equals sign or with bad escaping |
| ParameterText.ParseUndoesFormat | internal/launcher/model.go:553-580 | parsing formatted parameters returns them, for every list and all bytes |
| ParameterMeaning.UnescapeMeans | internal/launcher/model.go:553-572 | escaped text is read exactly if it consists of plain bytes, plus signs and percent signs with two hex digits of either case, and as what they stand for |
| ParameterMeaning.ParseMeans | internal/launcher/model.go:553-572 | text is read as parameters exactly if each part between ampersands is a pair cut at its first equals sign |
| ParameterMeaning.FirstBadPartReported | internal/launcher/model.go:553-572 | otherwise the first bad part is reported, for its missing equals sign or its escapes |
| ParameterMeaning.ByteIsWritten | internal/launcher/model.go:574-580 | letters, digits and four marks are written as they are, a space as a plus, anything else as a percent sign and two upper-case digits |

## Left out

- pgx, pools, TLS, timeouts and SQLSTATE classification: an outcome is success, rejection, conflict or a lost confirmation.
- The catalog SQL of Describe, Schemas and Relations: its result is taken as metadata.
- Best-effort offset paging: it promises nothing under concurrent change.
- Base64 and JSON of cursors and the text form of cursor values: an injective encoding with a length.
- Concurrent writers between page requests, and between the statements of one apply: tables are static during a walk and a batch.
- Generated columns recomputed by UPDATE, triggers, and defaults that differ from row to row: a default is a function of the column, constraints are one predicate on the table.
- Physical row order: an update keeps a row in place and an insert appends, so that tables compare as sequences.
- The 32-bit width and wrap-around of xmin, and the fallback to 0 for an unreadable xmin (internal/postgres/browser.go:525-533).
- The current row attached to a conflict, the column attached to an error, and status texts.
- Escaping and truncation of displayed text, ANSI widths, themes, hit-box geometry and help screens: widths are arbitrary numbers, and a click is given by what it hits.
- Date, number and UUID validation of typed text: an arbitrary predicate.
- Horizontal scrolling inside the grid state: `Windows` models it on its own.
- Scrolling of overlays, and keys while the help screen is open.
- Sharing of Go maps and slices: staged mutations are values, so copying them for a snapshot is not visible. Retrying Commit with the same prepared value, whose document slice the first attempt has overwritten, is not modelled.
- A profile file that was replaced although Save reported an error (internal/platform/profile_repository.go:137-143).
- Warnings that accompany a saved profile, clocks and the generation of identifiers.
- The text area's own editing, soft wrapping and input sanitising: any edit that leaves the cursor on the text.
- Shutdown: sessions are followed until the application quits.
- The launcher's state: whether a delivered connection is still expected is arbitrary.
- Captured result rows of a SQL run, diagnostics, the cancellation registry and rendering.
- BrowsingShowsWholeTable: needs encoded cursors within the limit, the exact condition under which a walk goes on.
