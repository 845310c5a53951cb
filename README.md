# Thesis tracking: access rules, reconciliation and form transforms in Dafny

This project models the core of a university thesis-tracking application.
It covers the server's thesis routes and the client's list and record
transforms, and proves properties of both.

- **Server** (`/api/theses`): list, read, create, update and delete theses
  under role-based access. The model covers:
  - the role-based access rules and the status gate: a status other than
    PLANNING may be submitted only by an admin or a manager of the
    submitted program;
  - the reconciliation of submitted supervisors and graders with the User
    table: external people are looked up by email or created, duplicate
    supervisors are dropped, and the thesis is split evenly;
  - the replacement of the two attachments (`researchPlan`,
    `waysOfWorking`) and the files removed from disk.

  The route handlers are not part of this model. Their behaviour is taken
  from the integration tests in `src/server/routes/thesis.integration-test.js`,
  which pin them down case by case.
- **Client**:
  - the favourite-program toggle and the favourite/other split of the
    navigation bar;
  - GraderSelect's slot update and per-slot field settings;
  - the edit dialog's candidate filters and field edits. The filters compare
    user ids with the `userId` key of the author and supervision entries. The
    entries of a thesis the dialog opens with have no such key, so there the
    filters exclude nobody, and the new-thesis template's supervisor is offered
    as its author;
  - the template a new thesis starts from.

Modules, one per component:

- `ThesisTypes`: the records of `src/server/types.ts`.
- `Access`: who may do what, and the status code of each route.
- `Reconciliation`: resolving people, de-duplication and the even split.
- `AttachmentFiles`: which files are kept and which are removed.
- `ThesisStore`: a `Store` class holding the tables, with a method per route.
- `FavoritePrograms`, `GraderSelect`, `ThesisEditForm`, `ThesesPage`: the
  client components.
- `Seqs` and `Wrappers`: shared helpers.

Server keys (thesis and user ids) are modelled as natural numbers handed out
in increasing order; the source declares them as strings and does not show
how they are generated. Client ids are strings, as the client's types
declare them.

## Model

| member | source | states |
|---|---|---|
| `FavoritePrograms.RemoveAll` | src/client/components/NavBar/FavoritePrograms.tsx:40 | the filtered list lacks the id, keeps every other id as often as it occurred, and is shorter when the id occurred |
| `FavoritePrograms.Toggle` | src/client/components/NavBar/FavoritePrograms.tsx:38-41 | the toggled id's membership flips; an absent id is appended at the end; a present one makes the list shorter |
| `FavoritePrograms.FavoritesOf` | src/client/components/NavBar/FavoritePrograms.tsx:32 | a program is listed iff it is in the input and marked favourite |
| `FavoritePrograms.OthersOf` | src/client/components/NavBar/FavoritePrograms.tsx:33 | a program is listed iff it is in the input and not marked favourite |
| `FavoritePrograms.RemoveAllAbsent` | src/client/components/NavBar/FavoritePrograms.tsx:40 | filtering out an id that does not occur returns the list unchanged |
| `FavoritePrograms.RemoveAllAppend` | src/client/components/NavBar/FavoritePrograms.tsx:40-41 | filtering distributes over concatenation |
| `FavoritePrograms.RemoveAllSubsequence` | src/client/components/NavBar/FavoritePrograms.tsx:40 | the remaining ids keep their original order |
| `FavoritePrograms.ToggleRemovesEveryOccurrence` | src/client/components/NavBar/FavoritePrograms.tsx:39-40 | toggling a favourite removes every occurrence of it and keeps the rest in order |
| `FavoritePrograms.ToggleKeepsOthers` | src/client/components/NavBar/FavoritePrograms.tsx:39-41 | with the toggled id filtered out, the lists before and after the toggle are equal |
| `FavoritePrograms.ToggleTwiceRestores` | src/client/components/NavBar/FavoritePrograms.tsx:39-41 | toggling an absent id twice gives back the original list |
| `FavoritePrograms.PartitionCoversPrograms` | src/client/components/NavBar/FavoritePrograms.tsx:32-33 | favourites and others are disjoint and together are the input, with multiplicity |
| `FavoritePrograms.PartitionKeepsOrder` | src/client/components/NavBar/FavoritePrograms.tsx:32-33 | both sections keep the input order |
| `GraderSelect.HandleChange` | src/client/components/ThesisPage/GraderSelect/GraderSelect.tsx:13-18 | the copy has the same length; slot `index` holds the chosen grader, primary iff `index` is 0; every other slot is unchanged |
| `GraderSelect.FieldSettingsAt` | src/client/components/ThesisPage/GraderSelect/GraderSelect.tsx:40-45 | a slot is required, and shows the professor text, iff it is the first |
| `GraderSelect.ExactlyOneRequiredField` | src/client/components/ThesisPage/GraderSelect/GraderSelect.tsx:40-45 | any non-empty grader list has exactly one required field |
| `ThesisEditForm.FormOf` | src/client/components/ThesisPage/ThesisEditForm.tsx:25-33 | the dialog opens with the thesis's fields and one unkeyed entry per supervision and per author |
| `ThesisEditForm.AuthorIds` | src/client/components/ThesisPage/ThesisEditForm.tsx:36 | one key per author entry, its `userId` when it has one and absent otherwise, in order |
| `ThesisEditForm.SupervisorIds` | src/client/components/ThesisPage/ThesisEditForm.tsx:37-39 | one key per supervision entry, its `userId` when it has one and absent otherwise, in order |
| `ThesisEditForm.WithoutIds` | src/client/components/ThesisPage/ThesisEditForm.tsx:54-61 | a user is kept iff it is in the list and no present key equals its id, and as often as it occurs in the list; an absent key excludes nobody |
| `ThesisEditForm.PotentialAuthors` | src/client/components/ThesisPage/ThesisEditForm.tsx:54-57 | a user is offered as author iff it is in the list and no supervision entry's key is its id |
| `ThesisEditForm.PotentialSupervisors` | src/client/components/ThesisPage/ThesisEditForm.tsx:58-61 | a user is offered as supervisor iff it is in the list and no author entry's key is its id |
| `ThesisEditForm.WithoutIdsSubsequence` | src/client/components/ThesisPage/ThesisEditForm.tsx:54-61 | the kept users keep their original order |
| `ThesisEditForm.CandidateLists` | src/client/components/ThesisPage/ThesisEditForm.tsx:54-61 | no user a supervision entry names by key is offered as author, and no user an author entry names by key as supervisor; both lists are ordered sub-lists of the users |
| `ThesisEditForm.UnnamedUserOfferedInBoth` | src/client/components/ThesisPage/ThesisEditForm.tsx:54-61 | a listed user whom no entry names by key is offered in both selects |
| `ThesisEditForm.WithoutAbsentIds` | src/client/components/ThesisPage/ThesisEditForm.tsx:54-61 | keys that are all absent leave the user list unchanged |
| `ThesisEditForm.OpenedFormExcludesNobody` | src/client/components/ThesisPage/ThesisEditForm.tsx:25-61 | for a thesis the dialog opens with, both selects offer exactly the user list, its supervisors and authors included |
| `ThesisEditForm.TemplateSupervisorOfferedAsAuthor` | src/client/components/ThesisPage/ThesisEditForm.tsx:36-57 | the new-thesis template's supervisor, the logged-in user, is offered as its author |
| `ThesisEditForm.AuthorSelectValue` | src/client/components/ThesisPage/ThesisEditForm.tsx:127-131 | the first author entry's key (absent when it has none), or "" without authors |
| `ThesisEditForm.EditTopic` | src/client/components/ThesisPage/ThesisEditForm.tsx:89-93 | the topic becomes the typed value and nothing else changes |
| `ThesisEditForm.EditProgram` | src/client/components/ThesisPage/ThesisEditForm.tsx:107-112 | the program becomes the chosen one and nothing else changes |
| `ThesisEditForm.ChooseAuthor` | src/client/components/ThesisPage/ThesisEditForm.tsx:134-138 | the author list becomes exactly one entry keyed by the chosen user and nothing else changes |
| `ThesisEditForm.EditSupervisions` | src/client/components/ThesisPage/ThesisEditForm.tsx:151-155 | the supervisions become the new list and nothing else changes |
| `ThesisEditForm.EditStatus` | src/client/components/ThesisPage/ThesisEditForm.tsx:169-174 | the status becomes the chosen one and nothing else changes |
| `ThesisEditForm.ChosenAuthorShownAndExcluded` | src/client/components/ThesisPage/ThesisEditForm.tsx:127-138 | after choosing an author the select shows their id and the supervisor candidates exclude them |
| `ThesesPage.FirstStudyTrackId` | src/client/components/ThesisPage/ThesesPage.tsx:113 | present iff the program has a study track, and then the first one's id |
| `ThesesPage.NewThesisTemplate` | src/client/components/ThesisPage/ThesesPage.tsx:37-128 | no template (the handler throws) iff there is no program; otherwise status PLANNING and empty topic; the first program and its first study track; one supervision (the user, 100, primary, internal); one primary internal grader; no authors, id or files |
| `ThesesPage.TemplateIsComplete` | src/client/components/ThesisPage/ThesesPage.tsx:114-123 | the template's percentages add up to 100 and exactly the first grader is primary |
| `Access.MayAccess` | src/server/routes/thesis.integration-test.js:280-453 | via `ThesisStore.EmployeeSeesManagedAndSupervised`, `Access.TargetProgramManagerIsNotEnough` and `Access.SupervisorMayOnlyPlan`: an admin reaches every thesis, anyone else exactly those of the programs they manage and those they supervise |
| `Access.MaySetStatus` | src/server/routes/thesis.integration-test.js:1727-1854 | via `Access.StatusGateComesFirst` and `Access.SupervisorMayOnlyPlan`: PLANNING may be submitted by anyone with a role, any other status only by an admin or a manager of the submitted program |
| `Access.ListCode` | src/server/routes/thesis.integration-test.js:31-78 | 200 iff the caller is an admin or a teacher, 403 otherwise |
| `Access.ReadCode` | src/server/routes/thesis.integration-test.js:60-66 | 403 iff the caller has no role; 200 iff the thesis exists and the caller administers, manages its program or supervises it; otherwise 404 |
| `Access.CreateCode` | src/server/routes/thesis.integration-test.js:558-919 | 201 iff the caller has a role, may set the status and both files are uploaded; 403 iff no role or a forbidden status; otherwise 400 |
| `Access.UpdateCode` | src/server/routes/thesis.integration-test.js:922-1854 | 200 iff the caller has a role, may set the status and may access the existing thesis; 403 iff no role or a forbidden status; otherwise 404 |
| `Access.DeleteCode` | src/server/routes/thesis.integration-test.js:456-556 | 204 iff the caller has a role and may access the existing thesis; 403 iff no role; otherwise 404 |
| `Access.NoRoleIsForbiddenEverywhere` | src/server/routes/thesis.integration-test.js:31-66 | without the admin or teacher group all five routes answer 403 |
| `Access.StatusGateComesFirst` | src/server/routes/thesis.integration-test.js:1727-1793 | a status other than PLANNING from a non-admin who does not manage the submitted program is 403 on create and update, even where update would be 404 |
| `Access.SupervisorMayOnlyPlan` | src/server/routes/thesis.integration-test.js:1795-1854 | a supervisor who neither administers nor manages gets 200 for PLANNING and 403 for any other status |
| `Access.TargetProgramManagerIsNotEnough` | src/server/routes/thesis.integration-test.js:1575-1611 | managing only the program a thesis is moved to gives 404 on update and delete |
| `Access.MissingThesisIsNotFound` | src/server/routes/thesis.integration-test.js:1346-1391 | an unknown id is 404 on read, update and delete, even for an admin |
| `Reconciliation.FindByEmail` | src/server/routes/thesis.integration-test.js:1242-1343 | the position of the first user with the email, or none when no user has it |
| `Reconciliation.Dedup` | src/server/routes/thesis.integration-test.js:1100-1160 | no user twice, exactly the submitted users, never longer |
| `Reconciliation.ResolveOne` | src/server/routes/thesis.integration-test.js:607-1343 | the existing users stay a prefix; an internal reference resolves to its own key; an external person with a known email resolves to the first user with that email and changes nothing; an unknown one becomes a new user under the next key with the submitted first name, last name and email, flagged external |
| `Reconciliation.ResolveAll` | src/server/routes/thesis.integration-test.js:607-664 | one resolved user per submitted person |
| `Reconciliation.ResolveAllAppendsExternalUsers` | src/server/routes/thesis.integration-test.js:607-664 | existing users are kept unchanged; every inserted user is external with a fresh key; keys stay unique |
| `Reconciliation.ResolveAllEntries` | src/server/routes/thesis.integration-test.js:1242-1343 | an internal reference resolves to its own key; an external person to a user with that email, the first existing one when there is one |
| `Reconciliation.UsersOnlyGrow` | src/server/routes/thesis.integration-test.js:1314-1320 | resolution keeps the existing users in place and unchanged |
| `Reconciliation.DedupKeepsSubmissionOrder` | src/server/routes/thesis.integration-test.js:1100-1160 | de-duplication keeps the submission order |
| `Reconciliation.DedupOfRepeats` | src/server/routes/thesis.integration-test.js:1100-1160 | the same user submitted any number of times is one user |
| `Reconciliation.EvenSupervisions` | src/server/routes/thesis.integration-test.js:1163-1240 | one row per distinct supervisor, with its key and external flag, all shares equal |
| `Reconciliation.EvenSharesTotal` | src/server/routes/thesis.integration-test.js:1163-1240 | equal shares add up to at most 100 and to more than 100 minus the number of supervisors; to exactly 100 when that number divides 100 |
| `Reconciliation.GraderRows` | src/server/routes/thesis.integration-test.js:607-664 | one row per grader, in order, with its key, its primary flag as submitted and its external flag |
| `Reconciliation.Reconcile` | src/server/routes/thesis.integration-test.js:1100-1343 | no more supervisions than submitted, one grader row per submitted grader with the primary flags as submitted |
| `Reconciliation.ReconciledSupervisions` | src/server/routes/thesis.integration-test.js:1100-1343 | the supervisor keys are the de-duplicated resolved supervisors, in order; equal shares adding up to between 100 minus the count (exclusive) and 100, and to 100 when the count divides 100 |
| `Reconciliation.RepeatedSupervisorGetsEverything` | src/server/routes/thesis.integration-test.js:1100-1160 | one user submitted repeatedly leaves one supervision at 100 |
| `Reconciliation.KnownAndNewcomerResolve` | src/server/routes/thesis.integration-test.js:1242-1343 | a new email inserts an external user; a known email resolves to the known user |
| `Reconciliation.KnownEmailIsNotDuplicated` | src/server/routes/thesis.integration-test.js:1242-1343 | 34/33/33 over a user, a newcomer and the user's email again becomes 50/50 over two rows; the newcomer is external and the known user is left internal |
| `AttachmentFiles.ReplaceLabel` | src/server/routes/thesis.integration-test.js:990-1045 | an upload replaces the file and removes the old one when there was one; no upload keeps the file and removes nothing |
| `AttachmentFiles.Replace` | src/server/routes/thesis.integration-test.js:922-1098 | each label holds its upload if one was sent, else its old file; at most one removed name per upload, each the name of a stored file |
| `AttachmentFiles.StoredFilenames` | src/server/routes/thesis.integration-test.js:456-473 | one name per stored file, each stored file's name included |
| `AttachmentFiles.UploadCount` | src/server/routes/thesis.integration-test.js:922-1098 | at most two, and zero iff nothing was uploaded |
| `AttachmentFiles.UnlinkedPerUpload` | src/server/routes/thesis.integration-test.js:922-1098 | with both files stored, one file is removed per uploaded label, exactly the old files of those labels, and labels without an upload keep their file |
| `AttachmentFiles.KeptOnly` | src/server/routes/thesis.integration-test.js:990-1045 | the files of the labels without an upload |
| `AttachmentFiles.UpdateAccountsForEveryFile` | src/server/routes/thesis.integration-test.js:922-1098 | every file stored before an update is either kept or removed, and nothing else is removed |
| `AttachmentFiles.NoUploadsNoChange` | src/server/routes/thesis.integration-test.js:1047-1098 | an update without uploads changes no file and removes none |
| `ThesisStore.Visible` | src/server/routes/thesis.integration-test.js:237-453 | only stored theses are visible; via the three lemmas below, which ones each caller sees |
| `ThesisStore.AdminSeesAll` | src/server/routes/thesis.integration-test.js:237-278 | an admin sees every thesis |
| `ThesisStore.EmployeeSeesManagedAndSupervised` | src/server/routes/thesis.integration-test.js:280-400 | any other caller sees exactly the theses of managed programs plus the supervised ones |
| `ThesisStore.UninvolvedSeesNothing` | src/server/routes/thesis.integration-test.js:444-453 | a caller who manages and supervises nothing sees nothing |
| `ThesisStore.ReconcileIsWellFormed` | src/server/routes/thesis.integration-test.js:1100-1343 | reconciling keeps user keys unique and lists each supervisor once |
| `ThesisStore.Store.List` | src/server/routes/thesis.integration-test.js:237-453 | the status is the list code; on 200 the visible theses, each once, each with its row, supervisions, graders, authors and files |
| `ThesisStore.Store.Get` | src/server/routes/thesis.integration-test.js:60-66 | the status is the read code; on 200 the stored thesis with its people and files |
| `ThesisStore.Store.ResolvePeople` | src/server/routes/thesis.integration-test.js:607-664 | resolving one person at a time gives the users and table of the resolution function |
| `ThesisStore.Store.StoreThesis` | src/server/routes/thesis.integration-test.js:607-664 | the row, reconciled people, authors and files are stored under the key, the User table becomes the reconciled one, and the store stays well formed |
| `ThesisStore.Store.Post` | src/server/routes/thesis.integration-test.js:558-919 | the status is the create code; 403 for a status change carries the field error; nothing changes unless 201; on 201 a new thesis under the next key with reconciled people and both files, and the body is that thesis with its supervisions and graders |
| `ThesisStore.Store.Put` | src/server/routes/thesis.integration-test.js:922-1854 | the status is the update code; nothing changes unless 200; on 200 row, people and files are replaced, the replaced files are removed, and the body is the updated thesis with its supervisions and graders |
| `ThesisStore.Store.Delete` | src/server/routes/thesis.integration-test.js:456-556 | the status is the delete code; nothing changes unless 204; on 204 the thesis and its child rows go and exactly its stored files are removed |

## Left out

- The route handlers themselves, Express, the test transport, multipart parsing, reading groups from headers and the upload path prefix are not part of this model. The role is an input value. A file on disk is named by its stored filename, and removing it appends that name to `unlinked`.
- `Access.ReadCode`: the tests assert only the 403 for a caller without a role. The 404/200 split uses the same access rule as update and delete.
- `Access.UpdateCode`: the status gate comes before the existence check. The tests assert only that it comes before the access check. The gate checks the program id in the submitted body, not the thesis's current program. Only the create tests show that; the update tests never move a thesis to another program with a status other than PLANNING, so they cannot tell the two apart.
- `Access.CreateCode`: the order of the 400 for a missing file against the status 403 is not asserted. The model checks the status first. A missing `waysOfWorking` is also a 400, though the tests only show a missing `researchPlan`.
- `Access.CreateCode`: a teacher may create a PLANNING thesis in any program. No test restricts creation further.
- `Reconciliation.EvenSupervisions`: the share is 100 divided by the number of distinct supervisors, rounded down, and the remainder is dropped. With at least one supervisor whose count does not divide 100, the stored total is below 100 by less than the number of supervisors (`Reconciliation.EvenSharesTotal`). With no supervisor there is no row and the total is 0. The tests only show counts that divide 100.
- `Reconciliation.Reconcile`:
  - graders are resolved like supervisors but are not de-duplicated;
  - the stored `isExternal` of a supervision or grader row is the resolved user's flag;
  - each grader's `isPrimaryGrader` is stored as submitted, so a list whose second grader is marked primary stores that grader as primary; the model does not force the flag onto the first grader;
  - an empty supervisor list is accepted and stored as no supervision rows, and `Access.CreateCode` and `Access.UpdateCode` do not look at the supervisions, so create and update still succeed; the model rejects no request whose supervision shares do not add up to 100;
  - none of these is asserted by the tests.
- `ThesisStore.Store.Post` and `ThesisStore.Store.Put`: authors are stored as the submitted user keys, without resolution.
- `ThesisStore.Store.List`, `ThesisStore.Store.Get`, `ThesisStore.Store.Post` and `ThesisStore.Store.Put`: people in a body appear as user keys, not as the nested user records the routes return.
- The order of `/api/theses` results is not fixed. `Store.List` returns the visible theses in some order, each once.
- Transactions, rollback, failures of the file store and the 500 answers are not modelled. Neither is the logging of a failed file removal.
- `src/server/routes/user.ts`: only its notion of managed programs is modelled, as the role's `managedProgramIds`.
- `ThesisEditForm.EditSupervisions`: the supervisor selection component is not part of this model. Its tests show it writing entries with a `userId` key, so the entries it hands over are taken as given, keyed or not.
- `ThesesPage.NewThesisTemplate`: the page guards only against a program list that has not loaded (src/client/components/ThesisPage/ThesesPage.tsx:37). An empty list still renders, and the handler then throws a TypeError on `programs[0].id` (line 112). The model returns `None` for that case and does not model the thrown error further.
- Dates: the template's dates are parameters. The dayjs formatting and "one year later" are not modelled.
- `getSortedPrograms` is not part of this model, so the favourite sections are modelled before sorting.
- Not modelled on the client:
  - rendering, translation strings and snackbars;
  - the favourite mutation's error branch, which cannot fire because the mutation is not awaited.
- `ProfileMenu.tsx` and `SupervisorSelect.test.jsx` are not modelled: one is a display-only menu, the other tests a component that is not part of this model.
- The user-sync updater, the migration and the lint configuration are not modelled.
