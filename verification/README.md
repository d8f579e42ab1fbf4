# tusShare: a model of its stateful cores

tusShare is an end-to-end encrypted file-sharing service: a Python backend on PostgreSQL and a browser client. This
project models the parts of it whose correctness depends on state, order or interleaving, and proves what they are for.
`dafny verify dfyconfig.toml` checks everything.

| module | what it models |
|---|---|
| `PermissionMigration` | the start-up migration that renames and splits permission flags: tables as maps, one SQL statement a step, foreign keys as failing steps and cascades |
| `RootBackfill` | the recursive query and the update that fill each folder's pointer to its root |
| `PgParams` | the `?` to `$n` placeholder translation, against two readings of a query |
| `SplitStatements` | the SQL script splitter, over Python's own lines and white space (`PythonText`, and what they give in `PythonLines`) |
| `Manifest`, `ManifestCache` | the client's list of files: event deltas, and the cache with its ETag slot and shared promise, against a changing server |
| `StepUpCache`, `ApiClient` | any number of API calls cut at every await, sharing one token refresh, one password prompt and one cache of step-up tokens |
| `Base64Url` | one encoder and two decoders of WebAuthn bytes (RFC 4648, sections 5 and 3.2) |
| `CanonicalJson`, `DottedKeys`, `SensitiveConfig` | the sealed configuration: the hashed text, the wildcard lookup, and bootstrap and load |
| `EventFilter`, `EventCatalogue` | the check boxes of an event filter, their read-out, and what the server then delivers |
| `AdminLayout` | the merge of a saved dashboard layout with the defaults, and the flags that hide sections |
| `LastUsedBuffer`, `LastUsedWorkers` | the write-behind buffer for last-used times, in one server process and in several over one table |
| `Slugs` | three-word slugs: their pattern, their number, the retrying inserts and the redirect |

Code that changes things step by step is a class or a method with a loop, proved against a function of the old state;
the theorems are about that function. The modules with concurrency (`ManifestCache`, `ApiClient`, `LastUsedBuffer`,
`LastUsedWorkers`) are state machines whose steps are the stretches of code between two awaits, and their main results
are about every run.

## Hypotheses

- A `fetch` never throws synchronously, so the refresh slot is assigned before the refresh can clear it.
- Clocks do not go back; times are integers (milliseconds in the client).
- The digest of the sealed configuration is free of collisions and has no white space around it (`CollisionFree`).
- `NotModifiedIsCurrent` assumes that tags determine content. The server's real tag does not; see below. `IsServerTag`
  says what that tag is: a digest, free of collisions, of the files' ids and creation times in order. It is never
  empty.
- Ids of files and API keys are random and never come back.
- `LastUsedBuffer` is about one server process. The project documents several (`.env.example`, lines 77-80);
  `LastUsedWorkers` says what they do to one table.
- Both readings of a query in `PgParams` take every `?` and `$n` for a placeholder: the query has no string literals,
  comments or dollar-quoted bodies with such marks. PostgreSQL 15 and later also refuses a letter directly after `$1`.
- `EventKeepsAgreement` and what builds on it take an event that carries every column its change touches. Which events
  of the server do not, and what follows, is said below.
- The server of a manifest of all folders is the set of files its user may see, and a change is one to these.
  `ScopedAgreesIff` and `CrossingBreaksScoped` say what happens when a file becomes visible or ceases to be.

## Where the code and its promises differ

- The migration succeeds exactly when the role `server_admin` and the flag `can_act_as_escrow` exist: its back-fill
  has foreign keys to both (`ScriptMigrates`). Locks on retired grants are not carried over (`LocksAreDropped`).
- `_pg_params` keeps a query's meaning exactly when no digit directly follows a `?` or a `$`.
- `_split_statements` drops what follows the last boundary (`NothingDroppedIff`). It announces that comments outside
  dollar quotes are skipped, but its depth never goes back to zero: they are skipped only before the first `$$`. The
  kept lines are the announced ones exactly when no comment stands at even depth after a `$$` (`CommentsSkippedIff`);
  a late comment that ends in ';' becomes a statement of its own (`LateCommentIsEmitted`).
- The manifest's ETag covers ids and creation times only, so a page that is loaded again after a rename it missed
  shows the old name; `ChangeIsMissedIff` says which changes are missed (`RenameIsNotSeen` is the plainest). A load
  joins whatever load is under way, whatever its folder (`ReplyFolderIff`, `SecondFolderIsFirst`); a failed load stays
  in the slot (`FailureSticks`, `FirstFailureSticks`).
- An invalidation clears the stored entry so that the next load fetches everything, but a load under way can fill the
  memory and the slot again with what it was sent earlier. `InvalidationLastsIff` says exactly when.
- The `file.added` event of a batch upload carries a folder id only, and an update recomputes the name from its
  payload alone (`AddAgreesIff`, `UpdateNamesRightIff`). The announcement of a move lacks the folder's name, so the
  list keeps the old one unless both folders have the same (`MoveAgreesIff`, `MovedFileKeepsOldFolder`). Events closer
  together than the debounce timer are dropped but for the last (`BurstAgreesIff`, `SwallowedAgreesIff`). A change of
  a new file that arrives while its added event awaits the name is lost; `LateAddIff`, `LatePatchIff` and
  `LateEventIff` say exactly when events may overlap (`OverlappingRemovalIsLost` is the plainest case where they may
  not).
- Events carry no folder, and a manifest of one folder takes them all: it agrees with the folder's files exactly as
  long as no change takes a file across the folder's border (`ScopedAgreesIff`, `CrossingBreaksScoped`).
- Logging out clears neither the list in memory nor the stored entry. The next user of the tab is shown the previous
  user's list exactly when it is of the folder asked for, and stored files after a failed request (`NextUserSees`,
  `NextUserSeesFirst`); a request that succeeds never shows files whose tag differs from that of the user's own
  (`NextUserProtected`).
- A second step-up prompt replaces the first, whose call then never ends (`LostIff`, `TwoPromptsLoseOne`). A request
  first sent with an empty CSRF cookie is sent again with an empty one (`ResentWithCurrentCookieIff`,
  `EmptyCookieIsSentAgain`).
- A flush of last-used times is documented as one transaction; every statement commits by itself, so a failing flush
  leaves what it has written and forgets the rest (`HalfWritten`). `FlushAtomicIff` says when it is all or nothing all
  the same, and `BehindIff` which keys are then behind.
- The update of a last-used time is unconditional, so with several server processes a stored time can go back
  (`TwoWorkersMoveBack`): exactly when another process was the last to write the row, with a later time
  (`MovesBackIff`).
- An event filter with no box ticked delivers every operational event (`DeliveredIffTicked`). Opening and saving a
  filter drops entries the catalogue does not list (`SavedAgainIff`).
- Layout ids are looked up in a plain object, which also answers to inherited names such as `constructor`;
  `AppliesIff` says for which layouts the page fails (`ConstructorTabFails`).
- The slug pattern's `$` also accepts a line break after the slug; such a slug leads nowhere. Share links and invite
  links have separate uniqueness, so a live invite can hide a share link of the same slug (`LinkOpensIff`,
  `InviteHidesLink`).

## Model

| member | source | states |
|---|---|---|
| PermissionMigration.ScriptMigrates | backend/app/database.py:368-616 | From any tables with intact foreign keys the script succeeds if and only if the back-fill's role and flag exist, and then every role's value for a flag is its own earlier one, else its one predecessor's, else the back-fill, else absent; retired flags are gone and nothing else changes |
| PermissionMigration.Resumable | backend/app/database.py:368-616 | Stopping after any prefix of the statements that runs and running the whole list again comes to what one uninterrupted run comes to, be it the migrated tables or the failing back-fill |
| PermissionMigration.SafeOnEveryBoot | backend/app/database.py:368-616 | For the flags in the source: however far an earlier attempt got, a boot migrates, and the next boot changes nothing |
| PermissionMigration.PlanIsValid | backend/app/database.py:371-605 | The insert, rename and split lists fit together: the inserted flags are exactly those with a predecessor, the handled flags exactly those with successors, each successor has one predecessor, and no flag both comes and goes |
| PermissionMigration.IntegrityThroughout | backend/app/sql/setup/schema.sql:312-332 | After every single statement each stored grant's flag is defined and its role exists |
| PermissionMigration.SafeStep | backend/app/database.py:405-611 | A statement executed where the script executes it cannot fail and leaves the final outcome unchanged |
| PermissionMigration.CopiesCover | backend/app/database.py:405-605 | After the copies of one group no role holds the retired flag without every successor, and no existing grant was overwritten |
| PermissionMigration.GroupRetires | backend/app/database.py:405-605 | One group of copies and deletes runs from any state between groups and removes its flag everywhere |
| PermissionMigration.LocksAreDropped | backend/app/database.py:405-409 | A grant of a retired flag, locked or not, becomes a grant of its successor with the same value, no lock and no tier |
| PermissionMigration.SeedsAreSown | backend/app/database.py:607-616 | Afterwards the server's administrators hold the escrow flag, "1" and unlocked unless they held it before, and the expiry setting is there, "0" unless it was set before |
| PermissionMigration.Connection.ExecuteStatement | backend/app/database.py:369-616 | One statement on the stored tables, with the foreign keys deciding whether it fails |
| PermissionMigration.Connection.MigratePermissions | backend/app/database.py:368-616 | The transaction: all of the migration or nothing, with the exact condition for success |
| RootBackfill.RecursiveTree | backend/app/database.py:650-656 | The recursive query ends on every parent map, cycles included, lists each folder at most once, and pairs a folder with a root exactly when walking up from it ends at that root |
| RootBackfill.FolderTable.Backfill | backend/app/database.py:650-660 | Pointers that were NULL get the root that some number of steps up ends at, if there is one; pointers already set, every parent and the folders themselves stay as they were |
| RootBackfill.SecondRunIsIdle | backend/app/database.py:650-660 | A second run changes nothing |
| RootBackfill.AllRightAfterwards | backend/app/database.py:644-660 | Afterwards every pointer is right if and only if every folder has a root and the pointers already set were right |
| RootBackfill.RootlessIffCyclic | backend/app/database.py:650-660 | With parents that exist, a folder has no root exactly when its parent chain loops |
| RootBackfill.NextLevel | backend/app/database.py:653-655 | Joining the folders at one depth with the table gives exactly the folders one deeper, once each |
| PgParams.Translate | backend/app/database.py:30-39 | The loop with its counter gives the translation read as a function of the query |
| PgParams.ParseDecimal | backend/app/database.py:36-38 | A printed parameter number reads back as itself |
| PgParams.DecimalDigit | backend/app/database.py:36-38 | A parameter number is printed to base ten, digit by digit, without leading zeros |
| PgParams.ReadingsAgree | backend/app/database.py:30-39 | For every argument list long enough, filling the numbered placeholders of the translation gives what filling the question marks gives |
| PgParams.SwallowedDigits | backend/app/database.py:30-39 | If a digit follows a ? or a $, the translation misreads some argument list |
| PgParams.MeaningKeptIff | backend/app/database.py:30-39 | The translation keeps a query's meaning, for all argument lists, if and only if no digit directly follows a ? or a $; every ? and $n of the query is taken for a placeholder |
| SplitStatements.Split | backend/app/database.py:262-289 | The loop over lines with its buffer and dollar count gives the statements of the script |
| SplitStatements.EmittedLines | backend/app/database.py:262-289 | The emitted lines are exactly the kept lines in order up to the last boundary, and what is dropped holds no complete statement |
| SplitStatements.EveryStatementComplete | backend/app/database.py:275-289 | Every emitted statement ends in ';', has an even number of $$ over its lines, and is cut at the first place where both hold |
| SplitStatements.SplitAgain | backend/app/database.py:315-318 | Splitting the rejoined statements gives the same list again |
| SplitStatements.NothingDroppedIff | backend/app/database.py:275-289 | Nothing is dropped exactly when the last kept line ends a statement outside every dollar quote |
| SplitStatements.LastLineFeed | backend/app/database.py:272 | Whether a script ends in a line feed makes no difference to its statements |
| SplitStatements.EndsStatementIff | backend/app/database.py:273-283 | A line ends a statement exactly when nothing but white space follows a ';' that is in it |
| SplitStatements.CommentLineIff | backend/app/database.py:273-275 | A line is a comment exactly when -- stands in it after nothing but white space |
| PythonLines.SplitLinesIff | backend/app/database.py:272 | The lines of a text are the only way to write it as lines free of breaks, each with one break after it, \r\n being one, but for a last line that is not empty and may do without |
| PythonLines.SplitEnded | backend/app/database.py:272 | Joined lines with a line feed at the end are split into just these lines |
| PythonLines.SplitJoined | backend/app/database.py:315-318 | Lines without breaks, the last not empty, come back from joining and splitting |
| PythonLines.DollarsIff | backend/app/database.py:279 | The count is the greatest number of $$ in the text no two of which overlap |
| PythonLines.StripSplits | backend/app/database.py:273 | A text that is not blank is its stripped form with white space before and after it, and that form has none at its ends |
| SplitStatements.GroupsHoldKept | backend/app/database.py:275-289 | The groups and the dropped tail together are the kept lines, in order |
| SplitStatements.CommentsSkippedIff | backend/app/database.py:274-278 | The lines kept are those the comment announces, without blank lines and without comments outside dollar quotes, exactly when no comment stands at even depth after a $$ |
| SplitStatements.CommentsDoNoHarm | backend/app/database.py:262-289 | Then the statements are those of the announced rule as well |
| SplitStatements.LateCommentIsEmitted | backend/app/database.py:274-289 | A script of two lines whose second, a comment, is emitted as a statement |
| Manifest.EventKeepsAgreement | frontend/js/app.js:754-801 | An event that tells the whole change carries agreement of the list with the server's files, with distinct ids, over to the changed server |
| Manifest.RunKeepsAgreement | frontend/js/app.js:754-801 | Any sequence of added, updated, moved and removed events handled one at a time keeps the list equal to the server's files with distinct ids |
| Manifest.ReplayedAdd | frontend/js/app.js:773-790 | An added event delivered twice is the same as once |
| Manifest.AddAgreesIff | backend/app/routes/batch_upload.py:537 | After a new file is announced the list agrees with the server exactly when the payload is the whole record |
| Manifest.UpdateNamesRightIff | frontend/js/app.js:776-794 | Every item stays under the name its columns say exactly when the payload and the merged record say the same one |
| Manifest.LoadedNames | frontend/js/app.js:685-690 | A loaded file is shown under its decrypted name if there is one that can be decrypted, else its original name, else nothing |
| Manifest.EventNames | frontend/js/app.js:776-794 | After an event its file is shown under the name the payload's columns say, and no other item changes |
| Manifest.EventKeepsNames | frontend/js/app.js:776-794 | An added event, a removal, and an update that carries both name columns keep every name right |
| Manifest.EventKeepsOrder | frontend/js/app.js:762-794 | A new file is listed first, a removal takes out the one item of its id, and nothing else moves |
| Manifest.RenameKeepsNames | backend/app/routes/files.py:1226-1235 | A rename in place as the server announces it keeps the list equal to the server's files and every name right |
| Manifest.PatchAgreesIff | frontend/js/app.js:791-794 | After an updated or moved event the list agrees with the server exactly when the old record spread with the payload is the new record |
| Manifest.MoveAgreesIff | backend/app/routes/files.py:1223-1232 | After a move as the server announces it the list agrees with the server exactly when the new folder has the name of the old one |
| Manifest.MovedFileKeepsOldFolder | backend/app/routes/files.py:406-420 | A file moved from X to Y is listed under the new folder's id and the old one's name |
| Manifest.LateEventIff | frontend/js/app.js:776-801 | When other events are handled while one awaits its name, the list agrees with the server exactly when the late change could as well have come last |
| Manifest.LateAddIff | frontend/js/app.js:773-790 | For an added event: exactly when the new file is by then still there and still as announced |
| Manifest.LatePatchIff | frontend/js/app.js:776-794 | For an updated or moved event: exactly when the file is by then gone or still has every column as announced |
| Manifest.BurstAgreesIff | frontend/js/files.js:177-199 | Of a burst of events only the last reaches the list; it then agrees with the server exactly when the last change alone leads where the whole burst did |
| Manifest.SwallowedAgreesIff | frontend/js/files.js:177-199 | Said of the files: exactly when the swallowed changes left all other files alone and the last change settles every column of its own file that they touched |
| Manifest.ScopedAgreesIff | frontend/js/app.js:787-794 | For the files of a folder: the list agrees with them after an event exactly when the change takes no file across the folder's border |
| ManifestCache.Cache.LoadSearchManifest | frontend/js/app.js:694-712 | Opening a load: the memory, the promise under way, or a new load with what the slot holds for this folder |
| ManifestCache.Cache.OnAnswer | frontend/js/app.js:712-735 | The answer: a full one refills the slot, 304 and failures fall back on the stored files |
| ManifestCache.Cache.OnDecrypted | frontend/js/app.js:736-740 | The end of a load fills the memory with its files in order, each under the name its columns say, and clears the promise |
| ManifestCache.Cache.ApplyManifestDelta | frontend/js/app.js:754-801 | An event changes the memory or drops everything, and clears the slot; its file gets the name the payload's columns say |
| ManifestCache.StepKeepsInv | frontend/js/app.js:694-801 | Every step of every load, event, failure, page reload and server change keeps what is stored true to what was sent |
| ManifestCache.StoredWasSentTogether | frontend/js/app.js:694-749 | In every reachable state, over any number of page reloads, the stored folder, tag and files were sent together by the server for that folder, and no folder's entry answers another's load |
| ManifestCache.CurrentIff | frontend/js/app.js:700-730 | A load shows the server's current files unless its stored tag is the current one for other files |
| ManifestCache.NotModifiedIsCurrent | frontend/js/app.js:700-730 | If tags determine content, then in every run of loads, failures, events, page reloads and server changes a load answered by 304 shows what a full answer would have |
| ManifestCache.ShownIdsAreCurrent | backend/app/routes/files.py:423-510 | With the tag the server computes, in every run a load still shows the right files in the right order |
| ManifestCache.RevisitedFiles | frontend/js/app.js:697-724 | A page loaded again shows the files it stored if the server's tag is still theirs, and otherwise the files the server has now |
| ManifestCache.ChangeIsMissedIff | backend/app/routes/files.py:423-510 | With the server's tag it misses a change exactly when ids and creation times stayed and another column did not |
| ManifestCache.ReplyFolderIff | frontend/js/app.js:694-698 | A caller gets the folder it asked for exactly when it does not join a load under way for another one |
| ManifestCache.FailureSticks | frontend/js/app.js:731-741 | A failed load stays in the slot, and every load after it fails, until exactly an invalidation, an event that drops everything, or a page reload |
| ManifestCache.FailureSticksOverRun | frontend/js/app.js:731-741 | As long as none of these comes, whatever else does, no run begins another load |
| ManifestCache.DroppingRefetches | frontend/js/app.js:744-799 | With nothing under way, an invalidation or an unknown action makes the next load fetch the files the server then has |
| ManifestCache.LoadedAgrees | frontend/js/app.js:654-692 | A freshly loaded list is the server's files, once each |
| ManifestCache.EventsKeepManifest | frontend/js/app.js:754-801 | For the manifest of all folders: whatever changes to its files follow, handled one event at a time, the list in memory stays the server's files and no earlier answer stays in the slot |
| ManifestCache.EventsKeepScoped | frontend/js/app.js:754-801 | The manifest of a folder stays the folder's files over any run of changes none of which takes a file across its border |
| ManifestCache.CrossingBreaksScoped | frontend/js/app.js:787-794 | Over any such run, the next change keeps it so exactly when it takes no file across either |
| ManifestCache.LoadThenEvents | frontend/js/app.js:694-801 | A global load followed by any events leaves exactly the server's files in memory, each under its right name if every update carries both name columns |
| ManifestCache.InvalidationLastsIff | frontend/js/app.js:737-749 | Without a new load an invalidated list stays gone exactly when no load under way is waiting for its answer, decrypting, or about to get a full answer or fall back on stored files |
| ManifestCache.EarlierAnswerComesBack | frontend/js/app.js:713-724 | An answer that was on its way at the invalidation refills the slot with what was sent before |
| ManifestCache.FirstFailureSticks | frontend/js/app.js:731-741 | From a fresh page one failed request leads to the state in which every load fails |
| ManifestCache.SecondFolderIsFirst | frontend/js/app.js:694-698 | From a fresh page a load of a second folder joins the load of the first |
| ManifestCache.NextUserSees | frontend/js/auth.js:2335-2367 | With another user's files on the server a load shows the list in memory exactly when it is of the folder asked for, and after a failed request of its own the stored files exactly when they are |
| ManifestCache.NextUserProtected | frontend/js/app.js:712-730 | When the next user's request succeeds, the files shown have the tag of that user's own |
| ManifestCache.NextUserSeesFirst | frontend/js/auth.js:2335-2367 | A run from a fresh page in which the next user is shown the first user's list |
| StepUpCache.TokenCache.GetCached | frontend/js/auth.js:2444-2452 | A token still in time, or none; an expired entry is deleted |
| StepUpCache.TokenCache.Cache | frontend/js/auth.js:2454-2463 | A token is kept for nine tenths of a positive window; a zero window is never cached |
| StepUpCache.RememberKeepsBacked | frontend/js/auth.js:2454-2463 | The cache stays true to the issues: every kept token is the last one issued for its key with a positive window and expires when nine tenths of that have passed, and a last token that is not kept is out of time |
| StepUpCache.FoundIff | frontend/js/auth.js:2444-2463 | A token is found exactly when it is the last one issued for the key asked for with a positive window and less than nine tenths of that window have passed |
| ApiClient.Client.Fetch | frontend/js/api.js:46-66 | The first sending of a request |
| ApiClient.Client.RefreshTokens | frontend/js/api.js:132-148 | Joins the refresh under way or starts one |
| ApiClient.Client.RefreshSettled | frontend/js/api.js:135-146 | Whichever refresh settles, none is outstanding afterwards and the slot is free, and no other refresh's outcome changes |
| ApiClient.Client.Respond | frontend/js/api.js:14-95 | What a first response leads to, a refresh, a step-up, an error or the result; a second response is the result, whatever it is |
| ApiClient.Client.Resumed | frontend/js/api.js:71-86 | A call that waited is sent again or ends as expired |
| ApiClient.Client.Challenge | frontend/js/auth.js:2474-2486 | A cached token, or a prompt in the place of any other |
| ApiClient.Client.Verified | frontend/js/auth.js:2620-2627 | A verified password caches the token, closes the prompt and settles the call |
| ApiClient.Client.LockedOut | frontend/js/auth.js:2607-2613 | A locked session closes the prompt and fails the call |
| ApiClient.Client.Cancel | frontend/js/auth.js:2536-2539 | Cancelling closes the prompt and fails the call |
| ApiClient.StepKeepsInv | frontend/js/api.js:14-148 | Every step of every interleaving keeps the invariant of all calls, the refresh slot, the prompt and the token cache |
| ApiClient.OneRefreshOutstanding | frontend/js/api.js:132-148 | However calls interleave, at most one refresh is outstanding, and the slot is empty exactly when none is |
| ApiClient.ResentOnceWithReason | frontend/js/api.js:26-36 | A request is sent a second time at most, after the refresh it joined succeeded or with a token issued for the action it was refused for; a cached token was then within nine tenths of its window |
| ApiClient.OutcomeIff | frontend/js/api.js:14-95 | In every run how a finished call ended is told by its sendings, its path and their responses: sent twice, it ends with the second response; sent once, with its response unless that is a 401 to be refreshed or a 403, whose denial then decides; and a sending without a response is a network error |
| ApiClient.ResentAfter | frontend/js/api.js:26-82 | In every run a call sent again after a refresh had a 401 on an eligible path as its first response, and one sent again after a step-up a 403 that asked for it |
| ApiClient.RefreshEligibleIff | frontend/js/api.js:66-68 | A 401 is refreshed on every path in which none of the five parts of an address occurs |
| ApiClient.FileListIsEligible | frontend/js/api.js:66-68 | The file list's path is one of them |
| ApiClient.FirstSending | frontend/js/api.js:46-52 | A first sending carries the CSRF cookie of its moment exactly when the method writes |
| ApiClient.PromptedIff | frontend/js/auth.js:2444-2486 | In every run a call refused for want of step-up goes on without a prompt exactly when the last token issued for its action with a positive window, by whatever call, is not empty and within nine tenths of that window |
| ApiClient.PromptLeavesIff | frontend/js/auth.js:2536-2627 | A prompting call goes on exactly with the token of a verified password, fails exactly by a lock-out or a cancel, and otherwise goes on prompting |
| ApiClient.JoinsOutstandingRefresh | frontend/js/api.js:68-71 | A call waits exactly after a 401 to its first sending on an eligible path, and then on a refresh outstanding at that moment |
| ApiClient.WaitersAgree | frontend/js/api.js:71-86 | All calls that waited on one refresh see one outcome |
| ApiClient.ResentWithCurrentCookieIff | frontend/js/api.js:33-34 | The second sending carries the current CSRF cookie unless the first went out with an empty one |
| ApiClient.RunsAreBounded | frontend/js/api.js:14-148 | The client's own steps decrease a measure: a run ends unless something new is started or a password is tried again |
| ApiClient.QuietMeansFinished | frontend/js/api.js:14-148 | When only the user can move, every call is done, shows its prompt, or has lost it |
| ApiClient.LostIff | frontend/js/auth.js:2484-2486 | A call loses its prompt exactly when another prompt takes its place with no check under way, or a check fails after that; it then never ends |
| ApiClient.TwoPromptsLoseOne | frontend/js/auth.js:2484-2486 | Two refused requests on a fresh client lead to a lost prompt in six steps |
| ApiClient.EmptyCookieIsSentAgain | frontend/js/api.js:72-75 | A run from a fresh client in which the second sending carries another cookie than the current one |
| Base64Url.Base64urlToBuffer | frontend/js/auth.js:125-132 | The decoder that pads in a loop agrees with the closed-form one on every string, failures included |
| Base64Url.RoundTrip | frontend/js/auth.js:2130-2163 | Decoding the encoding of any bytes gives them back |
| Base64Url.EncodingIsUrlSafe | frontend/js/auth.js:2160-2163 | The encoding has ceil(4n/3) characters of the URL-safe alphabet, none of them '+', '/' or '=' |
| Base64Url.EncodingIsInjective | frontend/js/auth.js:2160-2163 | Different bytes have different encodings |
| Base64Url.EncodesBits | frontend/js/auth.js:2160-2163 | Each character of the code stands in the alphabet of RFC 4648, section 5, at the place its six bits of the bytes say |
| Base64Url.DecodesUrlTextIff | frontend/js/auth.js:2130-2134 | Over the alphabet every length but 4k+1 decodes, to the whole bytes of its bits |
| Base64Url.CanonicalIff | frontend/js/auth.js:2130-2163 | A text is the encoding of what it decodes to exactly when the bits dropped at its end are zero |
| CanonicalJson.EscapeRoundTrip | backend/app/sensitive_config.py:108 | Every character's ASCII escape, surrogate pairs included, can be read back whatever follows it |
| CanonicalJson.DumpsIsPrefixFree | backend/app/sensitive_config.py:108 | What a JSON text says is settled by the text, whatever follows it |
| CanonicalJson.DumpsIsInjective | backend/app/sensitive_config.py:108 | Two values have one text exactly when they are the same |
| CanonicalJson.ArrayText | backend/app/sensitive_config.py:108 | An array is its values between brackets with commas and no white space between them |
| CanonicalJson.ObjectText | backend/app/sensitive_config.py:108 | An object is its fields between braces with commas between them, each a name in quotes, a colon and a value |
| DottedKeys.LongestWildcardWins | backend/app/sensitive_config.py:372-418 | An exact key wins; otherwise the entry P.* with the longest P such that the key starts with P and a dot; nothing is found only if there is none |
| DottedKeys.JoinedIsPrefix | backend/app/sensitive_config.py:389-391 | The first i segments of a split key, joined, are its prefix up to its i-th dot |
| DottedKeys.NextShorter | backend/app/sensitive_config.py:389-394 | Going from i segments to i - 1 skips no wildcard |
| SensitiveConfig.CanonicalIff | backend/app/sensitive_config.py:86-108 | The hashed text is the same exactly for the same rows, whatever order they come in |
| SensitiveConfig.OneSortedList | backend/app/sensitive_config.py:92-103 | Key-unique rows can be listed in key order in one way only |
| SensitiveConfig.PayloadIsSorted | backend/app/sensitive_config.py:104-108 | Every object of the hashed payload lists its fields by name |
| SensitiveConfig.FunctionText | backend/app/sensitive_config.py:86-108 | A row of the function table stands in the hashed text with its three fields under their names |
| SensitiveConfig.TableIff | backend/app/sensitive_config.py:347-355 | Key-unique rows give one lookup table in any order, and different rows different tables |
| SensitiveConfig.SensitiveConfig.InsertSeeds | backend/app/sensitive_config.py:201-226 | Seeds are inserted row by row; it fails exactly on a repeated key |
| SensitiveConfig.SensitiveConfig.Bootstrap | backend/app/sensitive_config.py:116-270 | A first start seeds and seals the tables or leaves nothing behind, with the exact condition |
| SensitiveConfig.SensitiveConfig.Load | backend/app/sensitive_config.py:280-369 | A load accepts exactly what the digest in the file allows, and the module state changes only on acceptance |
| SensitiveConfig.SensitiveConfig.IsSensitive | backend/app/sensitive_config.py:372-396 | The exact entry's flag, else that of the longest wildcard that matches, else false; an error before a load |
| SensitiveConfig.SensitiveConfig.GetChallengeType | backend/app/sensitive_config.py:399-418 | The exact entry's challenge, else that of the longest wildcard that matches, else "password"; an error before a load |
| SensitiveConfig.SeedsAreDistinct | backend/app/sensitive_config.py:53-78 | The shipped seeds have distinct keys |
| SensitiveConfig.AcceptsIff | backend/app/sensitive_config.py:323-345 | With a collision-free digest a load accepts exactly the sealed rows, in any order; any other content is refused as tampering |
| SensitiveConfig.AnswersAsSeeded | backend/app/sensitive_config.py:347-418 | After any accepted load every key is answered as the seeds answer it |
| SensitiveConfig.SeedAnswers | backend/app/sensitive_config.py:53-78 | After any accepted load a key is sensitive exactly when a sensitive seed is the key or a wildcard for it and the key is not one of the other two seeds; every challenge is the password |
| SensitiveConfig.SeedsAnswerThemselves | backend/app/sensitive_config.py:53-78 | So every sensitive seed is sensitive, the other two are not, and every key under policy.sharing. is |
| EventFilter.ClickCovers | frontend/js/admin.js:5398-5425 | What a click does to the read-out: an event's own box turns its coverage over, its group's box sets it for the whole group, and no other click touches it |
| EventFilter.FilterGrid.ClickEvent | frontend/js/admin.js:5398-5404 | A click on an event turns it over; the group box is then checked exactly when all events are, and marked exactly when some but not all are |
| EventFilter.ClickListsStandalone | frontend/js/admin.js:5432-5434 | A standalone entry is listed according to its own box alone, whatever else is clicked |
| EventFilter.FilterGrid.ReadOut | frontend/js/admin.js:5577-5593 | The read-out loop, group prefix in the place of its events |
| EventFilter.RunKeepsInv | frontend/js/admin.js:5398-5411 | After any clicks a checked group box has all its events checked, and the mark shows exactly on an unchecked one with some |
| EventFilter.EntryReadIff | frontend/js/admin.js:5577-5593 | An entry is read out exactly when its box is ticked on its own account |
| EventFilter.ReadOutCoversTicked | frontend/js/admin.js:5577-5593 | With group prefixes expanded the read-out covers exactly the ticked events |
| EventFilter.LastTickCompresses | frontend/js/admin.js:5388-5394 | Ticking the last event of a group puts the group's entry in the place of all its events in the read-out |
| EventFilter.ReadInOrder | frontend/js/admin.js:5577-5593 | The read-out lists its entries in the order of the catalogue, and none twice |
| EventFilter.BuildOfRead | frontend/js/admin.js:5365-5448 | Boxes built from a read-out are the boxes that were read, marks included |
| EventFilter.ReopenChangesNothing | frontend/js/admin.js:5356-5593 | From any saved list, after any clicks, saving and opening again changes no box and no later read-out |
| EventFilter.SavedAgainIff | frontend/js/admin.js:5356-5593 | Opening a list and saving it keeps exactly its catalogue entries that are not under a listed group |
| EventFilter.DeliveredIffTicked | backend/app/services/notification_emitter.py:182-201 | The server delivers an event exactly when its box is ticked, or when nothing is ticked and it is operational |
| EventFilter.NamesIff | backend/app/services/notification_emitter.py:182-201 | A filter names an event exactly when the event is the filter, or the filter with a dot and more after it |
| EventFilter.EmptyIff | frontend/js/admin.js:5577-5593 | The read-out is empty exactly when no box is ticked |
| EventCatalogue.OrderlyIsWellNamed | frontend/js/admin.js:5449-5559 | Groups of names under prefixes that go different ways have no entry twice, and an entry names only itself or the events of its own group |
| EventCatalogue.ShippedCatalogueIsWellNamed | frontend/js/admin.js:5449-5559 | The shipped catalogue, 57 events in 7 groups and one standalone entry, is of that kind |
| AdminLayout.Arrange | frontend/js/admin.js:153-155 | The loops that filter a saved order and push what is missing give the merged order |
| AdminLayout.PermutationIff | frontend/js/admin.js:153-164 | Merging gives every default exactly once if and only if no kept id is saved twice and none is merely an inherited name |
| AdminLayout.ArrangedInOrder | frontend/js/admin.js:153-164 | Saved ids come first in saved order, missing ones after in default order |
| AdminLayout.AppliesIff | frontend/js/admin.js:146-168 | The page fails exactly on a layout with a merely inherited name among its tabs or among the sections of a tab |
| AdminLayout.ConstructorTabFails | frontend/js/admin.js:146-168 | With the shipped tabs, a layout that lists the tab constructor makes the page fail |
| AdminLayout.AppliedIsPermutation | frontend/js/admin.js:146-168 | A layout that names nothing twice and nothing merely inherited gives every tab once, each with a permutation of its own sections |
| AdminLayout.SectionShownIff | frontend/js/admin.js:174-188 | With any admissible layout a section is on the page exactly when it is one of its tab's own and asks for no flag or for one the user has set to 1 |
| AdminLayout.NothingWithoutFlags | frontend/js/admin.js:174-188 | A user without any flag sees no section of the shipped page |
| AdminLayout.SaveThenReload | frontend/js/admin.js:296-302 | Any page a user can have arranged comes back just so after saving and loading with the same flags |
| AdminLayout.RearrangementSurvives | frontend/js/admin.js:146-302 | For any flags and any such layout: load, rearrange what is shown, save, load again; the page is exactly as it was left |
| AdminLayout.FirstRearrangementSurvives | frontend/js/admin.js:146-302 | The same for a user without a saved layout |
| AdminLayout.ShippedTabsAreWellFormed | frontend/js/admin.js:26-91 | The shipped tabs and sections have distinct ids |
| LastUsedBuffer.Buffer.BeginFlush | backend/app/auth/api_key.py:53-56 | The dictionary is swapped for a fresh one unless it is empty, and no key's last use is lost from view |
| LastUsedBuffer.Buffer.WriteSome | backend/app/auth/api_key.py:59-63 | The first entries are written one by one, in the order their keys were first used; a row that is gone stays gone |
| LastUsedBuffer.WrittenIs | backend/app/auth/api_key.py:59-63 | The updates of a flush, row by row |
| LastUsedBuffer.FlushAtomicIff | backend/app/auth/api_key.py:57-66 | A flush that fails part of the way leaves the old table or the fully flushed one exactly when all rows written, or all rows not written, held their times already |
| LastUsedBuffer.Buffer.Flush | backend/app/auth/api_key.py:53-66 | One round of the loop: everything pending is written, or as much as comes before the failure, and the rest is forgotten |
| LastUsedBuffer.BufferedIsImmediate | backend/app/auth/api_key.py:41-66 | In one process, over every interleaving without a failed flush, pending over unwritten over stored times are those of an immediate write |
| LastUsedBuffer.BehindIff | backend/app/auth/api_key.py:41-66 | With failed flushes a key is behind exactly when its latest use was dropped unwritten over another time; it then shows an earlier use, and the next use repairs it |
| LastUsedBuffer.BreakLosesIff | backend/app/auth/api_key.py:65-66 | A failure puts a key behind exactly when the flush had still to write it over another time and nobody used it since |
| LastUsedBuffer.StoredTimesNeverMoveBack | backend/app/auth/api_key.py:48-66 | In one process no step moves a stored time back, even when flushes fail |
| LastUsedBuffer.StoredTimeOverRun | backend/app/auth/api_key.py:48-66 | Nor does any run of one process |
| LastUsedWorkers.MovesBackIff | backend/app/auth/api_key.py:41-66 | In every run of any number of processes a step moves a stored time back exactly when it updates a row that another process was the last to write, with a later time |
| LastUsedWorkers.OneWorkerNeverMovesBack | backend/app/auth/api_key.py:41-66 | With one process no step of any run does |
| LastUsedWorkers.TwoWorkersMoveBack | backend/app/auth/api_key.py:41-66 | With two processes a run of seven steps does |
| Slugs.ParseIff | backend/app/main.py:418 | The pattern accepts exactly the joins of three words, with or without a line break after them, and in one way |
| Slugs.WordLengths | backend/app/main.py:418 | A capital with n small letters is a word exactly for n from 2 to 11 |
| Slugs.JoinIsInjective | backend/app/wordlist.py:41-43 | Different triples of shaped words never give one slug |
| Slugs.AllRecognisedIff | backend/app/main.py:536 | Every slug of a list is recognised by the redirect if and only if every word has the shape |
| Slugs.Keyspace | backend/app/wordlist.py:41-43 | The slugs of a list of shaped words number the cube of its length if and only if no word is listed twice |
| Slugs.LoadWords | backend/app/wordlist.py:25-35 | Blank lines and comments are skipped; fewer than ten words are an error |
| Slugs.WordsAre | backend/app/wordlist.py:25-35 | The words are those of the lines that are neither blank nor comments, all of them, in order and stripped |
| Slugs.ShortLinks.InsertShortLink | backend/app/wordlist.py:46-85 | The first generated slug that is free is stored, both keys stay unique, and it gives up exactly when every attempt collides, also on the id |
| Slugs.ShortLinks.InsertInviteLink | backend/app/wordlist.py:88-117 | The same for invite links |
| Slugs.LinkOpensIff | backend/app/main.py:529-566 | A stored, live share link leads to its share exactly when its slug has the pattern and no live invite carries the same slug |
| Slugs.RedirectIff | backend/app/main.py:529-566 | Where a slug leads, in terms of the stored rows: to the live invite that carries it, else to the live, active share with its key, and to the application's page exactly when it has not the pattern or there is neither |
| Slugs.InviteHidesLink | backend/app/main.py:536-566 | For every such slug: one share link and one invite that may be stored together, of which the redirect sees the invite only |
| Slugs.LineBreakLeadsNowhere | backend/app/main.py:536-566 | As every stored slug is a join of shaped words, a slug with a line break after it is accepted by the pattern and leads to the application's page |

## Left out

- Cryptography and foreign services: OPAQUE, WebAuthn, WebCrypto, SHA-256, asyncpg, Redis. A digest is an injective function, decryption a function, the server an abstract map.
- The user interface around the modelled logic: DOM building, modals, routing, drag and drop, toasts. Boxes are booleans, tabs and sections ids, a prompt the name of the call that shows it.
- The search box's filter over the manifest, which only reads it.
- In the permission migration: `admin_scope_grants` rows that refer to a flag, descriptions and categories of flag definitions.
- The other blocks of the start-up migration and the partitioning of audit tables, which are idempotent DDL of the engine.
- The password check behind a step-up prompt: its first request goes through the same client and is one more call; what it computes is left out, and its end is a step of the model.
- The body of a 403 is read together with its status; the client does nothing with shared state in between.
- The retry loops of uploads, which ask for a refresh themselves, appear only as `AskRefresh`.
- `String.fromCodePoint` is called with all bytes as arguments, which limits the length an engine accepts; the encoder is modelled for any length.
- The sealed configuration's schema appearing between the check and the creation (another process starting at the same moment), its triggers and grants, and descriptions of seeds.
- `get_opaque_server_setup`, which decodes one stored value.
- Exact text of error messages and log lines.
- PgParams.MeaningKeptIff: quoted text is not told apart: a `?` in a string literal, a comment or a dollar-quoted body counts as a placeholder in the code and in both readings.
- Slugs.ShortLinks.InsertShortLink: the generated slugs are a parameter, one for each attempt; their randomness is not modelled, nor are the time of creation and the foreign key of the creator, who is logged in.
- Slugs.ShortLinks.InsertInviteLink: the generated slugs are a parameter, one for each attempt; their randomness is not modelled, nor is the time of creation.
