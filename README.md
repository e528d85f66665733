# Document storage: a verified model of the folder-replace transaction

This project models the document-storage Lambda of *just-my-links*. The Lambda
handles `PUT /document/<document_url>`. It parses a multipart request, picks
the document's entrypoint file and writes every part under the folder
`document-storage/<sha256-hex of the URL>/`, with a `.metadata.json` manifest
written last. The object store (S3) cannot update several keys atomically.
The Lambda therefore wraps the writes in `backup_in_case_of_error`, which makes
them behave like one atomic replace of the folder:

- a probe lists the folder;
- every object under `<folder>/` is copied to `<folder>.bak/`;
- the folder is cleared;
- the writes run;
- on failure, the partial writes are deleted and the backup is copied back;
- whenever a backup was made, it is deleted on the way out.

The model has seven modules, one file each:

- `Strings` (`strings.dfy`): the Python string and bytes operations the code
  relies on. These are `in` as a substring test, `startswith`, `endswith`,
  `str.replace(old, new, 1)` and `bytes.lower()`.
- `ObjectStore` (`object_store.dfy`): the bucket as a class `Store`. Its field
  `objects` maps keys to bodies and content types. It has `List`, `Copy`,
  `Delete` and `Put`. Each call may raise: a fault schedule (the set of call
  numbers that raise) decides which ones do. A call that raises changes
  nothing. A ghost log records every call issued.
- `FolderTransaction` (`folder_transaction.dfy`): `backup_in_case_of_error`
  as imperative methods over a `Store`, one per phase, with the copy, delete
  and put loops and their invariants. Pure functions describe what each
  phase leaves behind: `BackedUp`, `Pending` and `Restored`. Lemmas state
  what the transaction guarantees.
- `OrderedParts` (`parts.dfy`): the Python `dict` of parts, with insertion
  order kept and re-assignment keeping a key's place.
- `MultipartRequest` (`multipart.dfy`): the checks of
  `_get_multipart_request_body` and its part-collecting loop.
- `Entrypoint` (`entrypoint.dfy`): the entrypoint rule and the in-place
  rename of the generic `document` part.
- `DocumentStorage` (`document_storage.dfy`): the content types, the write
  action, the manifest and `store_document` end to end, including the 500
  answer of `lambda_handler`.

Library calls are parameters of the model. Three of them can fail, and they
return `None` where the real call raises: base64 decoding,
`parse_options_header` and the multipart parser. The other three are total
functions: UTF-8 encoding, SHA-256 and `json.dumps`. In particular the UTF-8
encode of the body at `app.py:69`, which sits outside any `try`, never
raises in the model. The timestamp is an input string.

The store's faults are part of the model. A `Store` carries a fault
schedule: the set of call numbers that raise. The contracts state which
outcome each schedule produces (`FolderTransaction.ScheduledOutcome`), so a
path such as "the restore raised" is reachable exactly for the schedules
that make one of the restore's calls raise.

### Where the code and its documented behaviour differ

The model follows the code.

- Parsing demands a part named exactly `document`
  (`document-storage-service/src/app.py:93-98`). A request that sends only
  `document.html` or `document.txt` is rejected with "Missing required
  'document' part". The "No document.html, document.txt, or document part
  found" answer (`app.py:152-157`) can never be produced
  (`Entrypoint.ParsedRequestHasEntrypoint`).
- When `document.html` or `document.txt` is sent together with `document`,
  the `document` part is kept and stored as the file `document`, with type
  `text/plain` (`Entrypoint.NoRenameKeepsParts`).
- A missing boundary raises "No boundary found in Content-Type header". The
  surrounding `except Exception` catches that error, and the client sees
  "Invalid Content-Type header" (`app.py:72-79`).
- The `multipart/form-data` check is a case-sensitive substring test on the
  raw header (`app.py:56`).
- The backup counts as created only after every copy succeeded
  (`app.py:329`). If a copy raises, the copies made so far stay under
  `<folder>.bak/`: nothing restores them and nothing deletes them
  (`FolderTransaction.BackupInCaseOfError`, the `Raised(Backup)` case).
- Objects left under `<folder>.bak/` by an earlier failed clean-up get copied
  into the folder by a later rollback. Such a rollback restores the old
  folder plus those objects (`FolderTransaction.RollbackRestoresFolder`).
  The store comes back equal to its old state only when no such objects
  existed.
- Writes to a folder that did not exist are not protected. No backup is
  made (`app.py:313`), so the `except` branch restores nothing, and the puts
  that succeeded before a failing one stay in the store
  (`FolderTransaction.BackupInCaseOfError`, the empty-folder case).
- A restore that raises still has its backup deleted by the `finally`
  branch (`app.py:382-394`). Once the folder has been cleared, the old
  objects can then be gone from both the folder and the backup. One such
  run: the folder holds one object, it is backed up and cleared, the write
  action's put raises, the restore's first listing raises too, and the
  clean-up succeeds (`FolderTransaction.RestoreFailureLosesFolder`).
- The manifest's `timestamp` is a JSON string
  (`{"$date": {"$numberLong": "..."}}`), not an integer (`app.py:184`).
- A part named `.metadata.json` is listed in `files`, but the manifest
  overwrites it (`DocumentStorage.CommittedFolderContents`).

## Model

| member | source | states |
|---|---|---|
| Strings.ContainsIff | document-storage-service/src/app.py:56 | Python's left-to-right substring scan holds exactly when the pattern occurs at some offset |
| Strings.FindFirst | document-storage-service/src/app.py:321 | the offset `str.replace(..., 1)` rewrites is the first occurrence of the pattern, and `None` means it occurs nowhere |
| Strings.ReplaceFirst | document-storage-service/src/app.py:321 | `str.replace(old, new, 1)`: with no occurrence the key comes back unchanged; otherwise exactly the first occurrence is rewritten and everything before and after it is kept |
| Strings.ReplaceFirstAtPrefix | document-storage-service/src/app.py:321 | for a key that starts with the pattern, the one-shot replace rewrites exactly that prefix |
| Strings.ReplaceFirstRoundTrip | document-storage-service/src/app.py:316-373 | the backup rewrite `<folder>/`→`<folder>.bak/` followed by the restore rewrite gives back the original key |
| Strings.AsciiLower | document-storage-service/src/app.py:144 | `bytes.lower()` keeps the length and leaves no byte in A-Z; a byte changes exactly when it is in A-Z, and then becomes its lower-case letter |
| Strings.AsciiLowerIdempotent | document-storage-service/src/app.py:144 | lowering an already lowered buffer changes nothing |
| ObjectStore.Rebase | document-storage-service/src/app.py:318-327 | the objects under one prefix re-keyed under another: every source object appears at its rewritten key, and every result key comes from exactly one source key |
| ObjectStore.Store.List | document-storage-service/src/app.py:306-311 | a listing that succeeds returns every key under the prefix exactly once and changes no object; a failed one returns nothing |
| ObjectStore.Store.Copy | document-storage-service/src/app.py:323-327 | copy_object writes the source's object at the target key; it raises (and changes nothing) on a fault or a missing source |
| ObjectStore.Store.Delete | document-storage-service/src/app.py:339-342 | delete_objects removes exactly the listed keys, or nothing when it raises |
| ObjectStore.Store.Put | document-storage-service/src/app.py:171-176 | put_object stores the body with its content type at the key, or changes nothing when it raises |
| ObjectStore.ApplyPutsKeys | document-storage-service/src/app.py:161-193 | after a sequence of puts the store holds its old keys plus exactly the keys put |
| ObjectStore.ApplyPutsLastWins | document-storage-service/src/app.py:161-193 | the last put to a key decides what that key holds |
| FolderTransaction.LiveAndBackupApart | document-storage-service/src/app.py:300 | neither `<folder>/` nor `<folder>.bak/` is a prefix of the other |
| FolderTransaction.BackupKeyNotLive | document-storage-service/src/app.py:336-342 | no key under the backup prefix lies under the folder prefix, so clearing the folder never removes backup objects |
| FolderTransaction.CopyEach | document-storage-service/src/app.py:318-327 | the copy loop (also the restore loop at 365-374): all copies made, or it stops at the first failure with only some copies made and nothing removed; it issues no delete or put (only list and copy calls) |
| FolderTransaction.DeleteUnder | document-storage-service/src/app.py:335-342 | one enumerate-and-delete pass leaves nothing under the prefix, or leaves the store unchanged when a call raises |
| FolderTransaction.WriteAll | document-storage-service/src/app.py:161-193 | the write action's puts run in order until the first that raises; the store holds exactly the puts that succeeded |
| FolderTransaction.CopyRegion | document-storage-service/src/app.py:316-329 | a fresh listing and one copy per listed object (also the restore loop at 365-374): when it completes every object under the source prefix has a copy under the target prefix; when not, only some copies exist and nothing was removed; it runs exactly until the first call the fault schedule makes raise |
| FolderTransaction.BackupAndClear | document-storage-service/src/app.py:304-342 | probe, backup and clear: a missing folder gets no copy and no delete; `backup_created` holds exactly when the folder existed and every copy succeeded; a backup failure only adds some backup copies and issues no delete or put |
| FolderTransaction.BackupThenClear | document-storage-service/src/app.py:313-342 | for a folder that exists: the backup, then the clear; a failed backup leaves the folder and everything outside the backup prefix as it was; the failing call decides whether `Backup` or `Clear` raised |
| FolderTransaction.FailedBackupKeepsFolder | document-storage-service/src/app.py:316-329 | a backup that stopped early changed nothing but the backup prefix |
| FolderTransaction.FolderOfBackedUp | document-storage-service/src/app.py:316-329 | making the backup copies leaves the folder itself untouched |
| FolderTransaction.PrepareAndWrite | document-storage-service/src/app.py:304-345 | the `try` up to and including `yield`: the outcome is exactly the one the fault schedule dictates, and the store holds the backup-and-writes state for it |
| FolderTransaction.ProbeRaisesOnFirstCall | document-storage-service/src/app.py:306-311 | the transaction fails in the probe exactly when its first store call raises |
| FolderTransaction.PrepareRaised | document-storage-service/src/app.py:304-342 | when the probe, backup or clear raises, that phase is the outcome and no later call runs |
| FolderTransaction.WritesDecide | document-storage-service/src/app.py:345 | after a preparation that succeeded, the write action decides: commit when every put succeeds, otherwise `Write(i)` for the first put that raised |
| FolderTransaction.NoFaultCommits | document-storage-service/src/app.py:304-345 | when no store call raises, the transaction commits |
| FolderTransaction.RestoreFromBackup | document-storage-service/src/app.py:351-378 | a restore that completes empties the folder and copies the whole backup into it; a failed one touches nothing outside the folder; the backup region never changes; it completes exactly when none of its calls raises, and a first call that raises changes nothing |
| FolderTransaction.RestoredKeepsBackup | document-storage-service/src/app.py:364-374 | the restore writes only under the folder and leaves the backup region as it was |
| FolderTransaction.RestoreAndCleanUp | document-storage-service/src/app.py:347-397 | the `except` branch runs only after a failure; when the `finally` branch succeeds nothing is left under the backup prefix; a failure in either is swallowed; the restore succeeds exactly when none of its calls raises, and the clean-up runs after it whatever happened |
| FolderTransaction.BackupInCaseOfError | document-storage-service/src/app.py:297-397 | the whole context manager: the flags on every exit path; the store exactly on probe failure, empty folder with partial writes, commit and completed restore (with a completed or failed clean-up), and bounded after a partial backup (folder and everything outside the backup prefix unchanged, only some backup copies added) or a failed restore (outside the folder and its backup as the failure left it, the backup kept or removed as the clean-up went, the folder either as the failure left it or holding only backup copies); the outcome is the one the fault schedule dictates, no fault means commit and backup removal, and no fault after the failure means a full rollback |
| FolderTransaction.QuietRollback | document-storage-service/src/app.py:347-394 | with no store call raising after the failure, the restore and the clean-up both succeed |
| FolderTransaction.PendingOutsideFolder | document-storage-service/src/app.py:336-345 | outside the folder, the store after the clear and the writes equals the finished backup |
| FolderTransaction.RebaseRoundTrip | document-storage-service/src/app.py:316-373 | copying the backup copies back returns exactly the original folder objects |
| FolderTransaction.RollbackRestoresFolder | document-storage-service/src/app.py:350-376 | after a failure in clear or write, a completed restore gives the folder back its old objects (plus earlier backup debris); with no such debris, removing the backup gives back exactly the old store |
| FolderTransaction.CommitReplacesFolder | document-storage-service/src/app.py:332-345 | a committed transaction leaves exactly the written objects in the folder and leaves every key outside the folder and its backup unchanged |
| FolderTransaction.CommitWithoutStaleBackup | document-storage-service/src/app.py:382-394 | with no earlier backup debris, a commit followed by the clean-up leaves the old store with only the folder replaced by the writes |
| FolderTransaction.RestoreFailureLosesFolder | document-storage-service/src/app.py:347-394 | a concrete run: a failed write, a restore whose first call raises and a successful clean-up leave nothing of the old folder in the folder or in its backup |
| OrderedParts.Set | document-storage-service/src/app.py:92 | dict assignment keeps the dictionary well formed: a new key goes to the end, an existing one keeps its place |
| OrderedParts.Remove | document-storage-service/src/app.py:147 | `del` removes the key and closes the gap, keeping the other keys' order |
| MultipartRequest.MessagesDistinct | document-storage-service/src/app.py:58 | each validation error has its own message (also lines 67, 79, 98, 111) |
| MultipartRequest.Accepted | document-storage-service/src/app.py:56-98 | an accepted request was multipart, had a decodable body and a boundary |
| MultipartRequest.Rejection | document-storage-service/src/app.py:56-111 | the error of a rejected request is the first check that fails, in the handler's order: `NotMultipart` exactly when the content-type check fails, `BadBase64` exactly when that passes and the body does not decode, `BadContentType` exactly when both pass and no boundary is found, `BadMultipart` exactly when those pass and the parser fails, `MissingDocument` exactly when the parser succeeded; and every earlier check passed |
| MultipartRequest.CollectParts | document-storage-service/src/app.py:87-94 | the dictionary holds exactly the named parts, each once, in order of first appearance, each with the bytes of the last part of that name; `document_found` holds exactly when a part is named `document` |
| MultipartRequest.ParseRequest | document-storage-service/src/app.py:52-111 | the request is accepted exactly when every check passes and a `document` part exists; otherwise it fails with the first failing check's error; an accepted request yields the collected parts |
| Entrypoint.ResolveEntrypoint | document-storage-service/src/app.py:134-157 | the in-place rename block yields the entrypoint and dictionary of the priority rule |
| Entrypoint.SetThenRemove | document-storage-service/src/app.py:146-151 | storing under the new name and then deleting `document` equals deleting first and appending after |
| Entrypoint.EntrypointPriority | document-storage-service/src/app.py:135-151 | `document.html` wins over `document.txt`, which wins over the generic part; the generic part becomes `document.html` exactly when it looks like HTML; no entrypoint only when none of the three names is present |
| Entrypoint.ParsedRequestHasEntrypoint | document-storage-service/src/app.py:152-157 | a request that passed parsing always has an entrypoint |
| Entrypoint.EntrypointIsStored | document-storage-service/src/app.py:135-151 | the entrypoint is one of the parts that will be stored |
| Entrypoint.GenericPartRenamed | document-storage-service/src/app.py:140-151 | the generic part's bytes move to the entrypoint name at the end of the dictionary, `document` disappears, and every other part is unchanged and keeps its order |
| Entrypoint.NoRenameKeepsParts | document-storage-service/src/app.py:136-139 | with an explicit entrypoint part, the dictionary is left as parsed, `document` included |
| Entrypoint.LooksLikeHtmlIgnoresCase | document-storage-service/src/app.py:144 | the HTML heuristic gives the same answer on the content and on its lower-cased form |
| Entrypoint.LooksLikeHtmlIff | document-storage-service/src/app.py:144 | the heuristic holds exactly when `<html` or `<body` occurs at some offset of the lowered bytes |
| Entrypoint.UpperCaseMarkupIsHtml | document-storage-service/src/app.py:144 | upper-case `<BODY>` markup is classified as HTML |
| Entrypoint.PlainWordsAreText | document-storage-service/src/app.py:144 | the plain word `hello` is classified as text |
| Entrypoint.LooksLikeHtml | document-storage-service/src/app.py:144 | HTML is only recognised in content at least as long as `<html` or `<body`; the meaning of the heuristic is stated by `Entrypoint.LooksLikeHtmlIff` |
| DocumentStorage.ContentTypeFor | document-storage-service/src/app.py:164-169 | names ending in `.html` are stored as `text/html`, all other names as `text/plain` |
| DocumentStorage.EntrypointContentTypes | document-storage-service/src/app.py:164-169 | `document.html` is stored as HTML; `document.txt` and `document` as plain text |
| DocumentStorage.FileWrites | document-storage-service/src/app.py:161-176 | one put per part, in the dictionary order, each keyed `<folder>/<name>` with the part's bytes, and typed `text/html` exactly when its name ends in `.html` |
| DocumentStorage.WriteAction | document-storage-service/src/app.py:159-193 | the file puts followed by exactly one more put: the manifest, last, as `application/json` |
| DocumentStorage.ManifestOf | document-storage-service/src/app.py:180-185 | the manifest keeps the URL and timestamp; its entrypoint is one of its files, and its files are the stored parts, each once, in the dictionary's order, the same list the response returns |
| DocumentStorage.WritesStayInFolder | document-storage-service/src/app.py:162 | every file put and the manifest put target a key under the document's folder (also line 187) |
| DocumentStorage.CommittedFolderContents | document-storage-service/src/app.py:161-193 | after the write action the folder holds one object per part and the manifest, nothing else; each part not named `.metadata.json` has its bytes and its name's content type (a part of that name is overwritten by the manifest), and the manifest is `application/json` |
| DocumentStorage.CommittedStore | document-storage-service/src/app.py:159-193 | with or without an earlier folder, a committed store holds exactly the write action's objects in the folder and nothing else changed outside the folder and its backup |
| DocumentStorage.StoreDocument | document-storage-service/src/app.py:114-229 | a rejected request gets 400 with the first failing check's message and no store call; an accepted one gets 200 with folder, entrypoint and file list exactly when the transaction commits, and the 500 of `lambda_handler` (238-259) otherwise; a success leaves exactly the files and the manifest in the folder; a fully rolled-back failure leaves the store as it was when no earlier backup objects remain; a rejected request makes no store call; for an accepted one the transaction's outcome and its flags (`folder_exists`, `backup_created`, restored, backup removed) are the ones the folder and the fault schedule decide (`FolderTransaction.ReportFollowsSchedule`); with no fault it is stored and its backup removed, and when the folder existed nothing is left under `<folder>.bak/` |

## Left out

- Pagination: each paginated listing is one `List` call that returns every
  key. Page boundaries (1000 keys per page) and a failure between pages are
  not modelled.
- ObjectStore.Store.List: promises no order for the keys, while S3 lists in
  key order. None of the proofs depend on the order.
- ObjectStore.Store.Delete: `delete_objects` is all-or-nothing. Per-key
  errors reported inside a successful response are not modelled.
- The probe's `MaxKeys=1` listing is modelled as a full listing whose
  non-emptiness stands for `KeyCount > 0`.
- The multipart wire parser, `parse_options_header`, base64 decoding
  (section 4 of RFC 4648) and UTF-8 encoding are foreign library calls. They
  are function parameters. For the first three, `None` stands for a raise;
  UTF-8 encoding is total. The multipart
  parser is lazy, and a failure can come up halfway through the loop. The
  dictionary is local, so it makes no difference, and the model treats that
  case as "the parser raised".
- The UTF-8 encode of a string body (`app.py:69`) is modelled as total. In
  Python it raises on a lone surrogate, outside any `try`, which would end in
  the 500 answer; a Dafny `string` cannot hold a lone surrogate.
- `MultipartRequest.Message` (the table of the five error messages) and
  `DocumentStorage.ManifestBody` (the JSON text of the manifest, UTF-8
  encoded) are plain definitions with no contract of their own. What they
  promise is stated by `MultipartRequest.MessagesDistinct`,
  `DocumentStorage.ManifestOf` and `DocumentStorage.StoreDocument`.
- SHA-256 (FIPS 180-4) is a parameter, treated as a deterministic function
  from the URL to a hex string.
- `json.dumps` of the manifest and `time.time()` are left out: the manifest's
  serialisation is a parameter and its timestamp an input string.
- EventBridge publishing (`app.py:196-218`) is left out. It runs inside the
  transaction, but every exception from it, including the assertion in
  `get_event_bus_name`, is caught and logged. It therefore can never trigger
  a rollback.
- Authentication middleware, the secret lookup and the cached configuration
  getters (`app.py:261-294`, `399-431`) are left out. This includes the
  `APPLICATION_BUCKET` assertion: the bucket is the `Store` object itself.
- Logging, metrics and tracing are left out.
- The event body is always a string: a missing body is the empty string,
  which fails the same `not request_body` check. A part without a name has
  name `""`, which fails the same `if part.name` check.
- DocumentStorage.StoreDocument: on a 500 answer it states the store itself
  only for the fully rolled-back case with no earlier backup objects left
  under `<folder>.bak/`; the report's flags it ties to the fault schedule in
  every case. The store after a partial rollback, or with such objects, is
  stated by `FolderTransaction.BackupInCaseOfError` and
  `FolderTransaction.RollbackRestoresFolder`, not repeated here.
- Concurrent writers to the same document folder are not modelled: the code
  takes no lock, and the model is sequential.
- The deploy scripts and the two stub services (`index-documents-service`,
  `indexing-service`) are not part of this model.
