# luna-prefs-service: backup/restore engine, authorization gate and request rules

This project models the decision-making core of webOS's preferences
service (`luna-prefs-service`) in Dafny and proves properties of the model.
It covers three parts of the service:

- **The backup and restore engine (`database.c`).** A per-application
  store is a sequence of `(key, value)` rows. Backup lists the store files
  under the preferences directory and merges their rows, in listing order,
  into one snapshot table keyed by `key`. A row whose key is already in the
  snapshot is dropped, so the first store to hold a key wins. Restore reads
  the distinct origin paths back out of a snapshot. For each path it makes
  the parent directory, opens the store, and replays the rows filed under
  the path with "update when the key is present, insert otherwise".
  - The file system is a `Disk` value: its directories, its plain files,
    the files holding a `data` table and the files holding a snapshot table.
  - Failures the engine cannot foresee are a `Faults` value: a database that
    does not open, a `mkdir` that fails, a transaction that cannot begin,
    an insert statement that cannot be prepared, a commit that fails, a
    close that fails.
  - `Database.BackupEngine` is a class whose fields are the C file's static
    state: the chosen snapshot path, the disk, and the tables behind the
    `backUpDb` and `restoreDb` handles. Each of its methods is proved
    against a function of `DatabaseSpec`.
- **The authorization gate (`accesschecker.c`) and the gated handlers of
  `main.c`.** A request message is a `Bus.Message` object with a reference
  count and the list of replies sent on it. `checkAccess` parks a heap
  `CallbackContext` (the request and its continuation) and sends a query
  to the bus's permission oracle. `processReply` consumes the context when
  the oracle answers. `GatedHandlers` follows one request end to end, from
  handler to oracle reply to continuation, and states the change in the
  reference count and the replies sent.
- **Request-level rules in `main.c`.** These are `parseMessage`,
  `wrapArray`, the per-element gate of `getSomeSysProperties`,
  `sysGetValue`, the argument checks of `appSetValue`, the reply paths of
  `appGetValue`, and the file loop of `postRestore`.

The property stores (`LPSystem*`, `LPApp*`, the public-key whitelist) are
foreign code. They enter as values and function-typed fields of
`Callbacks.SystemProps` and `AppHandlers.AppStore`. JSON texts are taken
as already parsed (`JsonValue.Payload`), following json-c 0.10 or later:
a text that does not parse and the literal `null` both give no document,
and a member whose value is `null` reads as absent.

One might expect every gated request to get exactly one reply and
exactly one release of its extra reference. The model follows the code,
which does not always do so:

- An oracle refusal (`returnValue` false) releases the request but sends
  it no reply.
- An oracle reply that does not parse is neither answered nor released.
  This is the second finding below.

## Model

| member | source | states |
|---|---|---|
| Database.BackupEngine.SetBackupFile | luna-prefs-service/database.c:49-55 | the chosen path is `tempDir` joined with `lunaprefs_backup.db` when a directory is given, else `/var/preferences/lunaprefs_backup.db`, and it is remembered; nothing else changes |
| Database.BackupEngine.GetBackupFile | luna-prefs-service/database.c:63-70 | returns the remembered path, or remembers and returns the default one when none was chosen |
| DatabaseSpec.BackupFileLocation | luna-prefs-service/database.c:49-55 | every snapshot path ends in the fixed file name; with a directory given (no trailing slash) the snapshot lies directly in that directory |
| Database.MakeList | luna-prefs-service/database.c:161-190 | the list is exactly `ListStores`: `root/entry/prefsDB.sl` for each listed entry, in listing order, when that file exists; empty for a missing or unreadable root |
| DatabaseSpec.ListStoresExactly | luna-prefs-service/database.c:161-190 | a path is listed iff the root is readable, the path exists and it is the store path of some entry of the root |
| DatabaseSpec.ListStoresNoRepeats | luna-prefs-service/database.c:178-186 | when the directory names each entry once (non-empty, no `/`), the list of stores has no repeats |
| DatabaseSpec.StorePathInjective | luna-prefs-service/database.c:180 | distinct entry names of one root give distinct store paths |
| DatabaseSpec.ExistingNoRepeats | luna-prefs-service/database.c:181-185 | the existence filter keeps a repeat-free list repeat-free |
| DatabaseSpec.ExistingExactly | luna-prefs-service/database.c:179-186 | the existence filter keeps exactly the candidate paths that exist |
| DatabaseSpec.ExistingLength | luna-prefs-service/database.c:179-186 | the filter never grows the list, and keeps it whole when every candidate exists |
| Database.BackupEngine.BackupAction | luna-prefs-service/database.c:113-153 | a NULL path, key or value, or a key already in the snapshot (`PRIMARY KEY (key)`), gives 0 and leaves the snapshot unchanged; otherwise the row is appended and its rowid returned |
| Database.BackupEngine.CreateBackup | luna-prefs-service/database.c:192-241 | the snapshot becomes `MergeRows` of its old rows and the store's rows, row by row in store order; a NULL path or a store that does not open adds nothing |
| Database.BackupEngine.ReadAndBackupList | luna-prefs-service/database.c:243-264 | fails iff the snapshot does not open, the transaction does not begin or the close fails; the results of `setup_database` and of the commit are ignored, so when the insert statement cannot be prepared or the commit fails the snapshot keeps its old rows yet the result can be true; otherwise the snapshot holds the merge of all listed stores |
| Database.BackupEngine.BackupStores | luna-prefs-service/database.c:192-241 | walking the listed stores in order leaves the snapshot table equal to `MergeStores` of the old table and those stores; the disk and the other fields do not change (see also database.c line 255) |
| Database.BackupEngine.CreatePrefsBackup | luna-prefs-service/database.c:273-287 | the outcome and the new disk are `CreateBackupSpec`: unlink the old snapshot, list the stores, merge them; a failed setup or commit leaves the new snapshot empty |
| DatabaseSpec.CreateBackupOutcome | luna-prefs-service/database.c:243-287 | false only when opening, beginning or closing fails; the stores are untouched; when begin, setup and commit all succeed the snapshot holds the merge of all listed stores and every key appears once; when any of the three fails the snapshot is empty, and the result is still true after a failed setup or commit if the close succeeds |
| DatabaseSpec.MergeRowsIsMerge | luna-prefs-service/database.c:221-234 | copying one store row by row is the merge of that store's candidate rows |
| DatabaseSpec.MergeStoresIsMerge | luna-prefs-service/database.c:255 | going store by store is the merge of all candidate rows in listing order |
| DatabaseSpec.MergeAppend | luna-prefs-service/database.c:221-234 | merging two batches in turn is merging their concatenation |
| DatabaseSpec.MergeShape | luna-prefs-service/database.c:113-131 | the merge keeps keys unique, keeps the old snapshot as a prefix, adds exactly the candidate keys, and adds only candidate rows (see also database.c lines 136-140) |
| DatabaseSpec.MergeFirstWins | luna-prefs-service/database.c:113-131 | every merged row is an old row, or the first candidate with its key when that key was new: on a collision the earlier store's row is kept (see also database.c lines 221-234) |
| DatabaseSpec.MergeWithoutCollision | luna-prefs-service/database.c:113-131 | with no key collision nothing is dropped: the merge is plain concatenation (see also database.c lines 221-234) |
| DatabaseSpec.FirstWithAppend | luna-prefs-service/database.c:221-234 | appending a candidate never changes which candidate comes first for a key already present |
| DatabaseSpec.KeysOfAppend | luna-prefs-service/database.c:136-140 | the key set of a concatenation is the union of the key sets |
| DatabaseSpec.CountKey | luna-prefs-service/database.c:390-400 | the count query is positive exactly when the store holds the key |
| DatabaseSpec.SetValue | luna-prefs-service/database.c:315-322 | the update overwrites the value of every row holding the key and changes nothing else |
| Database.BackupEngine.RestorePrefsData | luna-prefs-service/database.c:309-338 | with the flag set every row holding the key gets the new value; otherwise one row is appended |
| Database.BackupEngine.RestoreAction | luna-prefs-service/database.c:340-432 | fails on a NULL path or a file without a usable `data` table; otherwise the store becomes `Replay` of its rows and the snapshot rows filed under the path |
| DatabaseSpec.UpsertKeys | luna-prefs-service/database.c:404-414 | one upsert adds exactly its key to the store's keys |
| DatabaseSpec.ReplayKeys | luna-prefs-service/database.c:380-419 | after a replay the store holds its old keys plus the replayed keys |
| DatabaseSpec.ReplaySize | luna-prefs-service/database.c:380-419 | the row count grows by exactly the number of replayed keys that were new |
| DatabaseSpec.ReplayRows | luna-prefs-service/database.c:380-419 | old rows keep their place and key; rows whose key is not replayed are untouched; appended rows carry replayed keys; every replayed key ends with the last value replayed for it |
| DatabaseSpec.ReplayIntoEmpty | luna-prefs-service/database.c:380-419 | replaying distinct keys into an empty store inserts them in order |
| DatabaseSpec.DistinctPathsExactly | luna-prefs-service/database.c:454-467 | the origin list holds each `appPath` of the snapshot exactly once and nothing else |
| DatabaseSpec.RowsForAppend | luna-prefs-service/database.c:380-387 | the rows filed under a path split over a concatenated table |
| DatabaseSpec.RowsForUniqueKeys | luna-prefs-service/database.c:136-140 | the rows filed under one path have distinct keys, all keys of the snapshot (see also database.c lines 380-383) |
| DatabaseSpec.RowsForCandidates | luna-prefs-service/database.c:221-234 | the rows a store contributed, read back by its path, are the store's rows (see also database.c lines 380-383) |
| DatabaseSpec.RowsForOtherStore | luna-prefs-service/database.c:221-234 | a store's rows are never read back under another path (see also database.c lines 380-383) |
| DatabaseSpec.RowsForAllCandidates | luna-prefs-service/database.c:221-234 | the rows read back under a path come from that path's store only (see also database.c lines 380-383) |
| DatabaseSpec.CandidatesInAll | luna-prefs-service/database.c:255 | a row a listed store contributes is among all the candidates |
| DatabaseSpec.CandidatesFiled | luna-prefs-service/database.c:221-234 | a non-empty store without NULLs contributes a row filed under its path |
| DatabaseSpec.AppPathListed | luna-prefs-service/database.c:255 | every candidate is filed under a listed store |
| DatabaseSpec.CandidatePath | luna-prefs-service/database.c:221-234 | a store's candidates are filed under its own path |
| DatabaseSpec.BackupRestoreRoundTrip | luna-prefs-service/database.c:340-432 | when no key is shared between stores, reading a store's rows back out of the snapshot into an empty store rebuilds the store exactly, for keys and values SQLite keeps as text (see also database.c lines 192-241) |
| Database.BackupEngine.RestorePath | luna-prefs-service/database.c:479-519 | one pass of the store loop is `RestoreHead`: it stops when `mkdir` of the parent fails, including when the directory exists, or when the store does not open or holds no `data` table; otherwise the store is restored and the loop goes on |
| Database.BackupEngine.BeginRestore | luna-prefs-service/database.c:434-530 | the outcome and the new disk are `BeginRestoreSpec`: every distinct origin path once, in order, stopping at the first failure with no rollback, then the close |
| Database.BackupEngine.RestorePaths | luna-prefs-service/database.c:479-520 | the outcome and the new disk are `RestoreStores` over the given paths: each path in order, stopping at the first failed `mkdir`, open or replay; the snapshot table is unchanged |
| Database.BackupEngine.TryRestore | luna-prefs-service/database.c:532-546 | the outcome and the new disk are `TryRestoreSpec` |
| DatabaseSpec.TryRestoreMissing | luna-prefs-service/database.c:532-546 | no path, or a path that does not exist, gives true and changes nothing; an existing path is `begin_restore` |
| DatabaseSpec.RestoreAbortsOnExistingDir | luna-prefs-service/database.c:479-490 | as written, a restore whose first origin directory already exists fails and changes nothing |
| DatabaseSpec.RestoreKeepsEarlierStores | luna-prefs-service/database.c:479-514 | as written, when the first k origin paths restore and the `mkdir` for path k fails, the loop reports failure, the k stores restored before it keep their replayed rows (no rollback), and every other store, path k's included, is unchanged |
| DatabaseSpec.RestoreStoresRestoresAll | luna-prefs-service/database.c:479-519 | with `mkdir` tolerating an existing directory and no failure, every origin store becomes the replay of its snapshot rows over its old rows, and every other store is untouched |
| DatabaseSpec.BeginRestoreIntended | luna-prefs-service/database.c:434-530 | the same for a whole snapshot file |
| DatabaseSpec.BackupThenRestore | luna-prefs-service/database.c:434-530 | with `mkdir` tolerating an existing directory, restoring a snapshot taken from stores without shared keys into a disk without those stores rebuilds each non-empty store exactly, for keys and values SQLite keeps as text (see also database.c lines 273-287) |
| AccessChecker.Requester | luna-prefs-service/accesschecker.c:58-69 | the identity is the sender's service name when present, else its bus name, else none |
| AccessChecker.DecodeQuery | luna-prefs-service/accesschecker.c:76 | a query read back yields an identity and URI without quotes |
| AccessChecker.DecodePair | luna-prefs-service/accesschecker.c:76 | a text read back as two fields is exactly prefix, first field, middle, second field and suffix, and neither field holds a quote |
| AccessChecker.QueryRoundTrip | luna-prefs-service/accesschecker.c:76 | the query `{"requester":"…","uri":"…"}` is read back as the identity and URI it was built from, when neither holds a quote |
| AccessChecker.DecodePairOf | luna-prefs-service/accesschecker.c:76 | any two quote-free strings framed by a prefix, a middle text that opens with a quote and a suffix are read back as those two strings |
| AccessChecker.DecodeQueryExact | luna-prefs-service/accesschecker.c:76 | a text that reads back as a query is exactly the query built from what it reads back as |
| AccessChecker.CheckAccess | luna-prefs-service/accesschecker.c:56-102 | true iff the context is allocated, an identity exists, the payload is built and the call is dispatched; the call goes to `luna://com.webos.service.bus/isCallAllowed` with the query; the context is freed on every failure and left live, holding the request and continuation, on success; the request's count and replies are untouched |
| AccessChecker.VerdictOfOracleReplies | luna-prefs-service/accesschecker.c:37-48 | the oracle's success reply reads as its `allowed` answer, its error reply as a refusal, an unparseable reply as unreadable |
| AccessChecker.MissingAllowedDenies | luna-prefs-service/accesschecker.c:46-48 | a reply without `allowed` never grants access |
| AccessChecker.ProcessReply | luna-prefs-service/accesschecker.c:27-54 | as written: a null context does nothing; the context is freed on every other path; a refusal releases the request once without reply or continuation; an answer resumes the continuation once with `allowed`; an unreadable reply releases nothing |
| AccessChecker.ProcessReplyReleasing | luna-prefs-service/accesschecker.c:27-54 | corrected: an unreadable reply is treated like a refusal, so every path that does not resume the continuation releases the request once |
| GatedHandlers.FormUriInjective | luna-prefs-service/main.c:157-161 | the URI checked is the service root followed by the request kind; distinct kinds give distinct URIs |
| GatedHandlers.Gate | luna-prefs-service/main.c:478-494 | takes a reference and calls `checkAccess` with the formed URI; on failure it answers `LP_ERR_PERM` once and gives the reference back; on success the request is parked with one extra reference and no reply |
| GatedHandlers.RunContinuation | luna-prefs-service/main.c:966-1001 | each continuation sends its replies and releases the request exactly once (see also main.c lines 334-338, 516-581, 772-777) |
| GatedHandlers.ServeGated | luna-prefs-service/main.c:754-770 | a request through handler, oracle reply and continuation, as written, changes the count and replies as `GatedOutcome` says (see also accesschecker.c lines 27-54) |
| GatedHandlers.ServeGatedReleasing | luna-prefs-service/main.c:754-770 | the same with the corrected `processReply` (see also accesschecker.c lines 27-54) |
| GatedHandlers.GatedReferenceBalance | luna-prefs-service/main.c:947-964 | corrected, every request ends with its original reference count; as written, exactly an unreadable oracle reply leaves one reference behind; the replies are the same either way (see also accesschecker.c lines 37-53) |
| GatedHandlers.GatedReplies | luna-prefs-service/main.c:1060-1077 | a closed gate answers exactly one `LP_ERR_PERM`; a refused or unreadable reply leaves the request unanswered, and so does an answered `sysGetValue` whose lookup succeeds without a value; otherwise an answer gives one reply, or two for `sysGetValue` when its value reply fails (see also accesschecker.c lines 38-48) |
| GatedHandlers.GatedValueOnlyWhenPermitted | luna-prefs-service/main.c:966-1001 | a value reaches the caller only after the oracle answered, under a key allowed or public, and it is the value the store handed back |
| Callbacks.ParseMessage | luna-prefs-service/main.c:178-215 | succeeds iff the payload parses and every listed key is present with a string value; the values come back in key order |
| Callbacks.WrapArray | luna-prefs-service/main.c:271-297 | the array goes under `values` unchanged, and `returnValue` is false iff some element is an object with an `errorText` member |
| Callbacks.SysGetReplyShape | luna-prefs-service/main.c:299-332 | a getter's failure is answered with its error and the document is never sent; otherwise the document goes out, wrapped for the `…Obj` methods |
| Callbacks.SysGetInternal | luna-prefs-service/main.c:299-332 | one reply, then the request is released once |
| Callbacks.SysGetKeysObjCallback | luna-prefs-service/main.c:334-338 | the full key list for an allowed caller, the public one otherwise; wrapped for `getSysKeysObj`; one reply and one release |
| Callbacks.SysGetAllObjCallback | luna-prefs-service/main.c:772-777 | the same for all properties and `getAllSysPropertiesObj` |
| Callbacks.SomeElements | luna-prefs-service/main.c:529-556 | one output element per input element, in order |
| Callbacks.SomeElementGate | luna-prefs-service/main.c:534-551 | a property is output under key `k` iff the element names `k`, the caller is allowed or `k` is public, and the lookup succeeds; the value is the one the store handed back |
| Callbacks.SomeElementReportsError | luna-prefs-service/main.c:538-555 | a missing key, a refused key and a failed lookup all give an `errorText` element; the missing key and the refusal have their own texts |
| Callbacks.SysGetSomeObjCallback | luna-prefs-service/main.c:516-581 | one reply, the element array (wrapped for `getSomeSysPropertiesObj`) or `LP_ERR_PARAM_ERR` when the payload is not an array, then one release |
| Callbacks.SysGetValueGate | luna-prefs-service/main.c:966-1001 | a caller that is not allowed never sees a value whose key is not public; no reply exactly when a permitted lookup succeeds without a value, else one reply, or two when the value reply fails |
| Callbacks.SysGetValueCallback | luna-prefs-service/main.c:966-1001 | sends `SysGetValueReplies` and releases the request once: the value only for a successful lookup that hands one back, an error code for a failed one, nothing for a successful one without a value |
| Bus.ErrReplies | luna-prefs-service/main.c:146-155 | `errorReplyErr` sends nothing for `LP_ERR_NONE` and one error otherwise |
| Bus.MissingParamNames | luna-prefs-service/main.c:138-144 | the missing-parameter text names the parameter: distinct names give distinct texts |
| Bus.Message.ReplyError | luna-prefs-service/main.c:116-136 | one error reply with the given text; the count is unchanged |
| Bus.Message.ReplyErr | luna-prefs-service/main.c:146-155 | the replies of `ErrReplies` |
| Bus.Message.ReplySuccess | luna-prefs-service/main.c:163-176 | one success reply |
| JsonValue.Doc | luna-prefs-service/accesschecker.c:29 | no document for a missing text, an unparseable text or `null` (see also accesschecker.c line 37) |
| JsonValue.Get | luna-prefs-service/main.c:1625-1627 | a member reads as present only in an object, under its name, and not `null` (see also main.c line 1637) |
| AppHandlers.GetStringParam | luna-prefs-service/main.c:1548-1557 | a text exactly when the member is present and a string |
| AppHandlers.AppSetValue | luna-prefs-service/main.c:1614-1669 | sends `SetValueReplies` and leaves the count unchanged |
| AppHandlers.SetValueOneReply | luna-prefs-service/main.c:1614-1669 | one reply iff the payload parses, none otherwise; the reply names the first unacceptable parameter; success iff the handle for the appId stripped of space, tab, line feed, form feed and carriage return is had and the store takes the value |
| AppHandlers.SetParamOrder | luna-prefs-service/main.c:1631-1638 | a missing, non-string or blank appId (only space, tab, line feed, form feed or carriage return) is reported first, then a bad key, then a missing value; the three texts differ |
| AppHandlers.AppGetValue | luna-prefs-service/main.c:1505-1546 | sends `GetValueReplies` and leaves the count unchanged |
| AppHandlers.GetValueReplyShape | luna-prefs-service/main.c:1515-1543 | at most one reply; none exactly when the request is well formed but no handle is had; a value sent is the stored one under the requested key |
| RestoreHandler.FileArgs | luna-prefs-service/main.c:1997-2024 | one path (or a skip) per list element, in order |
| RestoreHandler.FileArgPlacement | luna-prefs-service/main.c:1999-2024 | a bare name lies in `tempDir`, a name with `/` is used as given, a `null` element is skipped |
| RestoreHandler.SelectedExactly | luna-prefs-service/main.c:2026-2033 | a path is restored iff it is listed and mentions `lunaprefs_backup.db`; never more paths than elements |
| RestoreHandler.RestoreAll | luna-prefs-service/main.c:2026-2033 | one reply per restored path |
| RestoreHandler.RestoreAllMissing | luna-prefs-service/main.c:2026-2033 | paths that do not exist are each answered with success and change nothing (see also database.c lines 532-546) |
| RestoreHandler.RestoreListed | luna-prefs-service/main.c:2026-2033 | a selected path is restored and answered once; any other element changes nothing |
| RestoreHandler.RestoreFiles | luna-prefs-service/main.c:1992-2035 | the loop sends the replies of `RestoreAll` over the selected paths and leaves the disk it gives |
| RestoreHandler.RestoreStep | luna-prefs-service/main.c:1992-2035 | one more element of `files` adds exactly that element's replies and disk change to the result over the earlier elements |
| RestoreHandler.PostRestore | luna-prefs-service/main.c:1872-2040 | sends the replies of `PostRestoreSpec` and leaves the disk it gives: a single error for a missing or unparseable payload or a missing or mistyped `tempDir` or `files`, else one reply per selected file and a final success |
| RestoreHandler.PostRestoreReplyCount | luna-prefs-service/main.c:1872-2040 | k selected files give k + 1 replies ending in success; any rejected request gets one error and changes nothing |

## Left out

- SQLite itself, SQL text and statement lifetimes: tables are sequences of rows. The count query is modelled as key membership, so the quoting of a key inside it is not modelled (database.c:390). A failing count prepare that leaves a stale count is not modelled either.
- Step failures inside `restore_prefs_data` are not modelled: the update and the insert always succeed.
- The snapshot's rowids are taken as sequential (`sqlite3_last_insert_rowid` after an append).
- Database.BackupEngine.ReadAndBackupList: requires that no store sits at the snapshot path. Its only caller unlinks that path first.
- Column affinity: the `key` and `value` columns of both tables are declared `string` (database.c:136-140, 356-358), which gives them NUMERIC affinity in SQLite. Text that looks like a number is stored converted, so `"007"` is stored as the integer 7 and comes back as `"7"`, and long digit strings may lose precision. The model stores keys and values as the text given and compares keys as strings.
- Database.BackupEngine.BackupAction: the snapshot's `PRIMARY KEY (key)` compares converted values, so keys `"007"` and `"7"` collide in the service; the model compares them as text and keeps both.
- DatabaseSpec.BackupRestoreRoundTrip: the exact rebuild holds for keys and values SQLite keeps as text; numeric-looking text comes back converted, as the column affinity line says.
- DatabaseSpec.BackupThenRestore: the same qualification as for BackupRestoreRoundTrip.
- A parent directory path that exists as a plain file is not told apart from a missing one in `mkdir`; both the as-written and the intended `mkdir` treat it by their directory rule.
- A file at a store path that is a snapshot, not a store, is not modelled as a restore target.
- `sqlite3_open` creating a missing file is modelled only for restore targets.
- The luna-service2 bus: replies are recorded in `Message.replies` in order and the reference count is a number. Serialisation of reply frames is not modelled.
- json-c parsing and printing: payloads arrive parsed, and the printed form of a non-string value is the `render` function. The JSON-or-string choice in `replyWithKeyValue` is not modelled; `Reply.KeyValue` carries the key and text.
- The property stores and `onWhitelist` are foreign code, given as functions. Their own logic is not part of this model.
- `reset_timer`, signal handling, logging, `usage`, `main` and method registration are process housekeeping.
- The "URI not formed" branches of the gated handlers are not modelled: `g_strdup_printf` does not return NULL.
- In `appSetValue` the `LP_ERR_VALUENOTJSON` branch is not modelled: the value is known to be non-NULL there, so its text is never NULL.
- AppHandlers.AppGetValue: the result of `LPAppFreeHandle` is not modelled. It only decides a jump to the common cleanup.
- Callbacks.SomeElement: a successful `LPSystemCopyStringValue` that leaves the value NULL makes `addKeyValueToArray` call `json_object_new_string(NULL)` (main.c:500), which json-c does not define; the model puts a JSON `null` under the key there.
- AppHandlers.AppGetValue: `LPAppCopyValue` is taken to hand back a value whenever it succeeds; a NULL one trips the `g_assert` in `replyWithKeyValue` (main.c:237) and aborts the service, which the model does not represent.
- A failing `create table` in `setup_database` leaves the snapshot file without a table; the model keeps an empty one. Both make every insert fail, so the backup itself is the same.
- `JoinPath` adds one `/` after a directory that does not end in one and none after one that does. `g_build_filename` also collapses repeated separators, so `tempDir` `/tmp//` gives `/tmp/lunaprefs_backup.db` in the service and `/tmp//lunaprefs_backup.db` here; the model's disk keys files by these strings and treats the two as different files. GLib also skips an empty element, so a `postRestore` file name `""` gives `tempDir` itself in the service and `tempDir` followed by `/` here.
- DatabaseSpec.DistinctPaths: `select distinct appPath` (database.c:454) has no `ORDER BY`, so SQLite does not fix the order of the origin paths. The model takes them in order of first appearance in the snapshot. Because the as-written restore stops at its first failure, which stores a failed restore leaves restored depends on that order.
- `preBackup`, `appRemoveValue`, the `appGet*` key/all handlers and the non-`Obj` variants' own handlers are outside this model.

## Findings

| source | as written | input that shows it | evidently intended | confidence | as-written member | corrected member |
|---|---|---|---|---|---|---|
| luna-prefs-service/database.c:484-490 | `begin_restore` treats every `mkdir` failure as fatal, including `EEXIST` for a directory that already exists | a snapshot whose first origin path lies in an existing directory, such as `/var/preferences/com.palm.app/prefsDB.sl` when `/var/preferences/com.palm.app` exists: the restore returns false and restores nothing | an existing directory is no obstacle; every origin store is restored | not executed | DatabaseSpec.RestoreAbortsOnExistingDir | DatabaseSpec.BackupThenRestore |
| luna-prefs-service/accesschecker.c:37, 51-53 | `processReply` on an oracle reply that does not parse frees the context but neither resumes the continuation nor releases the request's extra reference | an oracle reply whose payload is not JSON: the request ends one reference above where it started and gets no reply | release the reference as for a refusal | not executed | AccessChecker.ProcessReply | AccessChecker.ProcessReplyReleasing |
