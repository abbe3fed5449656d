# lite_settings: a verified model

lite_settings is a small configuration centre. Writers publish values through SQL
transactions that raise one global revision. Servers poll that revision, answer long polls
and hand out full snapshots; clients may also poll the database directly. A client swaps
snapshots, tells its watchers what changed and keeps a fallback file. The command-line tool
shows diffs and offers a terminal interface that previews every write.

This project models those parts in Dafny and proves what they promise each other.

| file | what it models |
|---|---|
| `Basics.dfy`, `Text.dfy`, `Order.dfy` | optional results and Go's int, byte strings, lexicographic order and sorting |
| `Subsequences.dfy`, `LineDiff.dfy` | longest common subsequences; the line diff with its flat table and backtrace |
| `Hunks.dfy`, `Patch.dfy`, `UnifiedText.dfy` | hunks, their meaning as a patch, and the printed unified diff |
| `Schema.dfy`, `Store.dfy` | the tables, validation, one write alone; the write template statement by statement |
| `Transactions.dfy`, `CommittedLog.dfy` | write transactions interleaved statement by statement; what other connections see of them |
| `Prefixes.dfy`, `Rebind.dfy`, `Dsn.dfy` | LIKE escaping, the prefix query, prefix lists; placeholders; DSN normalisation |
| `Broadcast.dfy` | the watcher's close-and-replace broadcast: as steps on values, and the object with its channels |
| `Watermark.dfy`, `Delivery.dfy` | the watermark protocol of database, servers and clients as interleaved steps; one fetch of a snapshot |
| `EndToEnd.dfy` | transactions, watchers, handlers, pollers and clients as one interleaved system |
| `Views.dfy`, `Client.dfy`, `Fallback.dfy` | the client's index, diff, notification and fallback file |
| `Tui.dfy`, `Shell.dfy` | the terminal interface's state machine; the copyable shell command |

## How the parts fit

`Transactions` shows that every interleaving of write transactions has the effect of the
sequential function `Schema.Exec` on the committed writes in commit order, so what
`Schema` proves of sequences of writes holds of all interleavings. `CommittedLog` turns such
a run into the write steps of `Watermark`, whose log holds the contents of every revision.
`EndToEnd` interleaves both: the protocol's steps see only the committed meta row and table,
and still every run is a run of `Watermark`, so its theorems hold of the whole system.
`Delivery.Fetch` shows that a fetched list carries exactly the projection that `Watermark`
speaks of, and `Views` that a client's view of it has the same entries.

Classes (`Store.DB`, `RevisionWatchers.RevisionWatcher`, `Client.Client`, `Fallback.Disk`,
`Tui.Model`) stand for the objects whose methods update fields. A mutex-guarded section is one
method. Their `Valid` predicates hold between any two calls, so they hold in every state that
any sequence of calls reaches.

## Where the code and what it promises differ

- `hunks` adds `ctxLines` to an index in Go's `int`. For a context close to the largest int
  the sum wraps and the change hides itself: two different texts then have an empty diff.
  `Patch.PatchExactlyWhen` gives the exact condition, `Patch.HugeContextHidesChange` an input.
  All callers pass 3.
- Above `maxDiffCells` the diff is still a correct patch but not minimal.
  `LineDiff.MinimalExactlyWhen` says exactly when: if the two trimmed middles share a line.
- The guard on the table's size multiplies two Go ints. Middles of billions of lines can wrap
  the product past it, and the table is then indexed below zero: `LineDiff.FooledGuardFails`.
  `UnifiedText.UnifiedDiff` fails exactly then.
- A comment in `apply` says that a failed fallback write is retried. That is so only until the
  first write has succeeded: `Fallback.RetriedOnlyUntilSeeded` and
  `Fallback.StaleUntilNextChange`.
- Restores are noticed because `!=` is used instead of `>`, so only a client whose label equals
  the revision of the restored database can miss one. That happens in two ways. A client may
  have labelled newer data low, with exactly the revision that is later restored
  (`Watermark.StaleAfterRestore`); with no later writes that is the only way, and
  `Watermark.RestoresAreSurvived` gives the exact condition. Or writes after the restore bring
  the revision back up to the label of lost contents, however exact that label was
  (`Watermark.StaleAfterRewrite`). In both cases the client keeps the lost contents.
- `rebindDollar` assumes that its queries hold no placeholder next to a digit.
  `Rebind.RebindExactlyWhen` shows that this is exactly what it needs.
- `Group.Len` counts entries of the index, which equals the number of configs exactly if no
  key under the prefix occurs twice in the snapshot: `Views.GroupLen`.

## Model

| member | source | states |
|---|---|---|
| Subsequences.LcsIsLongest | cmd/lsctl/internal/render/diff.go:92-104 | the recurrence that fills the table computes the length of a longest common subsequence, defined by deleting elements |
| Subsequences.LcsTrimTail | cmd/lsctl/internal/render/diff.go:52-55 | trimming a shared last line loses exactly one kept line, although the recurrence works from the front |
| LineDiff.TableFitsInt32 | cmd/lsctl/internal/render/diff.go:86-90 | under the size guard no entry exceeds 2048 and no table 2^23 + 2 cells |
| LineDiff.LcsDiff | cmd/lsctl/internal/render/diff.go:86-124 | the in-place table and the backtrace yield an edit script that keeps a longest common subsequence, with removals before additions in every block of changes |
| LineDiff.Backtrace | cmd/lsctl/internal/render/diff.go:106-124 | the greedy walk over a filled table loses no line that could be kept |
| LineDiff.NextStep | cmd/lsctl/internal/render/diff.go:108-121 | one step of the walk, in terms of the suffixes that the neighbouring cells stand for |
| LineDiff.DiffLines | cmd/lsctl/internal/render/diff.go:45-75 | a script from old to new lines; if the trimmed middles need at most 4194304 table cells no script has fewer changes and the kept lines are a longest common subsequence of the full texts; the first change follows the shared head; it fails exactly if the size guard is fooled, which takes a product beyond 64 bits |
| LineDiff.SidesOfOne | cmd/lsctl/internal/render/diff.go:40-43 | what one operation reads, writes and keeps |
| LineDiff.DiffMiddle | cmd/lsctl/internal/render/diff.go:58-69 | each of the five cases of the middle yields a script for it; a fooled size guard is a failure |
| LineDiff.Mark | cmd/lsctl/internal/render/diff.go:77-83 | every line becomes one operation of the given kind |
| LineDiff.KeepingLcsIsMinimal | cmd/lsctl/internal/render/diff.go:106-121 | keeping a longest common subsequence means having the fewest changes among all scripts |
| LineDiff.MinimalExactlyWhen | cmd/lsctl/internal/render/diff.go:65-66 | the fallback gives up minimality exactly when the two middles share a line |
| LineDiff.FooledGuardFails | cmd/lsctl/internal/render/diff.go:65-104 | if the product of the lengths wraps past the guard, some cell that the table loop fills has a negative index |
| Hunks.KeepNearChanges | cmd/lsctl/internal/render/diff.go:126-137 | a line is kept exactly when some change, whose window does not overflow, is within the context |
| Hunks.GroupKept | cmd/lsctl/internal/render/diff.go:139-179 | hunks are the maximal kept stretches, in order and separated, with the line numbers and counts of both texts |
| Hunks.TakeRun | cmd/lsctl/internal/render/diff.go:155-167 | one stretch is read to its end and both sides are counted |
| Hunks.BuildHunks | cmd/lsctl/internal/render/diff.go:126-180 | if the first change's window does not overflow, the hunks are exactly the maximal stretches of lines at most the context away from a change |
| Hunks.ShownIsDistance | cmd/lsctl/internal/render/diff.go:132-136 | although later windows may overflow, a line is then shown exactly if it is at most the context away from a change |
| Patch.HunkNumbers | cmd/lsctl/internal/render/diff.go:182-191 | an empty range is numbered by the line before it, any other by its first line, and both counts are exact |
| Patch.ApplyRuns | cmd/lsctl/internal/render/diff.go:141-178 | from the end of any hunk on, applying the remaining hunks yields the rest of the new text |
| Patch.PatchExactlyWhen | cmd/lsctl/internal/render/diff.go:126-138 | applying the hunks to the old lines gives the new lines if and only if the first window does not overflow; there are no hunks if and only if the lines agree or it does |
| Patch.HugeContextHidesChange | cmd/lsctl/internal/render/diff.go:134-136 | an input for which the window overflows and the change is not shown |
| Patch.OrdinaryContextFits | cmd/lsctl/internal/render/diff.go:134-136 | no context up to 2^62 lines overflows |
| UnifiedText.SameLines | cmd/lsctl/internal/render/diff.go:32-38 | two texts split into the same lines exactly when they agree up to a final newline |
| UnifiedText.HunksRoundTrip | cmd/lsctl/internal/render/diff.go:170-177 | hunks are recovered from the lines they print |
| UnifiedText.PrintExample | cmd/lsctl/internal/render/diff.go:170-191 | two printed hunks, letter by letter |
| UnifiedText.UnifiedDiff | cmd/lsctl/internal/render/diff.go:17-30 | after the two label lines the printed text reads back as hunks that show exactly the lines at most the context away from a change, and applied to the old lines gives the new lines; it is empty exactly when the texts agree up to a final newline or the window overflows, which no ordinary context does, and there is none exactly when the size guard is fooled |
| Schema.ExecKeepsConsistent | store/store.go:266-319 | a write keeps: the watermark counts the writes, the config table is the replay of the history, versions are 1..n per key, everything stored is valid |
| Schema.ExecAppendsOne | store/store.go:288-318 | a write changes nothing or appends one entry and raises the watermark by one; it reports exactly that revision and version, and the entry records the one row that changed, the operation and the audit fields |
| Schema.RunsAreConsistent | store/store.go:246-321 | the store is consistent after every sequence of writes |
| Schema.MaxIsCount | store/store.go:300-307 | the highest version of a key is the number of its entries |
| Schema.OneEntryPerVersion | store/migrations/postgres/0001_init.sql:18-29 | key and version identify a history entry |
| Schema.Limits | store/validate.go:14-80 | the limits, the key alphabet and the formats, spelt out |
| Schema.AcceptedExactlyWhen | store/store.go:242-286 | what each operation demands and nothing more: valid audit fields; a set a valid key and value, a delete a present key, a rollback a recorded version |
| Schema.RefusedExactlyWhen | store/store.go:238-288 | which error each refused request gets, and that it changes nothing |
| Schema.DeleteNeverRejected | store/store.go:51-59 | a delete succeeds exactly if the key is present and the audit fields are valid, and removes just that key |
| Schema.RollbackNeverRejected | store/store.go:181-200 | a rollback succeeds exactly if the version is recorded, and restores its value and format |
| Schema.DeleteThenRollbackRestores | store/store.go:332-334 | deleting a key and rolling back to the delete's own version restores its value and format and touches no other key |
| Store.DB.Write | store/store.go:230-321 | the template's statements together do what the write does alone; it succeeds exactly if the request is acceptable and the database fails at none of the seven statements; otherwise all tables are as they were |
| Store.DB.History | store/store.go:79-114 | the versions of a key from the newest down, without gaps, up to the limit, or the invalid key |
| Store.DB.Revision | store/store.go:167-179 | the watermark is the number of writes, or the schema is reported missing |
| Store.HistoryCountsDown | store/store.go:85-88 | the full history of a key counts from its newest version down to 1 and misses no entry |
| Transactions.CommitIsExec | store/store.go:267-318 | what the holder of the row lock commits is what its request does to the tables committed at that moment, although it read them statement by statement |
| Transactions.LockKept | store/mysql.go:36-54 | with either dialect only the holder of the row lock is past its first statement, and all it has read is still current |
| Transactions.RunsAreSafe | store/store.go:266-275 | every interleaving is serializable in commit order, with the results reported |
| Transactions.EveryInterleaving | store/store.go:267-270 | for every interleaving the i-th commit reports revision i and the tables are consistent |
| Transactions.HolderAdvances | store/store.go:271-318 | no statement of the lock's holder is refused if its request is acceptable |
| Transactions.HolderCommits | store/store.go:267-318 | once it holds the lock an acceptable request is committed by its remaining statements, however other transactions interleave, with the effect it would have had alone |
| Transactions.AloneIsExec | store/store.go:246-321 | a write that finds the lock free does to the committed tables exactly what its request does, and is logged if and only if that succeeds |
| Transactions.RunsOnlyExtend | store/store.go:300-315 | continuing a run never revises committed history or reported results |
| CommittedLog.TransactionsAreWrites | store/store.go:167-179 | every interleaving of transactions is a run of the watermark protocol's writes; the last contents are the committed ones, at the revision in the meta row |
| EndToEnd.RunsAreProtocol | server/handler.go:251-261 | with transactions and protocol interleaved in any order, and the protocol seeing only committed state, every run is a run of the watermark protocol with a write for every commit |
| EndToEnd.OnlyPresentSeen | client/dbsource/dbsource.go:83-92 | no step of the protocol depends on more than the present revision and contents |
| EndToEnd.InstalledIsCommitted | server/handler.go:87-108 | over every run of the whole system, installed data is what the prefixes select from the table after some number of committed writes, not fewer than the label; a label equal to the meta row means the present table |
| Prefixes.LikePrefixExact | store/dialect.go:64-70 | a key matches the escaped pattern exactly if it starts with the prefix, whatever bytes the prefix holds |
| Prefixes.LikeOfOne | store/mysql.go:31-34 | what a wildcard, an escape and any other character match |
| Prefixes.PrefixQuery | store/store.go:124-143 | as many placeholders as arguments, none left over when an empty prefix subsumes the rest |
| Prefixes.QueryIsExact | store/store.go:124-143 | the query selects exactly the keys the prefix list asks for |
| Order.LessIsLexicographic | client/view.go:33 | the order of all sorted lists: a proper prefix first, otherwise the smaller byte at the first difference decides |
| Prefixes.ListPrefixes | store/store.go:121-151 | the strictly sorted list of exactly the rows under some prefix |
| Prefixes.ListingUnique | store/store.go:121-123 | prefix lists that select the same keys list the same rows in the same order |
| Prefixes.NormalizePrefixes | client/client.go:487-506 | the members once each in the order of their first occurrences, or nothing for everything; the selected keys stay the same |
| Prefixes.RequestPrefixes | server/handler.go:274-301 | at most 64 prefixes; the members once each in the order of their first occurrences, or the empty prefix for everything; the selected keys stay the same |
| Rebind.RebindExactlyWhen | store/dialect.go:46-62 | numbered placeholders bind the same arguments in the same places, for all arguments, exactly if no dollar or question mark runs into a digit |
| Rebind.RebindDollar | store/dialect.go:48-62 | the byte loop numbers the question marks from 1 |
| Dsn.NormalizedParams | store/dsn.go:21-44 | read as the driver reads it, the result keeps everything before the parameters and all other non-empty parameters in order, and ends in parseTime=true |
| Dsn.OtherParamsKept | store/dsn.go:39-43 | exactly the empty and the parseTime parameters are dropped; all others are kept as often as they occur, in their order |
| Dsn.LeftAlone | store/dsn.go:25-34 | other drivers' DSNs and those without a slash stay as they are |
| Dsn.OneParseTime | store/dsn.go:39-42 | exactly one parseTime parameter, and it is the last |
| Dsn.NormalizeIdempotent | store/dsn.go:25-44 | normalising twice is normalising once |
| Broadcast.NoLostWakeup | server/revision_watcher.go:33-56 | after any run a waiter that nothing can wake has seen the present watermark; once stopped every waiter can leave |
| Broadcast.StoppedForGood | server/revision_watcher.go:90-99 | after Close every waiter, present or future, is released |
| Broadcast.ChangeStaysVisible | server/revision_watcher.go:64-75 | a change wakes a blocked waiter even if the old watermark comes back before it runs |
| RevisionWatchers.RevisionWatcher.Enter | server/revision_watcher.go:37-46 | returns at once or blocks on the open current channel with the present watermark as baseline |
| RevisionWatchers.RevisionWatcher.Resume | server/revision_watcher.go:48-62 | only a closed channel reports a change; the watermark returned is the present one |
| RevisionWatchers.RevisionWatcher.Set | server/revision_watcher.go:64-75 | the watermark becomes the one given, higher or lower; the current channel is closed once and replaced exactly if it moved; every blocked waiter is then woken |
| RevisionWatchers.RevisionWatcher.Close | server/revision_watcher.go:90-99 | releases all waiters and never closes a channel twice |
| RevisionWatchers.RevisionWatcher.Run | server/revision_watcher.go:104-137 | with requests and Close interleaved between the heartbeats in any order, the object goes through exactly the steps of the broadcast; failed heartbeats never move the watermark but show their error; the watcher ends closed |
| Watermark.ServedLabel | server/handler.go:239-272 | an undisturbed request is labelled with the watcher's revision once that has polled, but never above the database's |
| Watermark.LabelsNeverHigh | server/handler.go:239-272 | on every restore-free interleaving an installed snapshot is the projection of the database at a revision not below its label; a label equal to the present revision means the present contents |
| Watermark.InstallsNeverGoBack | client/client.go:395-427 | a running client's data never goes back in time, whatever its labels do |
| Watermark.PollsSettle | server/revision_watcher.go:104-137 | from any state, also after restores, one poll of every watcher from start to end makes all of them show the database's revision, whatever they held |
| Watermark.NoChangeSkippedForever | client/client.go:378-393 | once writes stop and every watcher has polled, the fetch in flight, wherever it is, plus one finished poll reaches the database's state, and later polls install nothing |
| Watermark.PollOutcome | server/handler.go:84-108 | what an idle client holds after any number of polls of a settled system, step by step through handler and direct poller |
| Watermark.LabelsBoundedAlways | server/handler.go:256-261 | with restores too, a label never exceeds the revision read just before the data |
| Watermark.RestoresAreSurvived | client/dbsource/dbsource.go:83-92 | after a restore to r without later writes, and one poll of every watcher, a finished fetch ends with r's contents labelled r if and only if the old label was not r or the revision its data was read at looks the same as r; a label other than r means exactly one install |
| Watermark.EqualLabelDecides | client/dbsource/dbsource.go:83-92 | whatever the history, a finished poll of a settled system can fail to bring the contents only under a label equal to the revision |
| Watermark.ExactLabelSurvives | client/dbsource/dbsource.go:83-92 | a client whose label is the revision its data was read at always survives a restore without later writes |
| Watermark.StaleAfterRestore | client/dbsource/dbsource.go:83-92 | a run in which a client that labelled newer data low keeps it forever after a restore |
| Watermark.StaleAfterRewrite | client/dbsource/dbsource.go:83-92 | a run in which an exactly labelled client keeps lost contents forever because later writes reach its label again |
| Delivery.Fetch | client/dbsource/dbsource.go:102-115 | the copied rows carry exactly the projection of the committed contents |
| Delivery.ServeSnapshot | server/handler.go:251-272 | the label is the smaller of the two revisions |
| Delivery.Poll | client/dbsource/dbsource.go:69-100 | unchanged exactly if every read equals the baseline; otherwise labelled with the first that differs, with the data as the table stands right after that read, however it moved between reads |
| Views.NewView | client/view.go:23-35 | the index of the entries and their keys in order |
| Views.IndexIsLast | client/view.go:29-32 | of several entries of a key the last counts |
| Views.BinarySearchFunc | client/view.go:81-90 | the first position whose key does not compare less |
| Views.ComparatorsMonotone | client/view.go:82-90 | both comparators are monotone along sorted keys |
| Views.PrefixRange | client/view.go:78-92 | two binary searches give the half-open range of exactly the keys with the prefix |
| Views.GroupKeys | client/group.go:26-35 | sorted relative keys, each of which resolves through Raw, and none missing |
| Views.GroupLen | client/group.go:37-41 | the number of configs under the prefix exactly if none of their keys occurs twice |
| Views.Raw | client/group.go:43-50 | found exactly for the members of the group, with their value |
| Views.Diff | client/view.go:102-119 | strictly sorted, exactly the added, removed and modified keys, in whatever order the maps are walked |
| Views.ToWire | client/view.go:94-100 | the entries in key order |
| Views.WireRoundTrip | client/view.go:94-100 | reading back what was written gives the same entries, and the same view if keys are unique |
| Fallback.Disk.WriteFallback | client/fallback.go:19-43 | after success, an error or a crash at any step the path holds its old file or the complete new one, no other file is touched, and no temporary file outlives a finished or failed rename |
| Fallback.Disk.ReadFallback | client/fallback.go:45-55 | a view of the file exactly if it is there and complete |
| Fallback.FileFollows | client/client.go:406-414 | on runs where no write fails the file holds the current entries after every apply |
| Fallback.RetriedOnlyUntilSeeded | client/client.go:406-414 | after a failed write the same entries are written again exactly if no write had succeeded before |
| Fallback.StaleUntilNextChange | client/client.go:406-414 | otherwise no number of fetches of the same entries repairs the file |
| Client.FilterPrefix | client/client.go:474-485 | exactly the keys with the prefix, in order |
| Client.Client.Watch | client/client.go:252-263 | a new watcher is given the current view at once |
| Client.Client.Notify | client/client.go:429-453 | each watcher is called exactly once if something under its prefix changed and otherwise not; OnChange is called once for each configured prefix with changes, in order, with exactly the changed keys |
| Client.Client.Persist | client/client.go:406-414 | the file is written exactly if entries changed or no write has succeeded yet |
| Client.Client.Apply | client/client.go:400-427 | afterwards every watcher's last view agrees with the current one under its prefix, and OnChange has been called for exactly the configured prefixes with changes; the file moves as the fallback model says |
| Client.Client.LoadFallback | client/client.go:210-223 | the snapshot of a complete file, or no change |
| Client.Client.Start | client/client.go:184-202 | a client comes up exactly with a fetched snapshot, a complete file or permission to degrade, holds the first of these there is, and calls nobody back |
| Tui.FilteredExactly | cmd/lsctl/internal/ui/model.go:611-613 | the keys that contain the filter, all of them and in their order |
| Tui.BuildRows | cmd/lsctl/internal/ui/model.go:607-634 | the filtered keys in order, every grouped key under its group's header, and one header for each run of keys of a group |
| Tui.Model.SyncDetail | cmd/lsctl/internal/ui/model.go:486-502 | detail is never kept for a key that is no longer selected |
| Tui.Model.Rebuild | cmd/lsctl/internal/ui/model.go:475-484 | the selected key stays selected if it is still shown |
| Tui.Model.MoveKeys | cmd/lsctl/internal/ui/model.go:544-553 | the cursor goes to the nearest key row that way, or stays |
| Tui.Model.Jump | cmd/lsctl/internal/ui/model.go:517-542 | the first or last key row, or version |
| Tui.Model.KeysResponse | cmd/lsctl/internal/ui/model.go:211-226 | a stale or failed key list changes no row |
| Tui.Model.DetailResponse | cmd/lsctl/internal/ui/model.go:228-245 | only the answer to the latest request for the selected key is shown |
| Tui.Model.AskRollback | cmd/lsctl/internal/ui/model.go:418-446 | previews a rollback of the selected key to the selected version exactly if text or format would change |
| Tui.Model.AfterEdit | cmd/lsctl/internal/ui/model.go:448-473 | an edit is previewed exactly if its key is still selected and the text changed |
| Tui.Model.OverlayKey | cmd/lsctl/internal/ui/model.go:368-395 | confirming issues exactly the pending write, once; nothing else issues one; only dismissing closes an unconfirmed preview |
| Tui.Model.FilterKey | cmd/lsctl/internal/ui/model.go:336-366 | what each key does to the filter, with the rows following it |
| Tui.KeyBindings | cmd/lsctl/internal/ui/model.go:287-336 | which key does what |
| Tui.Model.BrowseKey | cmd/lsctl/internal/ui/model.go:287-336 | what each action does; an editor is started only for the detail of the selected key, Enter outside the history only moves there, and no key writes |
| Tui.Model.WriteResponse | cmd/lsctl/internal/ui/model.go:247-262 | a finished write reloads the keys, and the detail only of a key still selected |
| Tui.Model.Update | cmd/lsctl/internal/ui/model.go:204-271 | every message has its effect and keeps the model valid: detail belongs to the selected key, the cursor is on a key, the version cursor is in range, a write is pending only under its own preview; responses never touch it, and only Enter in the history pane or a finished edit starts one |
| Tui.Session | cmd/lsctl/internal/ui/model.go:204-271 | over any sequence of messages the writes are a subsequence of the writes previewed, so each confirmation issues one write and each write has a preview of its own; rollbacks preview the recorded value |
| Shell.QuoteRoundTrip | cmd/lsctl/internal/ui/model.go:641-644 | a shell reads a quoted value back byte for byte |
| Shell.EquivSetRoundTrip | cmd/lsctl/internal/ui/model.go:636-639 | a shell reads the printed command as exactly the six intended words |

## Left out

- HTTP routing, status codes, JSON and YAML encoding, body limits and the HTTP source: a 200 is a snapshot and a 304 none; which texts the parsers accept is a parameter (`Schema.Syntax`).
- SQL engines, drivers, migrations and collation: reads see one committed state, a row lock is exclusive until commit or abort, keys compare byte by byte. Timestamps are left out of the rows.
- Clocks, tickers, contexts, jitter and backoff: timeouts and failures are steps that may happen at any time.
- Value decoding and its cache, `Stats`, logging and panics in callbacks: they do not affect these properties.
- Rendering, editor launching, scroll offsets of the value pane and the overlay, status texts and the list of finished writes of the terminal interface.
- Revisions and versions are unbounded integers; the source's int64 counters are assumed not to overflow. Only the diff's context window and the product in its size guard are modelled with Go's wrap-around.
- Channels and mutexes are modelled by what they guarantee: a guarded section is one step, and a blocked `Wait` is split into entering and resuming.
- A power loss that reorders the file system's own writes: a crash in `Fallback` is the death of the process.
- Fallback files reused with other prefixes.
- Watermark.InstallsNeverGoBack: says nothing across a restart, because a fallback file may hold older data than the client last showed.
- Transactions.RunsAreSafe: a commit whose outcome is unknown to the caller is either a commit or an abort here; the report to the caller is not modelled.
- Tui.Session: assumes that the backend answers the key asked with values it has recorded.
- Tui.Model.AskRollback: takes the diff of two values to be empty exactly if they agree up to a final newline; the run-time failure of a fooled size guard, for values of billions of lines, does not occur in the interface's model.
- UnifiedText.UnifiedDiff: requires the number of lines to fit Go's address space (2^58 operations of 24 bytes).
