# VCA: a model of the indexer's core, with proofs

VCA indexes the files under a set of root directories and answers word searches over them. This project models the parts
of it where state and order matter, in Dafny, and proves what they are for.

- **Index and cache** (`Orders`, `Paths`, `Fingerprints`, `SearchCaches`, `Tables`, `Index`, `UserDb`, `Sessions`,
  `Refinement`): the four tables with their constraints and cascades, each SQL statement as a function on them, the methods
  that run them in transactions that commit or roll back, and the cache of answers. A parameter says which of the statements,
  rows and commits SQLite breaks off, and no call ends with an error of SQLite without one of them. A run of calls refines a
  relation of absolute paths and words, and the cache cannot be observed.
- **Roots and daemon** (`UserConfigs`, `RootSteps`, `Reconciliation`, `Daemon`, `DaemonLife`, `FileEvents`): normalisation of
  the configured roots, and the scanner and the watcher that reconcile themselves and one database with it, over a whole life
  of the daemon, in which any call and any command may fail. Every state the database passes through is a state of its log.
- **Undo and redo** (`UndoRedo`, `Models`, `UndoHistory`): the model of the desktop program with its two bounded stacks,
  groups and settings store. `UndoHistory` defines a timeline of values that knows nothing of stacks or changes, and proves
  that the model follows it.
- **Thread pools** (`ThreadPools`, `Asyncs`): pushes, notifications, workers and shutdown as interleaved steps. Tasks are
  finite trees: a task carries the tasks it pushes while it runs.
- **Text** (`Texts`, `Entities`, `Xmls`): the tokenizer, entity replacement, and the scanner for text between tags.

Methods and classes follow the imperative code; each is proved equal to a function of its inputs or of the state before, and
the lemmas are about these functions. `Orders` and `Wrappers` hold what the other modules share.

## Where the code departs from its intent

The model does what the code does. What follows from it is stated exactly:

- `remove_file` and `move_file` select rows by relative path under all roots, and `move_file` leaves a row at its target
  (`Index.RemoveFileRefines`, `Index.MoveFileRefines`, `Index.MoveKeepsRowsUnique`).
- The id counters start at 0 over a database whose words were kept (`Refinement.RestartRefusesNewWords`). Over kept
  words with ids below n, updates with new words are refused until n of them have been; in no session are more updates refused
  by a word id than there were words kept (`Refinement.RefusedUntil`, `Refinement.RefusalsBounded`).
- When the commit of a root change fails, the root map is ahead of the tables (`Refinement.SyncExact`). If it was a removal,
  the root is shut out: searched, but refused whenever it is configured again, for as long as the daemon runs
  (`RootSteps.ShutOutExact`, `RootSteps.ShutOutForever`, `DaemonLife.ShutOutDisagrees`).
- A command that throws does not end the daemon: the queue wraps it in a task and drops the future
  (core/vca/command_queue.h:23-33, core/vca/command_queue.cpp:22-30). So a change of the configuration may be carried out in
  part. What is left, and when a later change makes it good, is stated by `DaemonLife.ChangeAgreesExact` and
  `DaemonLife.ChangeRestoresExact`. A configuration with a bad entry leaves its first entries in force, not normalised, and
  no observer is told (`UserConfigs.UserConfig.Read`).
- A file that turns out shorter than its size is hashed with what the buffers held before (`Fingerprints.FromStream`).
- The comparison of queries is not asymmetric (`SearchCaches.NotAsymmetric`); lookups may therefore miss, but not mistake.
- The product of a sample offset wraps at 64 bits for files above a bound (`Fingerprints.OffsetsExact`); no block leaves the
  file all the same (`Fingerprints.OffsetInFile`).
- Constructors that throw leave a root in the database without scanner or watcher (`DaemonLife.ChangeExact`). When the
  other observer still has the root, a later change can put a new root above or below it before that one is told: this is
  exact in `DaemonLife.ChangeNestsExact`, with an instance in `DaemonLife.LostScannerNests`.
- Populating does not normalise (`UserConfigs.PopulateNests`).
- The watcher asks the disk when it handles an event, so a deleted file is not removed from the index, and a renamed one is
  not taken to its new path (`FileEvents.DeleteInStep`, `FileEvents.RenameInStep`).
- An edit does not clear the redo stack (`UndoHistory.RedoThenUndoExact`, `UndoHistory.StaleRedoLosesEdit`); two nodes can
  share one settings path, and removing a setting removes all below it, so that resetting a node can lose the value of another
  one at the next start (`UndoRedo.SharedPathExact`, `UndoRedo.ResetLosesBelow`, `UndoRedo.PathsCanMeet`). The reload results
  are for persistent nodes none of whose paths is equal to another or lies below it.
- A push after the last worker has left is lost (`ThreadPools.LateIsLost`).
- The string of delimiters, and each CJK word, has U+0001 in front of the character meant (`Texts.IsDelimiter`,
  `Texts.CjkWords`).
- `XMLParser::next` drops the last byte of each text (`Xmls.SlicesExact`), and text is unescaped twice
  (`Entities.RoundTripExact`).

## Model

| member | source | states |
|---|---|---|
| Orders.AscendingUnique | core/vca/sqlite_userdb.cpp:344-348 | two ascending sequences with the same elements are equal, so what is copied out of an ordered map is determined by its keys |
| Orders.StringLessExact | core/vca/userdb.h:33-33 | strings compare by the first character in which they differ, as numbers, and else the shorter is less |
| Paths.IsParentOf | core/vca/filesystem.cpp:127-156 | true exactly when the absolute form of the one path is a strict prefix of the absolute form of the other |
| Paths.PathOrder | core/vca/sqlite_userdb.cpp:136-136 | the order of paths as map keys is a strict total order |
| Paths.AncestorFirst | core/vca/sqlite_userdb.cpp:119-125 | a loop over a map of paths visits a directory before everything below it |
| Paths.JoinRelative | core/vca/sqlite_userdb.cpp:123-123 | joining a root with the relative path under it gives the path back, and the relative path is not empty |
| Paths.NameParts | core/vca/filesystem.h:145-167 | a path is its parent and its file name; the extension is what follows the last dot, with it, unless that dot comes first or the name is ".." |
| Paths.Outermost | core/vca/sqlite_userdb.cpp:116-128 | an order-free definition of the root a path belongs to: found exactly when some root is above the path, and no shorter one is |
| Paths.RootUnique | core/vca/sqlite_userdb.cpp:116-128 | among un-nested roots at most one is above a path, and that is the one resolution finds |
| Fingerprints.FromStream | core/vca/filesystem.cpp:26-88 | for a stream that delivers the size: up to 16 bytes the bytes and zeros, below 8192 bytes the checksums of the four quarters, else those of four times 32 blocks at the stated offsets; for a shorter stream, of what it delivers and of what the buffers held |
| Fingerprints.HashesExact | core/vca/filesystem.cpp:35-85 | these clauses determine the four checksums |
| Fingerprints.SameChecksumsExact | core/vca/filesystem.cpp:109-125 | two files of one size have equal checksums if and only if they are equal, up to 16 bytes, and else if and only if each of the four parts hashes alike |
| Fingerprints.BlocksAfterEnd | core/vca/filesystem.cpp:72-80 | after the first block that is not delivered whole nothing is read any more: the block keeps the end of the file and, behind it, what it held |
| Fingerprints.CrcsReadWhole | core/vca/filesystem.cpp:26-88 | a stream that delivers the whole size leaves nothing of what the buffers held, in any of the three size classes |
| Fingerprints.FeedBlocks | core/vca/filesystem.cpp:72-80 | the inner loop feeds the 32 blocks of one checksum in order, at 64-bit offsets; after a failed read, what the block held |
| Fingerprints.TinyExact | core/vca/filesystem.cpp:36-41 | up to 16 bytes two files of one size have equal checksums if and only if they are equal |
| Fingerprints.ChunksPartition | core/vca/filesystem.cpp:52-60 | for 17 to 8191 bytes the four chunks in order are the file, none is empty, and lengths differ by at most one |
| Fingerprints.OffsetFormula | core/vca/filesystem.cpp:74-75 | block k starts at (size - 64) * k / 127, in 64-bit arithmetic |
| Fingerprints.OffsetsExact | core/vca/filesystem.cpp:74-75 | no product wraps at 64 bits if and only if the size is at most a bound, which is above 2^57 |
| Fingerprints.OffsetInFile | core/vca/filesystem.cpp:74-76 | for every 64-bit size, wrapping or not, no block reaches past the end of the file |
| Fingerprints.OffsetEnds | core/vca/filesystem.cpp:74-75 | the first block starts at 0 and the last at size-64 |
| Fingerprints.OffsetStep | core/vca/filesystem.cpp:74-75 | neighbouring blocks start between the floor and the ceiling of (size-64)/127 apart |
| Fingerprints.DisjointIff | core/vca/filesystem.cpp:62-80 | the 128 blocks are pairwise disjoint if and only if the size is at least 8192 |
| Fingerprints.TilesAtLimit | core/vca/filesystem.cpp:74-75 | at 8192 bytes block k starts at 64k, so the blocks tile the file |
| Fingerprints.LongRunIsSampled | core/vca/filesystem.cpp:62-80 | every run of bytes longer than ceil((size-64)/127)-64 contains a sampled byte |
| Fingerprints.GapIsReached | core/vca/filesystem.cpp:62-80 | that bound is tight: the run before the last block has exactly that length and is not sampled |
| Fingerprints.OnlySamplesMatter | core/vca/filesystem.cpp:62-85 | files that agree on the sampled bytes have equal checksums |
| Fingerprints.DeserializeSerialize | core/vca/filesystem.cpp:90-107 | reading back the bytes of a fingerprint gives it again, whatever follows them |
| Fingerprints.SerializeDeserialize | core/vca/filesystem.cpp:90-107 | writing what was read from 32 bytes gives those bytes |
| Fingerprints.SerializeInjective | core/vca/filesystem.cpp:90-125 | equal bytes if and only if equal fingerprints, for all 64-bit and signed 32-bit fields |
| Fingerprints.SerializeLayout | core/vca/filesystem.cpp:90-98 | the size, the time and the four checksums in order, in 8, 8 and four times 4 bytes |
| Fingerprints.LittleEndian | core/vca/filesystem.cpp:93-96 | each with its lowest byte first |
| SearchCaches.ResultOrder | core/vca/userdb.h:48-52 | the order of search results is a strict total order |
| SearchCaches.LessFromSome | core/vca/userdb.h:31-38 | the loop of the comparison says "less" exactly when some position is smaller on the left |
| SearchCaches.EquivalentIsEqual | core/vca/userdb.h:20-39 | two queries are equivalent for the map if and only if they are equal |
| SearchCaches.NotAsymmetric | core/vca/userdb.h:31-38 | two queries are each less than the other exactly when they have one length and each is smaller at some position |
| SearchCaches.SwappedWordsAreBothLess | core/vca/userdb.h:31-38 | ["a","b"] and ["b","a"] are such a pair |
| SearchCaches.OneOrderIsTotal | core/vca/userdb.h:20-39 | among queries no two of which are each less than the other the comparison is a strict total order |
| SearchCaches.SingleWordsInOrder | core/vca/userdb.h:20-39 | queries of one word are such queries |
| SearchCaches.SearchCache.Find | core/vca/sqlite_userdb.cpp:27-28 | a hit has exactly the key asked for; when the keys put in since the map was empty, and this one, are in one order, it is a hit if and only if the key is stored; else it may miss |
| SearchCaches.SearchCache.Get | core/vca/sqlite_userdb.cpp:24-33 | what is returned is stored under exactly the query, and in one order something is returned if and only if it is stored |
| SearchCaches.SearchCache.Evict | core/vca/sqlite_userdb.cpp:39-43 | at most one node goes, the oldest, and only when there are 32 |
| SearchCaches.SearchCache.Insert | core/vca/sqlite_userdb.cpp:35-49 | after making room either the new node is last in the queue and in the map, or the query was there already and nothing else changes; the query is stored in both cases |
| SearchCaches.SearchCache.Clear | core/vca/sqlite_userdb.cpp:51-56 | map and queue are empty |
| SearchCaches.SearchCache.CacheSize | core/vca/sqlite_userdb.cpp:58-62 | the map has as many entries as the queue, never more than 32 |
| Tables.Without | core/vca/sqlite_userdb.cpp:180-185 | deleting files deletes exactly their mappings |
| Tables.WordId | core/vca/sqlite_userdb.cpp:252-259 | the id of a row with that word, or none and then no row has it |
| Tables.IndexWordsEffect | core/vca/sqlite_userdb.cpp:250-275 | when the loop over the words succeeds it adds the new words under consecutive ids, tags this file with exactly the given words and no other file, and keeps the tables consistent |
| Tables.IndexWordsSucceeds | core/vca/sqlite_userdb.cpp:250-275 | the loop succeeds if and only if none of the ids it draws for new words is taken |
| Tables.IndexWordsIds | core/vca/sqlite_userdb.cpp:250-275 | the word ids after the loop are the old ones and those the counter has passed, which were free |
| Tables.DrawnAt | core/vca/sqlite_userdb.cpp:250-275 | where the loop breaks off at a word, the counter has passed only free ids, but for the one refused, which was taken |
| Index.SamePlace | core/vca/sqlite_userdb.cpp:96-128 | with un-nested roots, rows for one absolute path have one root and one relative path |
| Index.DeleteFilesEffect | core/vca/sqlite_userdb.cpp:236-239 | deleting file rows keeps the tables consistent and takes exactly their tags and places |
| Index.RemoveFileRefines | core/vca/sqlite_userdb.cpp:281-293 | remove_file deletes exactly one path if and only if every row with that relative path is under the root of the path |
| Index.RemoveRootRefines | core/vca/sqlite_userdb.cpp:213-225 | removing a root deletes exactly the paths below it |
| Index.AddRootRefines | core/vca/sqlite_userdb.cpp:199-211 | adding a root changes no document |
| Index.UpdateFileRefines | core/vca/sqlite_userdb.cpp:227-279 | a committed update_file replaces exactly the words of one absolute path |
| Index.UpdateFileRow | core/vca/sqlite_userdb.cpp:236-248 | the new row is the only one at its path, and every other row is an old one |
| Index.UpdateFileSucceeds | core/vca/sqlite_userdb.cpp:227-279 | a constraint refuses update_file if and only if a counter hands out an id already in use |
| Index.MoveFileRefines | core/vca/sqlite_userdb.cpp:295-311 | move_file renames exactly one path if and only if no other root holds the old relative path and an indexed target adds no word |
| Index.MoveKeepsRowsUnique | core/vca/sqlite_userdb.cpp:305-308 | a move leaves one row per place if and only if it moves at most one row, to a free place |
| Index.IndexFileKeepsRowsUnique | core/vca/sqlite_userdb.cpp:236-248 | update_file keeps one row per place |
| Index.MoveBack | core/vca/sqlite_userdb.cpp:305-308 | moving there and back restores the tables if and only if no other row held the old or the new relative path |
| Index.SearchMeaning | core/vca/sqlite_userdb.cpp:322-342 | the join finds the results of exactly the documents with a word that matches a query word |
| Index.SearchFinds | core/vca/sqlite_userdb.cpp:322-342 | if LIKE looks for a word without wildcards between percent signs anywhere in the text, a search finds exactly the documents with an indexed word that has a query word in it, each by directory, name and extension, once |
| Index.AnswerOrder | core/vca/sqlite_userdb.cpp:344-351 | in the order of directories, then of names |
| Index.AnswerUnique | core/vca/sqlite_userdb.cpp:344-351 | the answer to a query is determined by the tables |
| Index.AnswerLength | core/vca/sqlite_userdb.cpp:344-351 | with un-nested roots and one row per place the answer is as long as there are matching files |
| UserDb.SqliteUserDb.constructor | core/vca/sqlite_userdb.cpp:130-147 | counters 0 and no roots, whatever an earlier session left in the tables |
| UserDb.SqliteUserDb.RelativePath | core/vca/sqlite_userdb.cpp:116-128 | the first root above the path, in map order, is the outermost one, and none is found exactly when there is none |
| UserDb.SqliteUserDb.InsertRootDir | core/vca/sqlite_userdb.cpp:96-105 | on success table, map and counter take the new root; on failure nothing changes; an error of SQLite if and only if it has broken off one more statement |
| UserDb.SqliteUserDb.Create | core/vca/sqlite_userdb.cpp:157-197 | on success roots rebuilt with table and map inverse to each other, files and mappings empty, words and the two other counters kept; on failure the tables roll back, and the map has the first roots of the loop with consecutive ids, as many as the counter has moved, or nothing changed; an error of SQLite if and only if it has broken off one more statement or the commit |
| UserDb.SqliteUserDb.AddRootDir | core/vca/sqlite_userdb.cpp:199-211 | a known root is a no-op; else the new root, with map and counter ahead of the tables when only the commit fails; an error of SQLite if and only if it has broken off one more statement or the commit |
| UserDb.SqliteUserDb.RemoveRootDir | core/vca/sqlite_userdb.cpp:213-225 | an unknown root is a no-op; else the root and all below it go, with the map ahead when only the commit fails; an error of SQLite if and only if it has broken off one more statement or the commit |
| UserDb.SqliteUserDb.AddWord | core/vca/sqlite_userdb.cpp:252-274 | one word: its mapping, and a row for it if it has none; the counter moves by one exactly for a new word, refused or not; an error of SQLite if and only if it has broken off one more statement |
| UserDb.SqliteUserDb.UpdateFile | core/vca/sqlite_userdb.cpp:227-279 | the whole transaction or nothing; the file counter moves exactly when the commit is reached; no id the word counter passed was taken, but for the last one of a refusal; every cached answer stays the answer a fresh search gives; an error of SQLite if and only if it has broken off one more statement or the commit |
| UserDb.SqliteUserDb.RemoveFile | core/vca/sqlite_userdb.cpp:281-293 | deletes by relative path under every root, or nothing; an error of SQLite if and only if it has broken off one more statement or the commit |
| UserDb.SqliteUserDb.MoveFile | core/vca/sqlite_userdb.cpp:295-311 | moves all rows with the old relative path, or nothing; an error of SQLite if and only if it has broken off one more statement or the commit |
| UserDb.SqliteUserDb.Collect | core/vca/sqlite_userdb.cpp:326-341 | one query adds the results of exactly the rows the join keeps, and ends with an error if and only if SQLite has broken it off |
| UserDb.SqliteUserDb.FreshSearch | core/vca/sqlite_userdb.cpp:322-348 | without the cache: the matches of all words, strictly ascending, or an error if and only if SQLite has broken off a query |
| UserDb.SqliteUserDb.Search | core/vca/sqlite_userdb.cpp:313-352 | with the cache: the same answer, from a hit or not; an error if and only if SQLite has broken off a query, and it leaves all as it was; a query that is stored, in one order with the keys so far, is answered without a statement |
| Sessions.Perform | core/vca/sqlite_userdb.cpp:157-352 | any call in any valid state does what Step says of it, and ends with an error of SQLite if and only if SQLite has broken off a statement or the commit |
| Sessions.Session | core/vca/sqlite_userdb.cpp:157-352 | every run of calls over any consistent database: in every state the tables are consistent, every search that ends answers as if there were no cache, and as many calls end with an error of SQLite as it has broken off statements, so none if it breaks off none |
| Sessions.FaultlessCalls | core/vca/sqlite_userdb.cpp:157-352 | where SQLite has broken off nothing, every call ends well, for want of a root, or by a constraint |
| Refinement.IndexingSucceeds | core/vca/sqlite_userdb.cpp:227-279 | with the root map in step, update_file succeeds if and only if no counter hands out an id in use |
| Refinement.RestartRefusesNewWords | core/vca/sqlite_userdb.cpp:131-132 | after create over kept words, a file with a new word is refused while a kept word has id 0 |
| Refinement.TakenStep | core/vca/sqlite_userdb.cpp:227-279 | no call puts an id in the way of the word counter, and a refusal by a word id takes exactly one out of its way |
| Refinement.RefusalsBounded | core/vca/sqlite_userdb.cpp:130-132 | in any session no more updates are refused by a word id than there were words kept |
| Refinement.RefusedUntil | core/vca/sqlite_userdb.cpp:250-275 | over words kept with the ids below n, an update with a new word is refused if and only if the counter is below n, and a refusal moves it by one |
| Refinement.HealthyStep | core/vca/sqlite_userdb.cpp:96-311 | every call keeps tables consistent, roots and root map inverse, counters above all ids, and is refused by no constraint, unless a root change or create is rolled back; failed commits of file calls are included |
| Refinement.HealthyRun | core/vca/sqlite_userdb.cpp:96-311 | so it is in every state of every run from empty tables |
| Refinement.FaultlessRun | core/vca/sqlite_userdb.cpp:116-352 | from empty tables, while SQLite breaks off nothing, a call fails if and only if a path it is about has no root, and with un-nested roots any other does to the relation of paths and words what it means |
| Refinement.SyncExact | core/vca/sqlite_userdb.cpp:199-225 | a root change keeps table and map in step if and only if its commit does not fail |
| Refinement.MeansUpdate | core/vca/sqlite_userdb.cpp:227-279 | in terms of path and words alone: exactly one path gets exactly the given words |
| Refinement.UpdateStores | core/vca/sqlite_userdb.cpp:241-248 | the one row at the path has the fingerprint of the call, and every other row is an old one |
| Refinement.MeansRemove | core/vca/sqlite_userdb.cpp:281-293 | exactly one path goes, if and only if no other root holds its relative path |
| Refinement.MeansMove | core/vca/sqlite_userdb.cpp:295-311 | exactly one path is renamed, if and only if no other root holds the old relative path and an indexed target adds no word |
| Refinement.MeansRoots | core/vca/sqlite_userdb.cpp:157-225 | create empties the index, adding a root changes nothing in it, removing one drops what is below it |
| Refinement.CallMeans | core/vca/sqlite_userdb.cpp:157-352 | any call made while roots are un-nested and in step does to the relation of paths and words what it means, and a failed one does nothing |
| Refinement.RunRefines | core/vca/sqlite_userdb.cpp:157-352 | every call of every such run does to the relation of paths and words what it means, and a failed one does nothing, commits that fail included |
| UserConfigs.MinimalUnnested | core/vca/config.cpp:65-87 | the minimal roots are un-nested, and are all the roots if and only if these were un-nested |
| UserConfigs.NormalizeCovers | core/vca/config.cpp:65-87 | every root is kept or below exactly one kept root, and no path loses or changes the root it resolves to |
| UserConfigs.UserConfig.Normalize | core/vca/config.cpp:65-87 | keeps exactly the minimal roots |
| UserConfigs.UserConfig.Read | core/vca/config.cpp:105-127 | the minimal ones of the listed roots that exist and are absolute; without a document the old roots, and with a bad entry the valid ones before it, not normalised |
| UserConfigs.ReadIsUnnested | core/vca/config.cpp:105-127 | what is read to its end is un-nested |
| UserConfigs.ReadExact | core/vca/config.cpp:105-127 | a root is left if and only if it is listed, absolute and there, and no other such is above it; with a bad entry, those listed before the first one; without a document, the old ones |
| UserConfigs.UserConfig.Populate | core/vca/config.cpp:129-139 | adds the documents directory if it exists, else its parent if that exists, else fails and changes nothing |
| UserConfigs.PopulateNests | core/vca/config.cpp:129-139 | populating keeps roots un-nested if and only if the added one is neither above nor below another |
| RootSteps.HeldStep | core/vca/sqlite_userdb.cpp:199-225 | what every call, however it ends, does to the roots in memory and in the table, how it can end, and that both stay numbered alike |
| RootSteps.InSyncExact | core/vca/sqlite_userdb.cpp:199-225 | table and map are inverse to each other if and only if they have the same roots |
| RootSteps.CreatedHeld | core/vca/sqlite_userdb.cpp:157-197 | create leaves map and table with exactly the given roots |
| RootSteps.ShutOutExact | core/vca/sqlite_userdb.cpp:199-225 | a root comes to be in the table but not in memory by the failed commit of its removal and by nothing else; adding it is refused |
| RootSteps.ShutOutForever | core/vca/sqlite_userdb.cpp:199-225 | so it is in every later state of every run without create |
| Reconciliation.CompletedExact | daemon/src/file_watcher.cpp:133-169 | workers and roots after two complete passes from any state, equal in either order of the observers |
| Reconciliation.RestoresExact | daemon/src/file_watcher.cpp:133-169 | if SQLite breaks off no call, all agree afterwards if and only if map and table agree about each configured root, and both passes are complete if and only if no configured root is shut out |
| Reconciliation.AgreesExact | daemon/src/file_watcher.cpp:133-169 | from equal roots all agree afterwards if and only if all calls are done |
| Reconciliation.NeverNested | daemon/src/file_scanner.cpp:126-162 | when memory and table agree on un-nested roots, and the new roots are neither above nor below a root the first observer does not work on, neither memory nor table nests roots after any call of either pass, whatever fails |
| Reconciliation.NestsExact | daemon/src/file_scanner.cpp:126-162 | a completed first pass leaves roots above others if and only if a new root is above or below one that observer does not work on |
| Reconciliation.SharedKept | daemon/src/file_scanner.cpp:126-162 | whatever fails, a root both observers work on is in memory |
| Reconciliation.NothingToDo | daemon/src/file_scanner.cpp:126-162 | a pass over roots that are as they are to be fails in no call and changes no root |
| Daemon.Observer.UserConfigChanged | daemon/src/file_scanner.cpp:126-162 | the calls on the database are the planned removals, then additions, up to the first that fails; workers and database are what exactly these calls leave |
| Daemon.Observer.DropTrash | daemon/src/file_scanner.cpp:129-143 | removes the roots of the workers outside the configuration, in path order, up to the first call that fails; that worker is dropped too |
| Daemon.Observer.AddNew | daemon/src/file_scanner.cpp:144-161 | adds the missing roots in path order, up to the first call that fails, and starts their workers but for those that throw |
| Daemon.Daemon.Start | daemon/src/daemon.cpp:58-63 | succeeds if and only if there are roots to start with and create is done; then these are the roots of the file, or the populated ones, in memory and in the table |
| Daemon.Daemon.Notify | core/vca/config.cpp:173-177 | both observers in either order, the second only when the first did not throw |
| Daemon.Daemon.TellBoth | core/vca/config.cpp:174-177 | two passes one after the other, each from the state the one before left, over one chain of calls |
| Daemon.Daemon.Handle | daemon/src/daemon.cpp:108-111 | one command, to its end or to its exception: from any state of the daemon to the state it goes on from, with every call on the database |
| Daemon.HandledSound | core/vca/config.cpp:164-206 | every command, however it ends, keeps a root both observers work on in memory, and the roots last told of un-nested |
| DaemonLife.ChangeExact | daemon/src/file_watcher.cpp:133-169 | what a change with all calls done leaves, from any state and in either order: workers, roots in memory, roots in the table |
| DaemonLife.ChangeRestoresExact | daemon/src/file_watcher.cpp:133-169 | whatever went wrong before, a change that SQLite does not break off makes all agree again if and only if memory and table agree about each configured root |
| DaemonLife.ChangeAgreesExact | daemon/src/file_watcher.cpp:133-169 | from equal roots a change leaves agreement if and only if all its calls are done |
| DaemonLife.ChangeSameExact | daemon/src/file_watcher.cpp:133-169 | and all four sets equal again if and only if moreover no constructor for a missing root throws |
| DaemonLife.ChangeNeverNests | daemon/src/file_scanner.cpp:126-162 | when memory and table agree on un-nested roots, and the new roots are clear of those the first observer does not work on, no roots are nested in the state after any call of a change, whatever fails |
| DaemonLife.ChangeNestsExact | daemon/src/file_scanner.cpp:126-162 | and, when the first pass is complete, if and only if they are clear |
| DaemonLife.LostScannerNests | daemon/src/file_scanner.cpp:150-161 | the scanner for root /a could not be built; the change to /a/b, told to the scanner first, passes through a state with both roots |
| DaemonLife.LifeSound | core/vca/command_queue.cpp:22-30 | every state of every life is sound, whatever has failed |
| DaemonLife.LifeChain | core/vca/command_queue.cpp:22-30 | the calls of a life are one run of the database, without create |
| DaemonLife.ShutOutDisagrees | core/vca/sqlite_userdb.cpp:213-225 | once a root is shut out it stays so, and no configuration with it is ever agreed on for as long as the daemon lives |
| DaemonLife.CalmLife | daemon/src/file_watcher.cpp:133-169 | over any life in which SQLite breaks off no call of a change, in every state memory and table have the same roots, workers are for configured roots and these are among them, whatever constructors throw and whatever file commands fail |
| DaemonLife.FaultlessLife | core/vca/command_queue.cpp:22-30 | so it is in every state of a life in which SQLite breaks off nothing |
| DaemonLife.TidyLife | core/vca/command_queue.cpp:22-30 | after changes without failing calls or missing workers, and any file commands, failed or not, all four sets are equal, and the next command nests no roots after any call, even if it fails |
| DaemonLife.TidyLifeMeans | core/vca/command_queue.cpp:22-30 | and a file command then does to the relation of paths and words what it means, or nothing if it fails |
| DaemonLife.FirstRound | daemon/src/daemon.cpp:94-98 | once the database is created, the observers find nothing to do in it and start-up fails no further |
| DaemonLife.Launch | daemon/src/daemon.cpp:58-98 | start-up from any kept tables: it succeeds if and only if there are roots to start with and create is done; which roots and workers it ends with, and every call it makes |
| DaemonLife.Serve | daemon/src/daemon.cpp:108-111 | all commands, in any order, each to its end or to its exception, as one life |
| DaemonLife.Live | daemon/src/daemon.cpp:58-119 | a whole life from start-up through all commands: the states and calls of which the lemmas on lives speak; as many calls end with an error of SQLite as it has broken off statements; if it breaks off none, the daemon starts if and only if there are roots to start with, and memory, table, configuration and workers agree at the end |
| FileEvents.UpdateInStep | daemon/src/file_watcher.cpp:50-65 | after the command of an Add or Modified event, however it ends, the tables and the disk agree about the path if and only if it is a file that was indexed before or now, or none and not indexed |
| FileEvents.RemovedPaths | core/vca/sqlite_userdb.cpp:281-293 | a successful remove_file takes exactly the paths with that relative path under their own root |
| FileEvents.MovedPaths | core/vca/sqlite_userdb.cpp:295-311 | a successful move_file takes exactly the paths with the old relative path, and its target is indexed when source or target was |
| FileEvents.RemovedExact | core/vca/sqlite_userdb.cpp:281-293 | a successful remove_file leaves exactly the documents that do not have that relative path under a root, with their words |
| FileEvents.MovedExact | core/vca/sqlite_userdb.cpp:295-311 | after a successful move_file the target has its words and those of all documents with the old relative path, these are gone, and any other is as it was |
| FileEvents.AddedExact | daemon/src/file_watcher.cpp:50-65 | on a healthy database, if SQLite breaks off nothing, a file added or modified below a root has exactly its words after the event; else nothing changes |
| FileEvents.DeletedExact | daemon/src/file_watcher.cpp:66-75 | a file that is there goes, with all of its relative path; one that is gone stays indexed |
| FileEvents.RenamedExact | daemon/src/file_watcher.cpp:76-97 | an old file that is gone goes from the index; if it and the new one are there, both below roots, the new one takes over the documents of that relative path; else nothing changes |
| FileEvents.OnEvent | daemon/src/file_watcher.cpp:41-101 | an event and its command over any such database are what the lemmas on events speak of |
| FileEvents.DeleteInStep | daemon/src/file_watcher.cpp:66-75 | after a Delete event they agree if and only if no call succeeded and they agreed before |
| FileEvents.RenameInStep | daemon/src/file_watcher.cpp:76-97 | after a Moved event they agree about both paths exactly under the stated condition on the tables before, rows under other roots included |
| UndoRedo.GoodSetValue | desktop/src/qtc/NodeBase.cpp:57-71 | an edit keeps the invariant: stacks within 100, changes of actionable nodes and of their type, store reloading to the live values, when no persistent path is another one or below it |
| UndoRedo.EditSets | desktop/src/qtc/NodeBase.cpp:57-71 | in any state an edit gives the node the value, whatever its flags, and changes no other node, no redo stack and no flag of the model |
| UndoRedo.EditRecords | desktop/src/qtc/Model.cpp:220-243 | a change is recorded if and only if it is one of an actionable node after initialize, not made by undo or redo: in the open group, or as the newest of at most 100 actions |
| UndoRedo.EditStores | desktop/src/qtc/Model.cpp:245-257 | the store changes if and only if a persistent node does after initialize: the value at its path, or, for the default, nothing there and below it; all else stays |
| UndoRedo.StoredReloads | desktop/src/qtc/Model.cpp:245-257 | writing a changed value, or removing a default with all that is stored below it, keeps every persistent node equal to what the store gives for it |
| UndoRedo.GoodUndo | desktop/src/qtc/Model.cpp:165-187 | undo keeps the invariant |
| UndoRedo.GoodRedo | desktop/src/qtc/Model.cpp:189-210 | redo keeps the invariant |
| UndoRedo.InitializeIsGood | desktop/src/qtc/Model.cpp:108-144 | initialize establishes it |
| UndoRedo.InitializeExact | desktop/src/qtc/Model.cpp:108-144 | every node, persistent or not, has the stored value at its path if there is one that converts, and else its default; nothing is recorded or stored, and a second call does nothing |
| UndoRedo.RestartRestores | desktop/src/qtc/Model.cpp:108-144 | a model built anew over the same store has the live value of every persistent node |
| UndoRedo.SharedPathExact | desktop/src/qtc/Model.cpp:247-256 | an edit keeps the store reloading to the live values if and only if every other persistent node with that path, and for a removed setting every one below it, has the value it then loads |
| UndoRedo.ResetLosesBelow | desktop/src/qtc/Model.cpp:245-257 | from any state: give a persistent node and one below it values that are not the default, and reset the upper one; then the lower one reloads to its default |
| UndoRedo.PathsCanMeet | desktop/src/qtc/Model.cpp:247-248 | two different nodes can have one settings path, and one can lie below another, even of one endpoint |
| UndoRedo.PathJoins | desktop/src/qtc/Model.cpp:118-118 | the segments of a path are those of the endpoint, then those of the name, wherever slashes are |
| UndoRedo.SegmentsPlain | desktop/src/qtc/Model.cpp:118-118 | a text without slashes is one segment, or none if it is empty |
| Models.LimitActions | desktop/src/qtc/Model.cpp:13-21 | the newest 100 actions, in order |
| Models.Model.StartAction | desktop/src/qtc/Model.cpp:146-153 | opens a group unless one is open |
| Models.Model.EndAction | desktop/src/qtc/Model.cpp:155-163 | an open group becomes the newest action |
| Models.Model.TrackValueChange | desktop/src/qtc/Model.cpp:220-258 | before initialize nothing; after it a change of an actionable node joins the open group, or becomes an action of its own, unless changes are ignored, and a persistent node is written to the store, or removed from it, with all that is below it, when it has its default |
| Models.Model.SetValue | desktop/src/qtc/NodeBase.cpp:57-71 | the node has the value and no other node changes; what is recorded and stored is as tracking says; a node that is not persistent leaves the store, and one that is not actionable the stacks and the open group, as they were |
| Models.Model.AssignDefault | desktop/src/qtc/NodeBase.cpp:73-77 | the same with the default value |
| Models.Model.Initialize | desktop/src/qtc/Model.cpp:108-144 | every node has the value loaded for it, in any order of the nodes, and changes are recorded from then on |
| Models.Model.TakeBack | desktop/src/qtc/Model.cpp:176-184 | the old values, last change first |
| Models.Model.Repeat | desktop/src/qtc/Model.cpp:199-207 | the new values, first change first |
| Models.Model.Undo | desktop/src/qtc/Model.cpp:165-187 | closes an open group; takes the newest action off the undo stack, assigns its old values with recording off, last change first, and makes it the newest on the redo stack; both stacks keep the newest 100 |
| Models.Model.Redo | desktop/src/qtc/Model.cpp:189-210 | takes the newest action off the redo stack, assigns its new values with recording off, first change first, and makes it the newest on the undo stack; an open group stays open |
| UndoHistory.BackwardForward | desktop/src/qtc/Model.cpp:176-184 | taking back the changes of an action in reverse undoes making them in order |
| UndoHistory.UndoEffect | desktop/src/qtc/Model.cpp:165-187 | the values of the actionable nodes go back through the action, the stacks exchange it, and no other node changes |
| UndoHistory.RedoEffect | desktop/src/qtc/Model.cpp:189-210 | the same forward |
| UndoHistory.EditOn | desktop/src/qtc/NodeBase.cpp:57-71 | an edit takes the stacks along the timeline: it ends an action or joins the group, and nothing lies ahead of it |
| UndoHistory.UndoOn | desktop/src/qtc/Model.cpp:165-187 | undo follows the timeline back |
| UndoHistory.RedoOn | desktop/src/qtc/Model.cpp:189-210 | redo follows it forward, if what is on the stack lies ahead |
| UndoHistory.Run | desktop/src/qtc/Model.cpp:108-258 | every state of every run of calls has the invariant; the nodes differ in nothing but values |
| UndoHistory.RunFollows | desktop/src/qtc/Model.cpp:146-243 | through every run without redo of an action an edit has come after, the model follows an independent timeline of values |
| UndoHistory.RewindsRun | desktop/src/qtc/Model.cpp:165-187 | after any such run with no group open, n undos rewind the actionable nodes to their values n actions ago, for every n up to the actions kept, and touch no other node |
| UndoHistory.RewindsFromStart | desktop/src/qtc/Model.cpp:108-187 | so it is for a newly built and initialized model from its first call on |
| UndoHistory.ReplaysKeepOthers | desktop/src/qtc/Model.cpp:165-210 | no sequence of undos and redos changes a node that is not actionable |
| UndoHistory.UndoThenRedo | desktop/src/qtc/Model.cpp:165-210 | undo then redo leaves every node as it was |
| UndoHistory.RedoThenUndoExact | desktop/src/qtc/Model.cpp:189-210 | redo then undo does if and only if each node the action touches has the value the action started from |
| UndoHistory.StaleRedoLosesEdit | desktop/src/qtc/Model.cpp:228-243 | edit, undo, edit, redo, undo from any live state with no open group: the node has the second value before the redo and the original one after, because an edit does not clear the redo stack |
| ThreadPools.OrderlyKept | desktop/src/qtc/ThreadPool.cpp:49-93 | every step keeps the order: what was pushed is what was popped followed by the queue |
| ThreadPools.AttendedKept | desktop/src/qtc/ThreadPool.cpp:49-108 | every step keeps: a task in the queue has an awake worker or a notification to come, and after done every sleeper a wake-up to come |
| ThreadPools.DrainedKept | desktop/src/qtc/ThreadPool.cpp:70-93 | every step keeps: once all workers have left, the queue holds only pushes that came after that |
| ThreadPools.ConservedKept | desktop/src/qtc/ThreadPool.cpp:49-93 | every step keeps, for every task, how often it was pushed from outside or by a task equal to how often it has run, is being run or waits |
| ThreadPools.RunsStayValid | desktop/src/qtc/ThreadPool.cpp:49-108 | all of this holds in every state of every interleaving |
| ThreadPools.DrainExact | desktop/src/qtc/ThreadPool.cpp:70-108 | when all workers have left, every task has run as often as it was pushed, but for the late ones, and left the queue in the order of the pushes |
| ThreadPools.AllRunExact | desktop/src/qtc/ThreadPool.cpp:95-108 | all has run if and only if no outside push came after the last worker left |
| ThreadPools.LateIsLost | desktop/src/qtc/ThreadPool.cpp:49-57 | such a late push is never run, whatever follows |
| ThreadPools.StuckExact | desktop/src/qtc/ThreadPool.cpp:75-80 | no state is stuck but the final ones and those that wait for work with an empty queue |
| ThreadPools.MeasureFalls | desktop/src/qtc/ThreadPool.cpp:49-108 | every step the pool takes by itself makes a measure smaller, and a spurious wake-up makes it larger by one |
| ThreadPools.RunsEnd | desktop/src/qtc/ThreadPool.cpp:95-108 | so without further pushes the number of steps is bounded by the measure at the start and the spurious wake-ups |
| ThreadPools.ShutdownCompletes | desktop/src/qtc/ThreadPool.cpp:95-108 | a run after shutdown that goes on as long as it can ends with all workers gone and everything run that was pushed in time |
| ThreadPools.ThreadPool.constructor | desktop/src/qtc/ThreadPool.cpp:16-42 | as many workers as asked for, empty queue, not done |
| ThreadPools.ThreadPool.PushOutside | desktop/src/qtc/ThreadPool.cpp:49-57 | the task is last in the queue, its notification is still owed, and no worker changes |
| ThreadPools.ThreadPool.PushFrom | desktop/src/qtc/ThreadPool.cpp:49-57 | the next task of the running one is last in the queue, and that worker owes the notification |
| ThreadPools.ThreadPool.NotifyOne | desktop/src/qtc/ThreadPool.cpp:56-56 | the debt is settled and one waiting worker, if there is one, goes back to the check of its condition |
| ThreadPools.ThreadPool.WorkerLocked | desktop/src/qtc/ThreadPool.cpp:73-82 | with an empty queue the worker waits, or leaves when done is set; else it takes the front task off the queue and runs it |
| ThreadPools.ThreadPool.TaskReturns | desktop/src/qtc/ThreadPool.cpp:83-91 | the task is over and the worker goes back to its loop |
| ThreadPools.ThreadPool.ShutdownLocked | desktop/src/qtc/ThreadPool.cpp:97-101 | done is set, the notification still to come |
| ThreadPools.ThreadPool.NotifyEveryone | desktop/src/qtc/ThreadPool.cpp:102-102 | wakes all waiting workers |
| Asyncs.StepsRefine | core/vca/async.h:47-52 | a push that notifies under the lock is two steps of the other pool with nothing between |
| Asyncs.RunRefines | core/vca/async.cpp:44-77 | every run of this pool is a run of the other one |
| Asyncs.QueueIsAttended | core/vca/async.h:47-52 | in every reachable state a task in the queue has an awake worker until all have left |
| Asyncs.PushInline | core/vca/async.h:43-46 | without threads a push runs the task, and what it pushes, at once |
| Asyncs.InlineNested | core/vca/async.h:43-46 | a task returns last, after all that it has pushed, and these in the order of the pushes |
| Asyncs.InlineAllTimes | core/vca/async.h:43-46 | and so each task as often as it is pushed |
| Asyncs.ThreadsDoNotMatter | core/vca/async.h:16-18 | a pool with threads that has shut down has run the same tasks as often as one without |
| Texts.Classes | core/vca/string.cpp:268-282 | no CJK character is special, an end of line or a delimiter, and no delimiter is any of those |
| Texts.BreaksExact | core/vca/string.cpp:271-285 | of ASCII a word ends exactly at punctuation, white space and U+0001; beyond it at the listed marks and at CJK characters |
| Texts.ReplaceAll | core/vca/string.cpp:145-155 | each of the characters is replaced, and no other |
| Texts.Split | core/vca/string.cpp:157-163 | the pieces between delimiters that are not empty |
| Texts.TrimString | core/vca/string.cpp:165-172 | the text without the trimmed characters at both ends |
| Texts.TakeCjk | core/vca/string.cpp:274-282 | the CJK words in order, each U+0001 and the character, and the line with spaces for them |
| Texts.Tokenize | core/vca/string.cpp:268-306 | the CJK words, then the kept runs between breaks: a definition without the passes over the line |
| Texts.BlankedPieces | core/vca/string.cpp:271-285 | splitting the line after all replacements is splitting the text at every break |
| Texts.TokensJoin | core/vca/string.cpp:268-306 | the tokens of two texts with a space between: the CJK words of both, then the other words of both |
| Texts.OtherWordExact | core/vca/string.cpp:287-303 | a run without breaks, trimmed, is a word if and only if it has 2 to 32 characters and is no number |
| Texts.OtherWordsJoin | core/vca/string.cpp:284-303 | no word goes over a break, so that the words of every text are determined |
| Texts.CjkWordsExact | core/vca/string.cpp:274-282 | every CJK character is a word, with U+0001 before it, and no other character is part of one |
| Texts.TrimTwice | core/vca/string.cpp:165-172 | trimming again changes nothing |
| Texts.TrimExact | core/vca/string.cpp:165-172 | what is between the trimmed characters at both ends is left, all of it |
| Texts.OtherWordShape | core/vca/string.cpp:284-303 | every other word has 2 to 32 characters, none special, an end of line, a space, U+0001 or CJK, is trimmed and no number |
| Texts.TokensFixed | core/vca/string.cpp:268-306 | every word of a text is the only word of itself |
| Texts.TokensAgain | core/vca/string.cpp:268-306 | tokenizing the words joined with spaces gives the same words in the same order |
| Entities.ReplaceAllIn | core/vca/string.cpp:184-184 | one pass: left to right, not looking again at what was put in |
| Entities.XmlUnescape | core/vca/string.cpp:174-186 | the five passes in the order of the map |
| Entities.EntitiesExact | core/vca/string.cpp:174-186 | between plain texts each of the five entities becomes its character, the ampersand if no other name follows it |
| Entities.UnescapeShortens | core/vca/string.cpp:174-186 | never longer, and unchanged without an ampersand |
| Entities.UnescapedHasNone | core/vca/string.cpp:174-186 | the result has none of the four entities other than the ampersand, although the first pass can make new ones |
| Entities.UnescapedAmpExact | core/vca/string.cpp:174-186 | it has the entity for the ampersand if and only if the text has it escaped twice |
| Entities.PassTakesBack | core/vca/string.cpp:182-185 | the pass for one entity takes back exactly its escapes |
| Entities.RoundTripExact | core/vca/string.cpp:174-186 | unescaping takes escaping back if and only if the text had none of the four other entities |
| Xmls.ScanFinds | core/vca/string.cpp:199-218 | a call of next before the end moves on, and stops at the first < after a >, with the text before it but for its last byte, or at the end when there is none |
| Xmls.SlicesExact | core/vca/string.cpp:199-223 | the calls on a document cut out exactly the texts of at least two bytes between tags |
| Xmls.SlicesAscend | core/vca/string.cpp:199-223 | slices of later calls come after those of earlier ones, with tags between |
| Xmls.LinesExact | core/vca/string.cpp:245-252 | the lines that are not empty are those of the slices, in order |
| Xmls.GatherExact | core/vca/string.cpp:245-262 | the result joins the first lines up to the one with which four bytes for each character reach the limit, or all lines |
| Xmls.TagContentExact | core/vca/string.cpp:243-266 | the result is what the first lines give, up to the limit, unescaped once more |
| Xmls.SliceLinesExact | core/vca/string.cpp:223-248 | each text between tags is decoded, unescaped and then trimmed; what cannot be decoded is nothing |
| Xmls.EmptyLinesJoinNothing | core/vca/string.cpp:249-252 | lines that are empty add nothing |
| Xmls.JoinExact | core/vca/string.cpp:254-261 | a line with a hyphen at the end goes on without it, any other gets a space |
| Xmls.HyphenJoins | core/vca/string.cpp:254-257 | a word broken at the end of a line is put together |
| Xmls.JoinedLinesSplit | core/vca/string.cpp:258-261 | lines that are not empty, without spaces and hyphens at the end, are given back in order by splitting the result at spaces |
| Xmls.XMLParser.Next | core/vca/string.cpp:199-236 | the index stops where the scan does, the text is what was cut out, decoded and unescaped, or empty if it is no text, and before the end the index moves on |
| Xmls.Append | core/vca/string.cpp:249-261 | joins a line to what there is: without its hyphen, or with a space |
| Xmls.XmlTagContent | core/vca/string.cpp:238-266 | ends for every document; the lines joined, until four bytes for each character reach the limit, and unescaped once more |
| Xmls.TagContentIsShort | core/vca/string.cpp:238-266 | given a decoder that does not lengthen, the result is no longer than the document |

## Left out

- SQLite itself, the LIKE operator, CRC32, the conversion from UTF-8 and the number parser: parameters of the model, with no
  more than is said of them (a hash is a function of the bytes fed to it; a decoder may be assumed not to lengthen; of LIKE
  `Index.SearchFinds` assumes what it does with a word without wildcards between percent signs).
- Symbolic links, canonical forms and Windows prefixes: an absolute path is a sequence of components. The strings in which the
  tables store paths are the paths themselves.
- The width of the id counters and of the XML index (signed 32 bits in the program): both are unbounded here.
- The time of the last file update, and the check for a path without a fingerprint in update_file.
- Databases opened for reading only. Beginning a transaction, and the five statements by which create makes tables, count as
  one with the statement after or among them.
- QSettings: one store of paths and values, which keeps a value as it is given. Fallback to settings of other scopes, the
  folding of case on some systems, the reading of backslashes as slashes, and the assertion Qt makes for a path that has
  nothing but slashes are not modelled.
- Parsing and writing of the configuration file: a document is the list of its entries, or nothing when reading or parsing
  fails. Populating also writes the file, which is not part of this model.
- Both command queues, and the signal that ends main's loop: what is proved of the daemon holds for commands in any order, and
  for every number of them. Lifetimes of the scanners and watchers that queued commands refer to: a command pushed by an
  observer's worker is a call on the database even if the worker is gone when it runs.
- What destructors do when a change or start-up throws: the worker is gone from the map, and the database is as its calls left it.
- Listeners that set values themselves, views, handlers' commands and the rest of the Qt program; nodes are a map from
  endpoint and name to value, default and flags, so the objects and their addresses are not modelled.
- Tasks that throw anything but a std::exception, which ends the program; starting fewer threads than asked for, and the
  unlocked test for an empty list of threads in async.h.
- Start-up before the configuration and after the observers: the file processor, the HTTP server and the writing of app.json.
- HTTP, REST, logging, file locks, archives, PDF, the other tokenizers, and the case mapping tables.
- UserDb.SqliteUserDb.UpdateFile: after an error of SQLite the word counter has moved on by any number up to that of the new
  words, as far as the ids are free, since the error may come at any statement; each of these numbers is possible.
- SearchCaches.SearchCache.Find: may miss a stored key when two of the keys put in since the map was empty are each less than
  the other, since a map over an order that is no order promises nothing else.
- Models.Model.Initialize: a stored value that does not convert counts as the default, as in a build without assertions.
- Xmls.TagContentIsShort: bounds the characters of the result, not the bytes they would take when encoded again.
