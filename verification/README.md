# Verification of P2P_NET_Start's cache, insert engine and wrapping counters

A Dafny model of the three parts of the program that carry its algorithms, with proofs of what
they keep over whole runs. `dafny verify dfyconfig.toml` checks everything.

## The recency cache

`CCache<T>` keeps its items twice: in a storage list, newest first, and in hash buckets that hold
iterators into that list. `CacheModel` is the state and its operations as values, `CacheSteps` what
one operation does, `CacheRuns` and `CacheOperations` what any run does, `CacheShift` why a cleared cache
is as good as a new one, `CacheCopies` how an item comes to be stored twice, and `RecencyCache` the class
itself, whose methods and loops are proved against `CacheModel`.

An item is an identity, compared by `==`, and a payload; the hash key is any function of the
identity, negative values included. *Agreement* means: every bucket is the subsequence of the
storage list whose keys hash to it, identities are unique, and the counter is the length.

The eviction needs two readings. In `update`, `item_list` is a reference, so the assignment in the
overflow branch copies the victim's bucket over the new item's bucket; the comments say that the
victim should leave its own bucket. The model has both as one function with a different destination
(`AsWritten`, `Intended`):

- about the update **as written**: `AsWrittenKeepsIff`, `UnlinksIff`, `CrossBucket`, `CrossBucketLookup`,
  `ReadBack`, `AsWrittenRunIff`, `LinkedRunIff`, `FewIdentities`, `LimitHoldsIff`, `CrossBucketExample`,
  `ShrunkExample`, everything in `CacheOperations`, `CacheShift` and `CacheCopies`, and the class;
- about the **intended** update: `UpdateRefines`, `RunIsRecent`, `LookupAfterRun`, `StackInclusion`,
  `ClearedIsFresh`, `IntendedLimitIff`.

They are the same step exactly while no eviction crosses buckets. An eviction across buckets, and no
other update, leaves the erased node in a bucket (`UnlinksIff`). The source reads such a node only
when a scan gets to it, so what is *defined* is a matter of the one scan: `LookupDefined` and
`UpdateDefined` ask that the nodes this call reads be linked, and the class methods require no more.
`CrossBucketLookup` says for every identity whether its lookup is then defined and what it answers. The
new item itself is not found, so its next update stores it a second time (`SecondUpdateCopiesIff`), and
a full cache can end up holding copies of one identity that it never finds (`CopiesFillStorage`).

The documentation calls the size the maximum number of items. The code holds one less, and a cache
shrunk below its contents never comes down to its limit (`LimitHoldsIff`, with `ShrunkExample`).

## The observed insert

`sqllite_insert` takes a lock, finds the watched table, reads its sequence, allocates an id that
skips multiples of 50, rewrites the statement and its parameters, runs it, tells an observer and
unlocks. `SqlText` is the text and its meaning, `Allocator` the ids, `Store` the tables,
`InsertProtocol` one call as a decision over SQLite's answers, `InsertThreads` any number of threads
step by step, `InsertReplay` what their runs leave behind, `InsertRace` what an insert without the lock
would do, `Engine` the calls as methods over the globals, with a trace of what they lock, run and tell, and
`EngineThreads` that the two agree. `Edits`, `EditThreads` and `EditReplay` add
threads inside `sqllite_delete` and `sqllite_update`.

SQLite is a table of rows by id with an AUTOINCREMENT sequence; whether a query, a prepare or a step
succeeds, is busy or fails is open in every step. A statement means its column list and its value
expressions with each `?` replaced by the bound value. Between the steps of the threads, rows may be
deleted or updated and other tables may change in any way.

The theorems about a watched table assume of its callers, step by step: every insert into it takes
the lock, the slot scan finds that table's own name, a statement with two parentheses has the two-list
shape, and column `id` is left to the engine. Updates keep the ids of the rows: one that moves a row
onto the id a thread holds makes that thread collide (`MovedRowCollidesIff`). Statements with one parenthesis, such as
`insert ... select`, are run as given and append any rows; the closed form of the ids and the replay
assume that there are none on the watched table, and the replay that its inserts are observed. That
every insert takes the lock is needed: `RacingRunCollidesIff` gives the run that collides otherwise.
The scan is by substring, so the second assumption is a real one: `SuffixShadows`
shows that a name registered first shadows every table whose name ends with it,
`ShadowedInsertCollidesIff` when an insert into such a table then fails (the second of two in a row always does,
`ShadowedTwiceCollides`), and `MatchesIff` says exactly
what is found (the pattern with two spaces is built but never tested). The two-space
behaviour and the reported id of one-parenthesis statements follow the code.

Deletions and updates run and tell without the lock, so their notifications can come in another order
than their statements. A replica that follows all notifications can then diverge
(`LateDeletionDiverges`). An edit is any function of the rows of the table that adds no id; the two
histories, of the changes made and of the changes told, are recorded step by step as they happen.
`ScheduleReplaysIff` is the exact condition on the order of the steps: the replica ends with the table
whatever the edits do if and only if, after each insert, the same edits were made and told in the same
order. `DeletionScheduleReplaysIff` is the weaker condition that is exact for deletions.
`DeletionsReplayIff` and `EditsReplayIff` are about edits with a given meaning, row by row. The inserts
alone always replay (`ReplayReproduces`).

## Wrapping counters

`SequenceNumbers` treats `CSeqNo`, `CMsgNo` and `CAckNo` as one arithmetic over the largest number and
the comparison threshold. The header declares the thresholds without a value, so every threshold up
to half the circle is covered. Integers are unbounded in these theorems; the 32-bit evaluation of each
expression is proved separately, step by step.

## Model

| member | source | states |
|---|---|---|
| CacheModel.Slot | P2P_Client_src/include/cache.h:114-118 | the guarded remainder of `lookup` and `update` is the plain remainder that eviction uses |
| CacheModel.Find | P2P_Client_src/include/cache.h:121-129 | the scan stops at the first entry with the identity |
| CacheModel.FindIsMembership | P2P_Client_src/include/cache.h:153-172 | in agreement one bucket scan decides membership in the whole storage list |
| CacheModel.LookupIsMembership | P2P_Client_src/include/cache.h:110-132 | in agreement `lookup` returns exactly the stored item of the identity, and fails exactly if there is none |
| CacheModel.LinkedIsDefined | P2P_Client_src/include/cache.h:120-198 | while every bucket entry is linked, every lookup and every update reads linked nodes only |
| CacheModel.ChainDropLast | P2P_Client_src/include/cache.h:182-198 | removing the oldest node removes the last entry of its own bucket and no other |
| CacheSteps.RefreshKeeps | P2P_Client_src/include/cache.h:156-171 | a hit keeps agreement and moves the item, with its new payload, to the front |
| CacheSteps.PushKeeps | P2P_Client_src/include/cache.h:174-179 | a miss keeps agreement and puts the item in front |
| CacheSteps.VictimIsLast | P2P_Client_src/include/cache.h:183-194 | the evicted item is the last of its bucket and the erase loop finds it there |
| CacheSteps.EvictKeepsIff | P2P_Client_src/include/cache.h:180-200 | an eviction keeps agreement if and only if it rewrites the victim's bucket |
| CacheSteps.UpdateRefines | P2P_Client_src/include/cache.h:141-203 | the intended update keeps agreement and acts on the items as move-to-front with a drop of the oldest |
| CacheSteps.UpdateAsWrittenIs | P2P_Client_src/include/cache.h:141-203 | from any state, agreeing or not, what the update as written leaves in the storage, in the new item's bucket and in the count, for a hit, a miss and an overflow; no other bucket changes |
| CacheSteps.UpdateFrame | P2P_Client_src/include/cache.h:110-203 | from any state an update changes no lookup of another bucket, and unless it evicts the item is found |
| CacheSteps.AsWrittenKeepsIff | P2P_Client_src/include/cache.h:153-200 | the update as written keeps agreement if and only if nothing is evicted or the victim shares the new item's bucket, and then it is the intended one |
| CacheSteps.UnlinksIff | P2P_Client_src/include/cache.h:180-200 | from agreement, the update as written leaves an unlinked node in a bucket if and only if it evicts across buckets; it is the victim, in its own bucket |
| CacheSteps.CrossBucket | P2P_Client_src/include/cache.h:186-194 | after an eviction across buckets the new item's bucket lists the victim's bucket instead |
| CacheSteps.CrossBucketLookup | P2P_Client_src/include/cache.h:110-132 | every lookup after an eviction across buckets: undefined exactly for absent identities of the victim's bucket, and otherwise successful exactly for stored identities outside the new item's bucket |
| CacheSteps.ReadBack | P2P_Client_src/include/cache.h:110-203 | the lookup of an item right after its update as written is always defined, and finds the item exactly if nothing was evicted or another item of its bucket was |
| CacheSteps.ResizeKeepsIff | P2P_Client_src/include/cache.h:212-217 | resizing keeps agreement if and only if no resident key changes its residue |
| CacheSteps.ResizedLookup | P2P_Client_src/include/cache.h:110-132 | after resizing an agreeing cache every lookup is defined and finds a stored item exactly if its key has the same residue under both hash sizes; the items themselves stay |
| CacheSteps.SmallKeysResize | P2P_Client_src/include/cache.h:212-217 | resizing keeps agreement when all keys are below both hash sizes |
| CacheSteps.ClearAgrees | P2P_Client_src/include/cache.h:226-237 | clearing gives an agreeing empty cache from any state |
| CacheRuns.LastUsesExact | P2P_Client_src/include/cache.h:134-139 | the reference list of a trace: exactly the last accepted updates, newest first |
| CacheRuns.RunIsRecent | P2P_Client_src/include/cache.h:110-203 | any run from empty at size N leaves exactly the N-1 most recently updated identities, newest first, with their last payloads |
| CacheRuns.LookupAfterRun | P2P_Client_src/include/cache.h:110-132 | `lookup` after a run succeeds with an item exactly if it is one of the newest N-1 last uses of the trace |
| CacheRuns.StackInclusion | P2P_Client_src/include/cache.h:87-94 | on one trace a smaller cache holds a prefix of a larger one |
| CacheRuns.ClearedIsFresh | P2P_Client_src/include/cache.h:219-237 | no run of intended updates tells a cleared cache from a new one |
| CacheRuns.LimitHoldsIff | P2P_Client_src/include/cache.h:179-217 | any run as written, agreeing or not, stays below the limit if and only if it started below it, and otherwise keeps its length |
| CacheRuns.IntendedLimitIff | P2P_Client_src/include/cache.h:179-217 | the same for the intended update |
| CacheRuns.ShrunkExample | P2P_Client_src/include/cache.h:212-217 | size 3, two items, then size 1: the cache agrees and still holds both |
| CacheRuns.AsWrittenRunIff | P2P_Client_src/include/cache.h:141-203 | a run as written agrees throughout if and only if all its evictions are same-bucket, and then it is the intended run |
| CacheRuns.LinkedRunIff | P2P_Client_src/include/cache.h:180-200 | a run as written keeps every bucket entry linked throughout if and only if all its evictions are same-bucket |
| CacheRuns.FewIdentities | P2P_Client_src/include/cache.h:174-203 | with fewer identities than the size the cache as written meets the specification |
| CacheRuns.CrossBucketExample | P2P_Client_src/include/cache.h:186-200 | two updates at size 2 after which the stored item is not found |
| CacheOperations.MixedRunIff | P2P_Client_src/include/cache.h:110-237 | over any mix of all operations as written, agreement holds throughout if and only if every eviction is same-bucket and every resize moves no resident key |
| CacheOperations.MixedRunRefines | P2P_Client_src/include/cache.h:110-237 | such a run holds what a plain list with a limit holds |
| CacheOperations.MixedLookup | P2P_Client_src/include/cache.h:110-132 | and its lookups are answered by that list |
| CacheOperations.GetAfterCross | P2P_Client_src/include/cache.h:110-203 | after an eviction across buckets a `lookup` is defined unless the identity is absent and hashes to the victim's bucket |
| CacheShift.ClearedIsNew | P2P_Client_src/include/cache.h:87-94 | no run of all operations as written tells a cleared cache, whatever state it was in, from a new one: defined for both or neither, with the same items, count and lookups |
| CacheCopies.SecondUpdateCopiesIff | P2P_Client_src/include/cache.h:153-200 | after an eviction across buckets a second update of the new item's identity is defined and stores it twice, unless it was the only item stored |
| CacheCopies.CopiesFillStorage | P2P_Client_src/include/cache.h:153-200 | in a full agreeing cache whose items are in buckets of their own, any number of updates of one more identity is defined, each evicts the oldest item and adds a copy, none is ever found, and in the end the storage is copies only |
| RecencyCache.Cache.constructor | P2P_Client_src/include/cache.h:87-94 | a new cache is empty and agrees |
| RecencyCache.Cache.Lookup | P2P_Client_src/include/cache.h:110-132 | 0 with the cached item exactly if the identity is stored, else -1 and the item unchanged; no field changes |
| RecencyCache.Cache.Scan | P2P_Client_src/include/cache.h:121-129 | the bucket loop finds the first entry with the identity |
| RecencyCache.Cache.Update | P2P_Client_src/include/cache.h:141-203 | the whole new state of the update as written; agreement is kept if and only if the eviction is same-bucket, and then the items are moved to front with a drop |
| RecencyCache.Cache.EvictOldest | P2P_Client_src/include/cache.h:180-200 | the overflow branch with its assignment through the reference |
| RecencyCache.Cache.SetSizeLimit | P2P_Client_src/include/cache.h:212-217 | new sizes; buckets that keep an index keep their contents, new ones are empty; agreement kept if and only if no residue changes |
| RecencyCache.Cache.Clear | P2P_Client_src/include/cache.h:226-237 | all lists empty, count 0, agreement |
| SqlText.RewritePreserves | P2P_Server_src/db_sqlite.cpp:349-366 | the rewritten statement with the extended parameters means the original row plus column id with the allocated value, in the same table |
| SqlText.PlaceholdersMove | P2P_Server_src/db_sqlite.cpp:349-366 | one placeholder is added behind the second parenthesis; every old one moves five characters and one number and keeps its parameter |
| SqlText.AddedIsFirstIff | P2P_Server_src/db_sqlite.cpp:353-366 | with both parentheses outside quotes, the id goes to the added placeholder if and only if no placeholder precedes the second parenthesis |
| SqlText.RewriteUndone | P2P_Server_src/db_sqlite.cpp:349-362 | taking the two added pieces out of a rewritten statement, of any shape, gives the statement back |
| SqlText.BoundReadsBack | P2P_Server_src/db_sqlite.cpp:423-449 | a bound value reads back as the parameter of its tag, whole, and only a null parameter is null |
| SqlText.SubstAt | P2P_Server_src/db_sqlite.cpp:423-449 | each placeholder is replaced by the parameter of its number and every other character stands for itself |
| SqlText.PlaceholdersAre | P2P_Server_src/db_sqlite.cpp:423-449 | placeholders are exactly the question marks outside quotes |
| SqlText.FieldsJoin | P2P_Server_src/db_sqlite.cpp:349-362 | the fields of a list with commas between them are its text up to the closing parenthesis |
| SqlText.CutAtCommas | P2P_Server_src/db_sqlite.cpp:349-362 | a plain list is cut at every comma |
| SqlText.TargetKept | P2P_Server_src/db_sqlite.cpp:349-362 | the rewrite of any statement keeps its table |
| SqlText.MatchesIff | P2P_Server_src/db_sqlite.cpp:309-320 | a name matches exactly if it stands directly or one space before some parenthesis |
| SqlText.FirstMatchIs | P2P_Server_src/db_sqlite.cpp:310-320 | the scan answers with the first registered name that matches, and with none only if none does |
| SqlText.SuffixShadows | P2P_Server_src/db_sqlite.cpp:310-320 | a name registered first is taken for every table whose name ends with it, directly or one space before the parenthesis |
| Allocator.NextId | P2P_Server_src/db_sqlite.cpp:333-336 | the allocated id is above the sequence and never 0 |
| Allocator.NextIdIsLeast | P2P_Server_src/db_sqlite.cpp:333-336 | it is the least larger number that is not a multiple of 50 |
| Allocator.NthIdStep | P2P_Server_src/db_sqlite.cpp:328-343 | the closed form n + (n-1)/49 follows the code's step from 1 |
| Allocator.NthIdBijection | P2P_Server_src/db_sqlite.cpp:290-343 | the closed form lists the positive non-multiples of 50 in order, each once |
| Allocator.NthIdFits | P2P_Server_src/db_sqlite.cpp:330-336 | up to which count the ids fit the 32-bit column read |
| Store.WithIdRow | P2P_Server_src/db_sqlite.cpp:363-366 | the added column sets the id and leaves the row as it was |
| Store.IdColumnIs | P2P_Server_src/db_sqlite.cpp:349-354 | column id is recognised with any number of spaces around it |
| Store.ZipPairs | P2P_Server_src/db_sqlite.cpp:423-451 | a row pairs column i with value i |
| Store.ExecuteAdds | P2P_Server_src/db_sqlite.cpp:451-452 | an insert fails exactly if its id is taken, and otherwise adds that row alone and lifts the sequence |
| Store.ExecuteGrows | P2P_Server_src/db_sqlite.cpp:451-452 | an insert above the sequence cannot collide, keeps ids strictly increasing and acts alike on the table without its deletions |
| Store.AppendAllGrows | P2P_Server_src/db_sqlite.cpp:363-366 | rows appended with automatic ids keep ids strictly increasing |
| Store.AppendAllAdds | P2P_Server_src/db_sqlite.cpp:363-366 | a selection adds its rows in order under consecutive ids |
| Store.DeleteRemoves | P2P_Server_src/db_sqlite.cpp:550-552 | a deletion removes exactly the given rows |
| InsertProtocol.NotificationContract | P2P_Server_src/db_sqlite.cpp:373-500 | -1 exactly if the statement failed; an observed call that returns 0 notifies once and one that returns -1 never; flag 0 exactly if the step was done, else 2 with the caller's own statement |
| InsertProtocol.ReportedIdIff | P2P_Server_src/db_sqlite.cpp:292-366 | an id is written exactly if it was asked for and the call returns 0; exactly when it is then nonzero, and then it is the allocated id; for two-parenthesis statements nonzero exactly when a rewritten insert was done |
| InsertThreads.PlanAbove | P2P_Server_src/db_sqlite.cpp:327-366 | a statement planned from the current sequence gets an id above it, whether rewritten or not |
| InsertThreads.OthersAway | P2P_Server_src/db_sqlite.cpp:305-306 | while a thread holds the lock no other is about to run or report a statement on the watched table |
| InsertThreads.StepFrame | P2P_Server_src/db_sqlite.cpp:300-501 | a step changes no table but the one its statement names |
| InsertThreads.StepKeeps | P2P_Server_src/db_sqlite.cpp:300-501 | every step of every thread, and every deletion or update, keeps mutual exclusion, growing ids and current plans |
| InsertThreads.RunKeeps | P2P_Server_src/db_sqlite.cpp:300-501 | so does every interleaving |
| InsertThreads.AllocationIsSafe | P2P_Server_src/db_sqlite.cpp:300-347 | in every reachable state the id held between read and step is above every id ever committed, neither a listed insert nor an insert-select can collide, and committed ids strictly increase |
| InsertReplay.CommittedIds | P2P_Server_src/db_sqlite.cpp:327-366 | under any interleaving of listed inserts without a failed sequence query the n-th committed id is n + (n-1)/49 |
| InsertReplay.DoneOwes | P2P_Server_src/db_sqlite.cpp:451-487 | after a done step the one missing notification, replayed, gives the history of the table |
| InsertReplay.NotifyPays | P2P_Server_src/db_sqlite.cpp:481-491 | a notification pays exactly what its thread owed |
| InsertReplay.StepKeepsHistory | P2P_Server_src/db_sqlite.cpp:300-501 | every step keeps: the notifications told and the one owed replay to the history of the watched table |
| InsertReplay.ReplayReproduces | P2P_Server_src/db_sqlite.cpp:300-494 | under any interleaving, with deletions and updates, replaying the flag-0 notifications on an empty replica inserts exactly the rows and ids the table inserted; without updates the rows are the table's, less those deleted |
| InsertRace.UnlockedInsertCollidesIff | P2P_Server_src/db_sqlite.cpp:300-306 | an insert without the lock between a holder's read and step makes the holder collide exactly if the automatic id is not a skipped one |
| InsertRace.RacingRunCollidesIff | P2P_Server_src/db_sqlite.cpp:300-347 | from every quiet state the code has a run to that situation, by an observed call up to its read and an unobserved one of the same table, and the holder then collides exactly if the next id is not a skipped one |
| InsertRace.ExampleCollides | P2P_Server_src/db_sqlite.cpp:300-347 | two ordinary statements that collide |
| InsertRace.EmptyDatabase | P2P_Server_src/db_sqlite.cpp:327-347 | the empty database is a quiet state from which they do |
| InsertRace.ShadowedInsertCollidesIff | P2P_Server_src/db_sqlite.cpp:310-347 | an insert whose table is shadowed asks for the id allocated from the other table's sequence and collides exactly if its own table has that id |
| InsertRace.ShadowedTwiceCollides | P2P_Server_src/db_sqlite.cpp:310-366 | two shadowed inserts in a row get the same id, so after the first succeeds the second collides |
| InsertRace.ExampleShadowedCollides | P2P_Server_src/db_sqlite.cpp:310-366 | with tables t and xt registered in that order, the second insert into xt of an empty database collides |
| InsertRace.MovedRowCollidesIff | P2P_Server_src/db_sqlite.cpp:617-632 | were rows given other ids between a holder's read and step, the holder would collide exactly if one was moved onto its id |
| InsertRace.SoloCall | P2P_Server_src/db_sqlite.cpp:288-501 | the steps of one locked call alone end with the result, id and notifications the sequential model gives, and free the lock |
| InsertRace.UnlockedCall | P2P_Server_src/db_sqlite.cpp:300-306 | a call without the lock runs the caller's statement with the caller's parameters on its table, ends with the sequential result and leaves the lock alone |
| InsertRace.ReportedIdIsEntered | P2P_Server_src/db_sqlite.cpp:451-496 | whatever other threads do, a done rewritten insert that asks for its id is told the id its row was entered under |
| InsertRace.EnteredRowPairs | P2P_Server_src/db_sqlite.cpp:349-366 | the row entered by a done insert pairs the caller's columns with the caller's values |
| InsertRace.ExampleIsWatched | P2P_Server_src/db_sqlite.cpp:320-366 | an ordinary statement, into a table of any plain name with any text as its parameter, meets the assumptions and has the expected meaning |
| InsertRace.TargetIs | P2P_Server_src/db_sqlite.cpp:310-320 | a statement names the word before its first parenthesis, with any number of spaces between |
| Edits.SameRowsIff | P2P_Server_src/db_sqlite.cpp:617-632 | two histories of the same inserts with row-wise edits leave the same rows if and only if the edits after each row come to the same for it |
| Edits.SameSurvivorsIff | P2P_Server_src/db_sqlite.cpp:550-564 | with deletions only, if and only if each row is selected after its insert in both or in neither |
| Edits.DeletionOrderIff | P2P_Server_src/db_sqlite.cpp:550-564 | they do so whatever the deletions select if and only if the same deletions, in any order, follow each insert |
| Edits.EditOrderIff | P2P_Server_src/db_sqlite.cpp:550-632 | they do so whatever the edits do to the table if and only if the same edits, in the same order, follow each insert; edits that keep the columns are enough to tell |
| Edits.SameOrderIff | P2P_Server_src/db_sqlite.cpp:550-632 | which is to say that from the first insert on they are the same history |
| Edits.RowIsEdited | P2P_Server_src/db_sqlite.cpp:617-632 | with edits that treat every row on its own, an inserted row ends as the edits after its insert leave it |
| EditThreads.PerformKeeps | P2P_Server_src/db_sqlite.cpp:503-635 | every step of an insert, every edit and every late notification keeps: the table is what the changes made leave, and the replica is what the changes told leave |
| EditThreads.ActsKeep | P2P_Server_src/db_sqlite.cpp:503-635 | so does every interleaving |
| EditThreads.ActsHaveColumns | P2P_Server_src/db_sqlite.cpp:349-366 | under any interleaving every row inserted into the watched table has at least one column |
| EditThreads.RunsAlikeForAll | P2P_Server_src/db_sqlite.cpp:503-635 | a run possible for one meaning of the edits is possible for every meaning, with the same changes made and told in the same order |
| EditReplay.DeletionsReplayIff | P2P_Server_src/db_sqlite.cpp:503-567 | under any interleaving of inserts and deletions, replaying all notifications gives the table if and only if, for every inserted row, a deletion that selects it ran after its insert exactly when one was told after its insert was |
| EditReplay.EditsReplayIff | P2P_Server_src/db_sqlite.cpp:503-635 | under any interleaving with row-wise edits, it does if and only if, for every inserted row, the edits run after it and the edits told after it come to the same |
| EditReplay.ScheduleReplaysIff | P2P_Server_src/db_sqlite.cpp:503-635 | a schedule replays to the table whatever its edits do, or whatever values they set, if and only if, for every inserted row, the edits run after its insert and those told after its notification are the same in the same order; equivalently, from the first insert on changes are told in the order they were made |
| EditReplay.DeletionScheduleReplaysIff | P2P_Server_src/db_sqlite.cpp:503-567 | a schedule replays to the table whatever its deletions select if and only if, for every inserted row, the same deletions ran after its insert and were told after its notification, in any order |
| EditReplay.ToldInTurnIff | P2P_Server_src/db_sqlite.cpp:550-564 | once everything is told, changes were told in the order they were made if and only if every notification told the oldest change not yet told |
| EditReplay.OrderlyEditsReplay | P2P_Server_src/db_sqlite.cpp:503-635 | if no statement runs on the table between an edit and its notification, and no edit between an insert and its notification, changes are told in the order they were made and the replica ends as the table |
| EditReplay.LateDeletionDiverges | P2P_Server_src/db_sqlite.cpp:550-564 | a deletion, then an insert with its notification, then the deletion's notification: the table keeps the row, the replica does not |
| Engine.Engine.RegisterObserver | P2P_Server_src/db_sqlite.cpp:179-228 | the first free slot takes the name; -1 and no change exactly if none is free |
| Engine.Engine.RegisterCallback | P2P_Server_src/db_sqlite.cpp:155-177 | -1 exactly if a callback of the kind is set, which then stays; a null pointer is accepted and sets nothing; the other kinds are untouched |
| Engine.Engine.UnregisterAllObservers | P2P_Server_src/db_sqlite.cpp:237-259 | every slot of the three arrays is free |
| Engine.Engine.Query | P2P_Server_src/db_sqlite.cpp:92-153 | 0 exactly on a row, -2 exactly if the step is done, else -1; the query is run with its parameters; the caller owns a statement exactly on 0 and if it kept it |
| Engine.Engine.ReadNextId | P2P_Server_src/db_sqlite.cpp:321-347 | asks for the sequence of the given table; the next non-multiple of 50 after the row read, 1 if there is none, failure on any error; every statement finalized |
| Engine.Engine.Bind | P2P_Server_src/db_sqlite.cpp:423-449 | the loop binds every parameter in order so that it reads back by its tag |
| Engine.Engine.FindSlot | P2P_Server_src/db_sqlite.cpp:309-320 | the loop over the slots finds the first name that matches |
| Engine.Engine.Surgery | P2P_Server_src/db_sqlite.cpp:349-362 | the copying in three parts gives the rewritten text, and stops exactly if a parenthesis is missing |
| Engine.Engine.PlanLocked | P2P_Server_src/db_sqlite.cpp:307-371 | slot scan, allocation and rewrite give the protocol's plan; a vector is allocated exactly if the statement is rewritten |
| Engine.Engine.BindAndStep | P2P_Server_src/db_sqlite.cpp:423-451 | the statement runs with every parameter bound |
| Engine.Engine.Finish | P2P_Server_src/db_sqlite.cpp:452-500 | withdrawal, notification, release and report; no id is written on -1 |
| Engine.Engine.Insert | P2P_Server_src/db_sqlite.cpp:288-501 | from the arguments and SQLite's answers alone, on every path: whether it locks, which query it makes, which statement runs with which values, what is told before the unlock, the code, and the id, written only on 0 and if asked for; lock, vector and statements are given back |
| Engine.Engine.Delete | P2P_Server_src/db_sqlite.cpp:503-567 | the statement runs once with all its parameters and without the lock; -1 exactly if refused or ended in an error other than busy; if observed one notification of what ran, flag 0 exactly if done, else 1 |
| Engine.Engine.Update | P2P_Server_src/db_sqlite.cpp:570-635 | the same for updates |
| EngineThreads.ReadsAlike | P2P_Server_src/db_sqlite.cpp:327-343 | the answer SQLite gives for a table is read by the engine as the threads read the table |
| EngineThreads.LockedCallsAgree | P2P_Server_src/db_sqlite.cpp:288-501 | the steps of a locked call report and tell what the engine does on the answers of that state |
| EngineThreads.UnlockedCallsAgree | P2P_Server_src/db_sqlite.cpp:288-501 | the same for a call without the lock |
| SequenceNumbers.WrappedSimulates | P2P_Client_src/include/common.h:226-241 | residues of counters less than the threshold apart compare, subtract and measure like the counters |
| SequenceNumbers.CountIsResidue | P2P_Client_src/include/common.h:243-244 | after any number of increments a counter holds the residue of the true count |
| SequenceNumbers.IncByIsResidue | P2P_Client_src/include/common.h:249-250 | the same for increments by an offset |
| SequenceNumbers.LeadIsMeasured | P2P_Client_src/include/common.h:226-244 | after any number of steps a lead below the threshold is measured exactly and seen as later |
| SequenceNumbers.OffOfInc | P2P_Client_src/include/common.h:232-250 | the offset to k steps ahead in all three bands |
| SequenceNumbers.ExactBand | P2P_Client_src/include/common.h:232-250 | that offset is the same from every start if and only if k is below the threshold or above its complement |
| SequenceNumbers.WindowOrderIff | P2P_Client_src/include/common.h:226-227 | the comparison follows the order of every window of n numbers if and only if n is at most the threshold |
| SequenceNumbers.WindowTotalOrder | P2P_Client_src/include/common.h:278-279 | on such a window it is transitive and total |
| SequenceNumbers.CmpOppositeOff | P2P_Client_src/include/common.h:226-241 | antisymmetric, zero only on equality, as large as the plain difference and opposite in sign to the offset; below the threshold it is the plain difference |
| SequenceNumbers.IncByIsIncMany | P2P_Client_src/include/common.h:243-250 | k single increments are one increment by k |
| SequenceNumbers.IncrementAlgebra | P2P_Client_src/include/common.h:229-250 | decrement inverts increment, increments compose, the length to k ahead is k+1 |
| SequenceNumbers.TwoArcs | P2P_Client_src/include/common.h:229-230 | the two arcs between two numbers share both ends |
| SequenceNumbers.SeqNoBounds | P2P_Client_src/include/common.h:214-250 | on sequence numbers every expression, single steps included (those of acknowledgement numbers too), evaluates to its value without overflow, but for the length, which overflows exactly on the full circle |
| SequenceNumbers.MsgNoBounds | P2P_Client_src/include/common.h:273-296 | on message numbers every expression evaluates to its value without overflow |

## Left out

- The other headers under P2P_Client_src/include (buffers, queues, windows, epoll, packets, congestion control): declarations without bodies.
- `CTimer`, `CGuard`, `CIPAddress`, `CMD5`, `CInfoBlock`: clocks, operating-system calls or bodies that are not part of this model; the cache's guarded methods are atomic.
- `setSizeLimit` and `clear` do not take the cache's lock in the source; the model has no concurrent callers of the cache.
- A run of the cache as written stops in the model at the first operation that would read an unlinked node; what the source then does is not defined.
- Fixed character buffers (1000, 100 and 50 bytes): statements and names are assumed to fit.
- The sequence is an unbounded integer in the thread model; `Allocator.NthIdFits` says up to which insert the 32-bit read is exact.
- SQL beyond one row of values with plain `?` placeholders (numbered or named parameters, several value rows, double-quoted names, comments, upper-case `ID`) has no meaning in `Denote`; such statements on the watched table are outside the theorems.
- `insert ... select` with one parenthesis appends arbitrary rows with automatic ids: it is in the safety theorems and not in the replay.
- Deletions and updates whose step is busy change no row; they are in `Engine.Delete` and `Engine.Update` and not among the steps of `EditThreads`, whose edits all ran and are all told.
- EditReplay.OrderlyEditsReplay: the discipline is sufficient and not necessary, since edits before the first insert may be told in any order; the exact conditions are `ScheduleReplaysIff` and `ToldInTurnIff`.
- InsertThreads.StepKeeps: updates that change an id are not among the steps; `MovedRowCollidesIff` says when one does harm.
- EditThreads.PerformKeeps: an edit may depend on all rows of the watched table, not on other tables, and changes no id; an edit that is not observed is not among the steps.
- EditThreads.ActsKeep: the same.
- EditReplay.EditsReplayIff: covers edits that treat every row on its own; `ScheduleReplaysIff` covers all.
- Value expressions stand for themselves: an expression whose value changes between two evaluations would not replay.
- Transactions, triggers, and `sqllite_exec`: thin calls into SQLite; a rollback of a notified insert is not modelled.
- The insert callback is told but does not call back into the engine.
- Registration of observers and callbacks is fixed while threads run.
- `sqllite_init`, `sqllite_close` and `sqlite_unreg_allcallback`: setters of globals; whether the handle is open is a field of the engine and the calls are specified for both cases.
- printf output and the isinsert, isupdate, isdelete and isquery flags.
- nettool.cpp: interface enumeration and string joining.
