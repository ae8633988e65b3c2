# AvanceDB verification model

A Dafny model of the parts of AvanceDB where a fast, sharded or concurrent form has to agree with a simple one:

- **Document store.** Documents are hashed over `n` shards, each a set sorted by id under its own mutex.
  `Shards`, `Store`, `Attachments` and `History` say what one write does and what a log of writes leaves behind;
  `WriteRules` says of the stored documents alone when each request is accepted and what it stores; `DocumentsClass`
  holds the writers of `Documents` as methods on mutable state; `Rotation` and `BulkWrites`
  treat the bulk write that groups by shard; `StoreMachine`, `StoreSafety` and `StoreTheorems` run writers and
  readers of the all-documents cache concurrently, step by step; `StoreProgress` shows that every request can be
  answered, `BulkSections` and `RangedReads` say what a bulk write and a ranged query get in such runs.
- **Ranged queries.** `DocSearch` and `Windows` cut one shard, `Pages` and `Merging` are the simple
  specification (filter, reverse, skip, limit on one sorted list), `AllDocs` connects them and says what a query gets
  from its own keys, by counting the documents ahead of each row; `Ranks` does the counting for views.
- **Views.** `Collation` is the key order, `Rendezvous` the wait for the map workers, `MergeSchedule`,
  `MergeExecution` and `RoundBarrier` the doubling merge, `ViewRows`, `ViewResults` and `MapReduce` the
  query from the shard results to the iterator, `ViewPages` what a query gets from its own keys, `ViewGuards` its
  guard.
- **Text.** `Revisions` scans and formats revision strings; `JsonEscape`, `JsonText`, `StreamPositions`,
  `ResponseStreamClass` and `JsonReading` cover escaped, buffered JSON output and what it reads back as.

`dafny verify dfyconfig.toml` checks the whole project. Documents are immutable values with a size, a digest and
an id hash given by an environment; 32-bit and 64-bit wrap-around is written out wherever the code relies on it
or may suffer from it. A concurrent run is a trace of atomic steps (lock, compare, increment, insert, erase,
adjust one counter, copy one shard, unlock), in any order the locks allow.

## Where the code is right only under a condition

Each of these is an exact condition, for all inputs, with a concrete failing input beside it.

- **Merge schedule** (`src/avancedb/map_reduce.cpp:157-181`). The last merge takes everything behind the longest
  run as one sorted run. It is, for every choice of sorted shards, exactly when the shard count has at most two
  one-bits (`ScheduleGuard`); seven shards (`SevenShards`) and the fourteen of seven processors (`FourteenShards`)
  give an illegal last merge. The shard count is twice the number of processors, so the condition is one on that
  number (`GuardOnProcessors`).
- **Collation** (`src/avancedb/map_reduce_result_comparers.h:65-176`). It is a total order, and the usual one of view
  keys (`Before`: by type, false before true, numbers by size, strings as in a dictionary, containers by their first
  difference), on all trees over a set of leaf values, exactly when no leaf is an integer beside a double, no
  NaN stands beside another double, no negative zero beside the positive one, no type without a case beside a
  value of its precedence, and no two integers are 2^31 or more apart (`CollationExactly`). Integers that far apart
  compare the wrong way round (`FarIntegersMisordered`); the two zeros compare equal (`ZerosEqual`).
- **Repeated keys at a bound** (`src/avancedb/map_reduce_shard_results.cpp:21-45`). The search stops at some row equal
  to the bound. Whichever side the bound is on and whether or not it is included, the cut is right for all sorted
  rows exactly when at most one row may equal the bound (`CutGuard`), and so is the whole query, on any number of
  shards the merge can handle (`ViewGuard`); with two rows of one key up to which a client asks, the second is lost
  (`SecondRowLost`). Rows not equal to a bound are always on the right side (`ResultWindow`).
- **Rolling start of bulk writes** (`src/avancedb/documents.cpp:427-484`). The 32-bit index visits every shard once
  exactly when it does not wrap or the shard count divides 2^32 (`RotationExactly`, `SixShards`), and then, and
  only then, a bulk write equals one-by-one processing for every batch (`BulkExactly`). The index starts at the
  shard count n and is decremented by each bulk request, so it is not for the requests n+1 to 2n-1, and those a
  multiple of 2^32 later, unless n divides 2^32 (`RequestExactly`, `RequestsExactly`, `FirstRequests`).
- **Ranged queries beside writers** (`src/avancedb/documents.cpp:335-363`). The sequence number is read first and the
  shards are then locked one at a time. Each document is shown as of the copy of its shard (`QueryShows`), but the
  whole is the store of one moment in every run exactly if there is a single shard (`OneMomentExactly`); otherwise a
  run shows the second of two writes without the first (`TornQuery`).
- **Script exceptions** (`src/avancedb/map_reduce.cpp:76-108`). The counter is decremented before an exception is
  recorded. Whatever set of maps throws, in every run the requester finds all their exceptions exactly when that
  set is empty; otherwise there is a run in which it finds none (`ExceptionsExactly`, `ExceptionsLost`,
  `ExceptionMissed`).
- **Other exceptions** (`src/avancedb/map_reduce.cpp:76-114`). They decrement the counter and notify nobody. Whatever set
  of workers they end, no run strands the requester exactly when that set is empty (`WakeupsExactly`, `WakeupLost`).
- **Control characters in strings** (`src/avancedb/json_helper.h:85-99`). The escaped text is a JSON string exactly when
  each character is a space or above or has a two-character escape (`EscapeRoundTrip`); other control characters are
  printed bare (`ControlCharacterRefused`). More generally a value's text reads back as the value exactly when its
  strings are of that kind, its doubles are numbers and every type has a case (`ReadBackExactly`).
- **Nested values inside an attachment** (`src/avancedb/script_object_response_stream.h:222-231`) print their name and no
  value. In the attachment modes a document that is JSON reads back as what it is to show if no attachment has an
  array or an object among its fields; if one has, the text is no JSON at all (`ShownReadsBack`,
  `NestedAttachments`). An empty object is enough to spoil it (`EmptyObjectInAttachment`).
- **Integers of 20 characters** (`src/avancedb/script_object_response_stream.h:387-413`). 20 characters are reserved, but
  the conversion writes a terminator behind them. It stays inside the buffer in every state exactly when the integer
  has fewer than 20 characters (`NumberRoom`), that is, is below 10^19, or above -10^18 (`UnsignedShort`,
  `SignedShort`); with exactly 20 bytes left 2^64 - 1 and -2^63 do not fit (`FullBuffer`). A whole value goes
  through in every state of every buffer exactly when none of its integers has 20 characters (`RoomInEveryBuffer`,
  and `RoomExactly` for one buffer size). Under that condition, and in any state that has the room otherwise, the
  output is exactly the plain printing (`AppendArray`, `AppendObject`, `Serialize`).

## Model

| member | source | states |
|---|---|---|
| Shards.InsertEffect | src/avancedb/document_collection.h:32-55 | the contract assumed of the sorted set: an insert changes the lookup of one id only, and the number and total size of documents by exactly the difference to the document replaced |
| Shards.EraseEffect | src/avancedb/document_collection.h:32-55 | the same for erasing an id |
| Store.ApplyOpWellPlaced | src/avancedb/documents.cpp:658-662 | every kind of write keeps each id in the shard its hash names, at most once, and every shard sorted |
| Store.ApplyOpEffect | src/avancedb/documents.cpp:87-283 | a refused write changes nothing; an accepted one changes the lookup of its own id only, and document count and total size by exactly that document |
| DocumentsClass.Documents.constructor | src/avancedb/documents.cpp:44-54 | a new store is empty, with zero counters |
| DocumentsClass.Documents.GetDocument | src/avancedb/documents.cpp:72-85 | finds a document if and only if some shard stores it and it has the id |
| DocumentsClass.Documents.SetDocument | src/avancedb/documents.cpp:115-150 | accepted if and only if the revision quoted is that of the stored document or, if there is none, is valid or left out; then exactly the given object is stored under the id with the next revision (version 1 without one, and the hash of the object), found again by GetDocument, and every other document is as it was; each refusal has its exact case and changes nothing; counters equal the totals modulo 2^64, and one sequence number is taken exactly when something was stored |
| DocumentsClass.Documents.DeleteDocument | src/avancedb/documents.cpp:87-113 | accepted if and only if the document is stored under the valid revision quoted; then no document has the id and every other one is as it was; missing, malformed and conflicting revisions each have their exact case and change nothing; counters and sequence likewise |
| DocumentsClass.Documents.SetDocumentAttachment | src/avancedb/documents.cpp:152-219 | accepted if and only if the quoted revision is the stored one; then the attachment of the name carries the version written, the digest, the encoded data and the length, content and other attachments stay, and the revision is the next one; each refusal has its exact case |
| DocumentsClass.Documents.DeleteDocumentAttachment | src/avancedb/documents.cpp:232-283 | accepted if and only if the quoted revision is the stored one and the attachment is there; then that attachment only is gone, with no empty attachments field, under the next revision; each refusal has its exact case |
| DocumentsClass.Documents.AdjustCounters | src/avancedb/documents.cpp:141-147 | the in-place additions and subtractions leave both counters equal to the new totals modulo 2^64 |
| DocumentsClass.Documents.GroupPending | src/avancedb/documents.cpp:461-479 | fails exactly when some revision of the batch is malformed; otherwise one list of positions per shard, in input order |
| DocumentsClass.Documents.PostBulkDocuments | src/avancedb/documents.cpp:426-538 | a malformed revision anywhere changes nothing; otherwise, from a good rolling start, every entry has a result, given as if the entries came one by one in input order: conflict if and only if new edits are asked for and the stored document has a revision the entry does not quote, else the entry's object is stored under its id (or the generated one) with the next revision, or without new edits under the revision it brings; with new edits each is what SetDocument gives; counters and sequence likewise |
| DocumentsClass.Documents.PostShard | src/avancedb/documents.cpp:486-534 | only one shard changes, and it, the results and the sequence follow the group's writes in order |
| DocumentsClass.Documents.PostShards | src/avancedb/documents.cpp:481-535 | the loop from the rolling start serves the groups of the shards it visits, in visiting order |
| DocumentsClass.Documents.PostOne | src/avancedb/documents.cpp:492-533 | one pending document gets the outcome and the effect of the rule for bulk entries, and a sequence number exactly when it is stored |
| WriteRules.SetFollows | src/avancedb/documents.cpp:115-150 | the decision and the new shards of the model satisfy the rule of SetDocument, which is stated of the stored documents alone |
| WriteRules.SetDecides | src/avancedb/documents.cpp:115-150 | that rule has one outcome only, down to the revision string, and one set of documents stored afterwards |
| WriteRules.DeleteFollows | src/avancedb/documents.cpp:87-113 | likewise the rule of DeleteDocument is satisfied |
| WriteRules.SetAttachmentFollows | src/avancedb/documents.cpp:152-219 | likewise the rule for setting an attachment |
| WriteRules.DeleteAttachmentFollows | src/avancedb/documents.cpp:232-283 | likewise the rule for deleting one |
| WriteRules.BulkFollows | src/avancedb/documents.cpp:492-533 | likewise the rule for a bulk entry |
| WriteRules.BulkEntryIsSet | src/avancedb/documents.cpp:492-533 | what the rule for a bulk entry with new edits allows, the rule of SetDocument allows too, the revision being valid |
| WriteRules.CreatedRevision | src/avancedb/document.cpp:33-48 | a created document has the given id and object, and its revision parses to version 1, or the quoted version plus 1 modulo 2^64, and the hash of the object |
| Rotation.RotationExactly | src/avancedb/documents.cpp:427-484 | the rolling start visits each of n shards exactly once if and only if start + n <= 2^32 or n divides 2^32 |
| Rotation.PowersDivide | src/avancedb/documents.cpp:481-484 | every power of two up to 2^32 divides 2^32, so such shard counts are always safe |
| Rotation.NoneMissed | src/avancedb/documents.cpp:481-484 | n visits are without repetition exactly when no shard is missed |
| Rotation.SixShards | src/avancedb/documents.cpp:481-484 | with 6 shards and the start decremented past 0, shard 3 is visited twice and shard 5 never |
| Rotation.RequestsExactly | src/avancedb/documents.cpp:431-484 | counted from the first, the m-th bulk request visits each of n shards exactly once if and only if n divides 2^32 or (m - n) mod 2^32 is not between 1 and n - 1 |
| Rotation.FirstRequests | src/avancedb/documents.cpp:431-484 | with 6 shards the first six bulk requests visit every shard, the seventh to the eleventh do not, the twelfth does again |
| BulkWrites.BulkIsSequential | src/avancedb/documents.cpp:461-537 | in whatever order each shard is visited once, grouped processing gives the store and the per-position results of one-by-one processing, repeated ids and kept revisions included |
| BulkWrites.BumpsAreAccepted | src/avancedb/documents.cpp:510-533 | as many sequence numbers are taken as results report a stored document |
| BulkWrites.BulkExactly | src/avancedb/documents.cpp:426-538 | if every shard can be hit by some id, the bulk write equals one-by-one processing for all stores and batches if and only if start + n <= 2^32 or n divides 2^32 |
| BulkWrites.RequestExactly | src/avancedb/documents.cpp:426-538 | so the m-th bulk request equals one-by-one processing for all stores and batches under exactly that condition on m and n |
| BulkWrites.MissedWrite | src/avancedb/documents.cpp:481-537 | a write whose shard is not visited gets no result at all |
| History.EditBumps | src/avancedb/document.cpp:33-48 | an accepted edit stores a well-formed revision holding the version after the quoted one and the digest of the stored body, and quotes the stored revision if there is one |
| History.VersionCounts | src/avancedb/documents.cpp:115-283 | while a document is only edited, its version is the first one plus the number of accepted updates, attachment edits included (modulo 2^64) |
| History.NoLostUpdate | src/avancedb/documents.cpp:115-283 | of accepted writes to one document with only edits of it in between, no two quote the same revision; the last may be a deletion |
| Attachments.SetEffect | src/avancedb/documents.cpp:169-209 | a stored attachment replaces the one of its name and carries the version being written, the digest and the length of its bytes; content and other attachments stay |
| Attachments.DeleteEffect | src/avancedb/documents.cpp:247-273 | succeeds exactly when the attachment exists, removes that one only, and never leaves an empty attachments field |
| Attachments.SetThenDelete | src/avancedb/documents.cpp:152-283 | adding a new attachment and deleting it again restores the body if and only if the body had no empty attachments field |
| Listings.MergeAllListing | src/avancedb/documents.cpp:318-327 | merging shards of one store gives a list strictly sorted by id holding exactly their documents |
| Listings.ListingOfStore | src/avancedb/documents.cpp:303-333 | the merged list is strictly sorted and finds under every id what the store finds |
| StoreSafety.NextInv | src/avancedb/documents.cpp:87-333 | every atomic step of every thread keeps the whole invariant: mutual exclusion, shards against the log, sequence, answers, counters, cache |
| StoreSafety.RunInv | src/avancedb/documents.cpp:87-333 | the invariant holds in every reachable state |
| StoreTheorems.WritesLinearize | src/avancedb/documents.cpp:87-283 | in every interleaving the answers, in the order given, are a sequential execution: each is what the rules say after the accepted writes answered before it; the sequence-ordered log is these accepted writes, each answered once |
| StoreTheorems.AnswersByRules | src/avancedb/documents.cpp:87-283 | in every interleaving each answer, and what it leaves stored, is what the rules of the request promise of the store at its turn |
| StoreTheorems.AcceptedIsRead | src/avancedb/documents.cpp:72-150 | in every interleaving, until the next accepted write to its id, exactly the document an accepted write stored is found there, and after a deletion none |
| StoreTheorems.RealTimeOrder | src/avancedb/documents.cpp:87-283 | that order respects real time: a write answered by some moment of a run precedes every write answered later |
| StoreTheorems.ReadsAreCurrent | src/avancedb/documents.cpp:72-85 | a reader that finds a shard unlocked sees all writes logged so far |
| StoreTheorems.Conservation | src/avancedb/documents.cpp:106-147 | in every reachable state the counters plus what threads still owe equal the number and total size of stored documents modulo 2^64, and every id sits only in its shard |
| StoreTheorems.Quiescence | src/avancedb/documents.cpp:60-70 | once all threads are idle the shards are the replayed log, the counters are exact and the sequence is the length of the log modulo 2^64 |
| StoreProgress.EveryRequest | src/avancedb/documents.cpp:87-283 | from any reachable state an idle thread that finds the shard unlocked can have any request answered, and is idle again with the shard unlocked |
| StoreProgress.EveryListing | src/avancedb/documents.cpp:303-333 | likewise a listing, which is a hit exactly if the cached number is the current one, and leaves it so |
| StoreProgress.SecondListingHits | src/avancedb/documents.cpp:303-333 | a listing right behind another is a hit |
| StoreTheorems.ListingIsFresh | src/avancedb/documents.cpp:303-333 | every answer of the cache, hit or miss, gives for each id the document as of some moment not before the reported sequence and not after the return |
| StoreTheorems.HitIsExact | src/avancedb/documents.cpp:303-333 | on a hit the array is exactly the sorted contents of the store after the reported number of writes |
| StoreTheorems.RunsLoseNoUpdate | src/avancedb/documents.cpp:115-283 | in any interleaving, of the answered requests quoting one revision of a document at most one is accepted, as long as the document is only edited before the last, which may be a deletion |
| BulkSections.SectionIsAlone | src/avancedb/documents.cpp:486-534 | from lock to unlock the answers on a shard are those of its own writes in order, and they account for the whole change of the shard |
| BulkSections.SectionIsOwn | src/avancedb/documents.cpp:486-534 | while a thread has the lock of a shard every write answered on that shard is its own |
| BulkSections.GroupIsAtomic | src/avancedb/documents.cpp:486-534 | whatever other threads do, what a bulk request leaves in a shard and answers for its group is what the group alone gives on the shard as it was when locked |
| BulkSections.RequestAnswers | src/avancedb/documents.cpp:481-535 | in every interleaving, if each shard is visited once, each position of the batch is answered in the one visit of its shard: by the rules, on that shard as its lock found it and after the earlier positions that go there |
| RangedReads.QueryShows | src/avancedb/documents.cpp:335-363 | in every interleaving the copied shards are a well-placed store, and the list the page is cut from holds exactly the wanted documents, each as of some number of writes not below the reported sequence number and not above the log at the last copy |
| RangedReads.UntouchedShown | src/avancedb/documents.cpp:335-363 | in every interleaving, a document whose id nobody writes to meanwhile is listed if and only if it is wanted and was stored at the reported sequence number |
| RangedReads.QuietQuery | src/avancedb/documents.cpp:335-363 | if no write is logged from the sequence number to the last copy, the query is answered from exactly the store of that number |
| RangedReads.TornQuery | src/avancedb/documents.cpp:335-363 | for any two ids in different shards a run in which the query gets the second of two writes and not the first, as the store at no moment was |
| RangedReads.OneMomentExactly | src/avancedb/documents.cpp:335-363 | with a writer, and ids for every shard, every ranged query of every run is answered from the store of one moment if and only if there is a single shard |
| DocSearch.DiffIsStrcmp | src/avancedb/documents.cpp:615-633 | quote stripping by pointer, the bounded comparison and the look at the next character amount to lexicographic comparison with the unquoted key |
| DocSearch.KeyUnquoted | src/avancedb/documents.cpp:615-619 | quotes around a key are dropped, and any other key stands for itself |
| DocSearch.FindDocument | src/avancedb/documents.cpp:609-651 | the result is the position of the id, or the complement of its one insertion point, ascending or descending |
| Windows.SearchRight | src/avancedb/map_reduce_shard_results.cpp:76-105 | on sorted rows the binary search ends at an equal row or at the one place where the key could go |
| Windows.CutGuard | src/avancedb/map_reduce_shard_results.cpp:21-45 | for a bound on either side, included or not: the cut at the row the search finds is the asked bound on all sorted rows if and only if at most one row may equal it |
| Windows.Subtract | src/avancedb/document_collection_results.cpp:155-161 | the wrap-around test makes the unsigned subtraction stop at zero |
| Windows.SliceKeepsLeading | src/avancedb/document_collection_results.cpp:136-153 | the limited window keeps the first rows in the direction of the query |
| AllDocs.FindCut | src/avancedb/document_collection_results.cpp:45-67 | a present bound cuts the shard exactly at the ids it lets through |
| AllDocs.FindKey | src/avancedb/document_collection_results.cpp:32-39 | a single key gives the window of its document, or an empty one |
| AllDocs.RangeWindow | src/avancedb/document_collection_results.cpp:24-75 | the window is exactly the ids in range in both directions, and the offset counts the documents before it in the direction of the query |
| AllDocs.WantedIsAsked | src/avancedb/document_collection_results.cpp:24-75 | the range searched for is, in dictionary order and the direction of the query, everything from the start key on, that key included, up to the end key, that key included exactly if asked; what comes before the start key is what the offset counts |
| Pages.MergeTake | src/avancedb/documents.cpp:345-363 | the first m rows of a merge depend only on the first m rows of its inputs |
| Pages.DirectedMerge | src/avancedb/documents.cpp:366-369 | reversing a merge is merging the reversed inputs in the reversed order |
| Pages.TruncatedPage | src/avancedb/documents.cpp:345-384 | shards cut to their skip + limit leading rows give the same page as the whole shards, in both directions |
| Pages.FilterOfMerge | src/avancedb/documents.cpp:345-363 | cutting each shard to a range and merging is cutting the one sorted list |
| AllDocs.CutPage | src/avancedb/documents.cpp:365-383 | reversal and slice give the page, and the offset grows by min(skip, size) |
| AllDocs.GetDocuments | src/avancedb/documents.cpp:335-384 | the ranged query over all shards gives the page of the one sorted list, and from its own keys: as many rows as are asked for behind skip, up to limit; row k is the stored document asked for that has exactly skip + k of those ahead of it in the direction of the query; the offset is the number of documents before the range plus min(skip, their number) |
| AllDocs.PageOnly | src/avancedb/documents.cpp:335-388 | that promise fixes every row: there is no other answer |
| AllDocs.ReversedQuery | src/avancedb/documents.cpp:366-369 | with both ends included, the query the other way round gives the same documents reversed |
| AllDocs.TotalIsNumber | src/avancedb/documents.cpp:60-70 | the total that the document counter follows is the number of stored documents |
| AllDocs.AllDocumentsListed | src/avancedb/documents.cpp:335-384 | the list it is compared with is the only sorted arrangement of the stored documents |
| AllDocs.PostDocuments | src/avancedb/documents.cpp:386-424 | one row per key behind skip, up to limit, from the last key if descending: the stored document whose id the key names, or null |
| Collation.CompareArrays | src/avancedb/map_reduce_result_comparers.h:99-117 | the loop computes the lexicographic order of arrays |
| Collation.CompareObjects | src/avancedb/map_reduce_result_comparers.h:119-143 | the loop computes the order of objects, field by field, names before values |
| Collation.CompareValues | src/avancedb/map_reduce_result_comparers.h:145-168 | the type switch computes the model's order, with its 32-bit differences |
| Collation.ValueSigns | src/avancedb/map_reduce_result_comparers.h:145-176 | on trees over good leaves the comparison is antisymmetric and zero only on equal trees |
| Collation.ValueTransitive | src/avancedb/map_reduce_result_comparers.h:145-176 | on trees over good leaves it is transitive |
| Collation.CollationExactly | src/avancedb/map_reduce_result_comparers.h:65-176 | on all trees over a set of leaves the comparison is a total order, and negative exactly where the order of view keys says so, if and only if the leaves are well chosen |
| Collation.TypesInOrder | src/avancedb/map_reduce_result_comparers.h:65-80 | for all values, null comes before booleans, these before numbers, strings, arrays and objects |
| Collation.DoublesInOrder | src/avancedb/map_reduce_result_comparers.h:170-172 | for all doubles but NaN the comparison is that of the numbers, between the infinities |
| Collation.ScalarsInOrder | src/avancedb/map_reduce_result_comparers.h:157-176 | false comes before true, and strings are in dictionary order |
| Collation.ValueStandard | src/avancedb/map_reduce_result_comparers.h:99-168 | over well-chosen leaves the comparison of any two trees is negative if and only if the first comes before the second in the order of view keys |
| Collation.FirstDifference | src/avancedb/map_reduce_result_comparers.h:99-117 | in that order two arrays are decided by their first difference, and a proper prefix comes first |
| Collation.FirstFieldDifference | src/avancedb/map_reduce_result_comparers.h:119-144 | and so are objects, names before values |
| CStrings.StrcmpPrecedes | src/avancedb/map_reduce_result_comparers.h:130-161 | `strcmp` is negative exactly if the first difference is a smaller character or the end of a proper prefix |
| Collation.FarIntegersMisordered | src/avancedb/map_reduce_result_comparers.h:159-159 | integers at least 2^31 apart compare the wrong way round |
| Collation.ZerosEqual | src/avancedb/map_reduce_result_comparers.h:170-172 | negative and positive zero compare equal |
| Rendezvous.LeavesWithAllResults | src/avancedb/map_reduce.cpp:71-114 | in every run the requester leaves only when each worker has stored its result or been ended by an exception; all n results are there if and only if there was none |
| Rendezvous.NoLostWakeup | src/avancedb/map_reduce.cpp:89-102 | in every run, spurious wakeups and script exceptions included, a sleeping requester still has a notification coming, as long as no other exception ended a worker |
| Rendezvous.NeverAsleepAtZero | src/avancedb/map_reduce.cpp:89-102 | when no map throws, the counter is never zero with the requester asleep |
| Rendezvous.NeverStuck | src/avancedb/map_reduce.cpp:71-102 | until the requester leaves some step other than a spurious wakeup is possible, unless an exception other than a script exception ended a worker |
| Rendezvous.RunsAreShort | src/avancedb/map_reduce.cpp:71-102 | the number of steps of a run is bounded by its workers and spurious wakeups, so with finitely many of them the requester leaves |
| Rendezvous.ExceptionsExactly | src/avancedb/map_reduce.cpp:76-108 | for any number of workers and any set of throwing maps: in every run the leaving requester finds as many exceptions as maps threw, if and only if the set is empty |
| Rendezvous.ExceptionsLost | src/avancedb/map_reduce.cpp:76-108 | for every set of throwing maps there is a run in which the requester leaves with no exception recorded |
| Rendezvous.ExceptionMissed | src/avancedb/map_reduce.cpp:76-114 | the instance with two shards and one script exception: one result, no exception |
| Rendezvous.WakeupsExactly | src/avancedb/map_reduce.cpp:76-114 | for any set of workers ended by other exceptions: no run leaves the requester asleep without a notification coming, if and only if the set is empty |
| Rendezvous.WakeupLost | src/avancedb/map_reduce.cpp:76-114 | the stranding run, for every such set |
| Merging.MergeKeepsRows | src/avancedb/map_reduce.cpp:153-154 | a merge neither loses nor invents rows |
| Merging.MergeSorted | src/avancedb/map_reduce.cpp:153-154 | a merge of sorted runs is sorted |
| Pages.MergeStable | src/avancedb/map_reduce.cpp:153-154 | of rows that the order does not tell apart, a merge keeps those of the first half before those of the second, each in their order |
| MergeSchedule.ScheduleKeepsRows | src/avancedb/map_reduce.cpp:157-181 | for every shard count and any input the merge phase permutes the rows |
| MergeSchedule.TailCount | src/avancedb/map_reduce.cpp:160-176 | the rounds leave as many unmerged runs behind the longest as the shard count has further one-bits |
| MergeSchedule.GuardedFinalMergeLegal | src/avancedb/map_reduce.cpp:178-181 | with at most two one-bits in the shard count the last merge gets sorted halves and the result is sorted |
| MergeSchedule.ScheduleGuard | src/avancedb/map_reduce.cpp:157-181 | the last merge gets sorted halves for every choice of n sorted shards if and only if n has at most two one-bits |
| MergeSchedule.SevenShards | src/avancedb/map_reduce.cpp:178-181 | seven sorted shards whose last merge gets an unsorted half, which `std::inplace_merge` does not allow; the merge of this model leaves them unsorted |
| MergeSchedule.FourteenShards | src/avancedb/map_reduce.cpp:178-181 | fourteen sorted shards, as seven processors make them, whose last merge gets an unsorted half |
| MergeExecution.BlocksAfterRounds | src/avancedb/map_reduce.cpp:160-176 | for every shard count, after the round with step s each full aligned block of s shards is one sorted run of exactly their rows |
| MergeExecution.MoreTasks | src/avancedb/map_reduce.cpp:160-168 | a round runs exactly floor(n / step) merges, the number put into the counter |
| MergeExecution.InplaceMerge | src/avancedb/map_reduce.cpp:153-154 | demands sorted halves; the array changes only between the two ends, where the halves are merged |
| MergeExecution.MergeRound | src/avancedb/map_reduce.cpp:160-168 | one round, for any shard count, merges sorted halves only and leaves every full aligned block of step shards one sorted slice of the array with exactly its rows |
| MergeExecution.MergeRounds | src/avancedb/map_reduce.cpp:157-176 | the loop of rounds on the array, for any shard count: every merge legal, and all full aligned blocks of the last step sorted |
| MergeExecution.BlocksInArray | src/avancedb/map_reduce.cpp:160-176 | what the rounds say of the runs holds of the slices of the array |
| MergeExecution.MergeLast | src/avancedb/map_reduce.cpp:178-181 | the last merge takes everything behind the longest run as one half, which must be sorted |
| MergeExecution.MergeResults | src/avancedb/map_reduce.cpp:157-181 | with at most two one-bits in the shard count every merge of the phase is legal and the array ends as the sorted permutation of all shard rows |
| RoundBarrier.BarrierOpens | src/avancedb/map_reduce.cpp:160-173 | in every interleaving of a round the counter is zero only when all merges are done, and the array is then the same |
| RoundBarrier.BarrierProgress | src/avancedb/map_reduce.cpp:142-173 | until then some merge or decrement can happen |
| RoundBarrier.RoundIsShort | src/avancedb/map_reduce.cpp:160-173 | a round takes two steps per task and no more, so the requester spins for a bounded number of steps |
| RoundBarrier.MergesAreLegal | src/avancedb/map_reduce.cpp:142-168 | in every reachable state each merge still to come has sorted halves |
| RoundBarrier.WholePhase | src/avancedb/map_reduce.cpp:157-181 | whatever the interleavings of its rounds, the merge phase leaves the array of the schedule, for any shard count (with three one-bits or more, that is what this model's merge makes of an unsorted half) |
| RoundBarrier.SlicesDisjoint | src/avancedb/map_reduce.cpp:145-154 | the merges of one round work on disjoint slices |
| ViewRows.KeyOrder | src/avancedb/map_reduce_result_comparers.h:33-48 | key comparison with ties broken by id is a total order on (key, id) pairs over good leaves |
| ViewRows.FindResult | src/avancedb/map_reduce_shard_results.cpp:70-107 | the search with an optional document id ends at an equal row or at the complement of the insertion point |
| ViewRows.ResultWindow | src/avancedb/map_reduce_shard_results.cpp:10-60 | the window holds every row strictly inside the range and none strictly outside; without repeated bounds it is the exact range, and its offset counts the rows before it |
| ViewPages.RangeMeans | src/avancedb/map_reduce_shard_results.cpp:10-60 | the range searched for is, in the direction of the query, everything from the start key on, that key included, up to the end key, that key included exactly if asked; a document id in a key breaks ties |
| ViewPages.StrictMeans | src/avancedb/map_reduce_shard_results.cpp:10-60 | the rows the window is sure of are those strictly between the keys of the query, and those it excludes lie beyond one of them |
| ViewPages.PairOrder | src/avancedb/map_reduce_result_comparers.h:33-48 | rows are ordered by key and, under one key, by document id in dictionary order |
| ViewPages.ViewPageOf | src/avancedb/map_reduce.cpp:129-183 | the page of the one sorted list is the answer the query promises from its own keys, each row in the place that counting the rows ahead of it gives |
| ViewResults.WindowIsPage | src/avancedb/map_reduce_results.cpp:27-75 | the window cut from the merged rows is the page in the chosen direction, although it is cut before reversing |
| ViewResults.ResultsIterator.constructor | src/avancedb/map_reduce_results_iterator.cpp:21-31 | a new iterator stands before the first row of the page |
| ViewResults.ResultsIterator.Next | src/avancedb/map_reduce_results_iterator.cpp:33-41 | each call gives the next row of the page, then null for ever |
| ViewResults.ReadAll | src/avancedb/map_reduce_results_iterator.cpp:21-41 | reading until null gives exactly the page |
| MapReduce.MapWindow | src/avancedb/map_reduce.cpp:84-87 | a map worker's window is the exact range of its sorted rows, limited to skip + min(limit, size) |
| MapReduce.RowOffsets | src/avancedb/map_reduce.cpp:116-127 | the row offsets are the starts of the shards in the result array |
| MapReduce.MapShards | src/avancedb/map_reduce.cpp:116-127 | offset and total are the sums over the shard windows |
| MapReduce.PageOfView | src/avancedb/map_reduce.cpp:129-183 | the page of the merged windows is the page of the one sorted list of all rows |
| MapReduce.OffsetOfView | src/avancedb/map_reduce.cpp:116-127 | the shard offsets add up to the rows before the range in the whole view |
| MapReduce.Execute | src/avancedb/map_reduce.cpp:116-183 | end to end, if no shard repeats a bound: the rows delivered are rows of the view whose (key, id) pairs are the one sorted list cut by range, direction, skip and limit; from the query's own keys, there are as many as asked for behind skip, up to limit, all of them in the asked range, row k with place skip + k in the asked direction, and the offset is the rows before the range plus min(skip, range size) |
| MapReduce.ReversedView | src/avancedb/map_reduce.cpp:129-183 | with both ends included, the query the other way round delivers the same pairs reversed |
| MapReduce.CompletionOrderHidden | src/avancedb/map_reduce.cpp:89-91 | two executions whose workers finished in different orders deliver the same pairs and offset |
| ViewGuards.ViewGuard | src/avancedb/map_reduce.cpp:84-183 | on any shard count the merge can handle, every query on every store is answered right if and only if no shard may hold more than one row equal to a bound |
| ViewGuards.SecondRowLost | src/avancedb/map_reduce_shard_results.cpp:34-45 | two rows with one key and two ids, asked for up to that key without an id, on any number of shards: the second row is in the range and is not delivered |
| Revisions.Validate | src/avancedb/document_revision.cpp:32-65 | accepts exactly the well-formed strings of at most 53 characters |
| Revisions.Parse | src/avancedb/document_revision.cpp:67-100 | accepts exactly the well-formed strings and reads the saturated version and the 16 bytes |
| Revisions.ParseDigest | src/avancedb/document_revision.cpp:93-97 | the nibble loop reads the bytes the hex digits stand for |
| Revisions.RoundTrip | src/avancedb/document_revision.cpp:67-116 | every 64-bit version and 16-byte digest survives formatting and parsing, within 53 characters |
| Revisions.LongestRevision | src/avancedb/document_revision.h:28-31 | the greatest version gives the longest string, of exactly the 53 characters the check lets pass |
| Revisions.FormatExample | src/avancedb/document_revision.cpp:112-116 | version 12 and four bytes as they are written |
| Revisions.FormatInjective | src/avancedb/document_revision.cpp:112-116 | different revisions have different strings |
| Revisions.NormalForm | src/avancedb/document_revision.cpp:67-116 | formatting a parsed string whose version is below 2^64 gives its lower-case form without leading zeros |
| JsonEscape.EscapeSimple | src/avancedb/json_helper.h:73-83 | the simple form escapes character by character |
| JsonEscape.EscapedCharacters | src/avancedb/json_helper.h:85-99 | exactly eight characters are escaped, each by the backslash and character of its own |
| JsonEscape.FillBuffer | src/avancedb/json_helper.h:38-55 | the fixed buffer is never overrun and holds the escaped form of exactly the characters consumed |
| JsonEscape.EscapeBuffered | src/avancedb/json_helper.h:30-71 | for a buffer of any size the two-stage form returns exactly what the simple one returns |
| JsonEscape.EscapeRoundTrip | src/avancedb/json_helper.h:85-99 | by section 7 of RFC 8259 an escaped, quoted string reads back as the string, up to its closing quote, if and only if each character may stand bare there or has a two-character escape; otherwise it is refused |
| JsonText.ShownAttachmentHidesData | src/avancedb/script_object_response_stream.h:195-247 | a shown attachment never carries its data and always names a length |
| JsonText.ShownFieldIs | src/avancedb/script_object_response_stream.h:195-247 | an attachment is shown with the marker of the mode in place of its data, every other scalar field as it was, and one more field exactly if it names no length |
| JsonText.MarkerOfMode | src/avancedb/script_object_response_stream.h:210-215 | with data, and no fields of those names, it has exactly the marker of the mode and not the other |
| JsonText.LengthOfData | src/avancedb/script_object_response_stream.h:217-240 | the length added is the number of bytes its one data field encodes |
| JsonText.StubExample | src/avancedb/script_object_response_stream.h:122-247 | a whole document in stub mode and in the default mode, with an entry that is no attachment, and the same document nested, where it is left alone |
| JsonText.SignedTextInjective | src/avancedb/script_object_response_stream.h:401-413 | different integers print differently |
| JsonText.SignedTextValue | src/avancedb/script_object_response_stream.h:401-413 | the text of an integer stands for that integer |
| ResponseStreamClass.ResponseStream.FlushBuffer | src/avancedb/script_object_response_stream.h:434-434 | nothing emitted is lost or repeated, and the buffer is empty |
| ResponseStreamClass.ResponseStream.Flush | src/avancedb/script_object_response_stream.h:106-112 | afterwards the stream holds everything emitted |
| ResponseStreamClass.ResponseStream.WriteText | src/avancedb/script_object_response_stream.h:316-325 | copied, topped up or written through, exactly the text is emitted, and a closing quote still fits |
| ResponseStreamClass.ResponseStream.AppendString | src/avancedb/script_object_response_stream.h:298-328 | emits the quoted escaped string whatever its length and however full the buffer is |
| ResponseStreamClass.ResponseStream.AppendName | src/avancedb/script_object_response_stream.h:288-296 | emits the quoted name and a colon |
| ResponseStreamClass.ResponseStream.AppendLiteralString | src/avancedb/script_object_response_stream.h:330-343 | emits the literal unchanged, buffered or written through |
| ResponseStreamClass.ResponseStream.AppendBool | src/avancedb/script_object_response_stream.h:345-368 | emits the word within the reserved five characters |
| ResponseStreamClass.ResponseStream.AppendNull | src/avancedb/script_object_response_stream.h:370-385 | emits the word within the reserved four characters |
| ResponseStreamClass.ResponseStream.AppendUInt64 | src/avancedb/script_object_response_stream.h:387-399 | whenever the terminator behind the digits stays inside the buffer (NumberRoom says when) exactly the digits are emitted, and the position is known |
| ResponseStreamClass.ResponseStream.AppendInt64 | src/avancedb/script_object_response_stream.h:401-413 | likewise for signed numbers, the sign included |
| ResponseStreamClass.ResponseStream.AppendDouble | src/avancedb/script_object_response_stream.h:416-432 | emits the converted text |
| StreamPositions.NumberRoom | src/avancedb/script_object_response_stream.h:387-413 | a conversion of 1 to 20 characters keeps its terminator inside a buffer of 64 bytes or more in every state, with and without a comma, if and only if it has fewer than 20 |
| StreamPositions.FullBuffer | src/avancedb/script_object_response_stream.h:387-413 | with exactly 20 bytes left the conversions of 2^64 - 1 and of -2^63 put their terminator outside |
| StreamPositions.UnsignedShort | src/avancedb/script_object_response_stream.h:387-399 | an unsigned 64-bit number has 1 to 20 digits, and fewer than 20 if and only if it is below 10^19 |
| StreamPositions.SignedShort | src/avancedb/script_object_response_stream.h:401-413 | a signed 64-bit number has 1 to 20 characters, and fewer than 20 if and only if it is above -10^18 |
| StreamPositions.RoomExactly | src/avancedb/script_object_response_stream.h:122-432 | for a value whose text fits the buffer, every terminator stays inside in every state of that buffer if and only if none of its integers has 20 characters |
| StreamPositions.RoomInEveryBuffer | src/avancedb/script_object_response_stream.h:122-432 | every value goes through in every state of every buffer of 64 bytes or more if and only if none of its integers has 20 characters |
| StreamPositions.ShortGoesThrough | src/avancedb/script_object_response_stream.h:122-432 | a value without such integers goes through from any position, and the position stays inside the buffer |
| StreamPositions.ShownGoesThrough | src/avancedb/script_object_response_stream.h:122-247 | so does a document without them in every attachment mode, the added lengths included |
| ResponseStreamClass.ResponseStream.AppendArray | src/avancedb/script_object_response_stream.h:249-286 | for every tree and every buffer state in which its conversions have room, what is sent and buffered grows by exactly the plain printing of the array |
| ResponseStreamClass.ResponseStream.AppendObject | src/avancedb/script_object_response_stream.h:122-167 | for every tree, attachment mode and buffer state in which the conversions of what is shown have room, what is sent and buffered grows by exactly the plain printing of the object as shown |
| ResponseStreamClass.ResponseStream.AppendAttachments | src/avancedb/script_object_response_stream.h:169-193 | emits the object entries only, separated correctly, whenever their conversions have room |
| ResponseStreamClass.ResponseStream.AppendAttachment | src/avancedb/script_object_response_stream.h:195-247 | emits the attachment with its data replaced by a marker and a length added if there is none, whenever its conversions have room |
| ResponseStreamClass.GetDecodedSize | src/avancedb/base64_helper.cpp:49-63 | the padding loop sizes a base64 text, padded as it must be, as the number of bytes it encodes |
| ResponseStreamClass.ResponseStream.Serialize | src/avancedb/script_object_response_stream.h:47-50 | a document is emitted as its plain printing whenever its conversions have room, and so always if it has no integer of 20 characters (ShownGoesThrough) |
| JsonReading.ReadBack | src/avancedb/script_object_response_stream.h:122-343 | for every tree of clean strings, JSON numbers, arrays and objects, a reader by the grammar of RFC 8259 gets the tree back from its printing and leaves the text after it alone |
| JsonReading.ReadBackExactly | src/avancedb/script_object_response_stream.h:122-343 | a value reads back from its printing if and only if its strings are clean, its doubles are numbers by section 6 of RFC 8259, and every type has a case |
| JsonReading.ControlCharacterRefused | src/avancedb/json_helper.h:85-99 | the string of the one character U+0001 prints as a text that is no JSON |
| JsonReading.GapRefused | src/avancedb/script_object_response_stream.h:122-247 | a text that is JSON but for missing field values, at any depth, is refused, whatever follows it |
| JsonReading.ShownReadsBack | src/avancedb/script_object_response_stream.h:122-247 | in the attachment modes a document that is JSON apart from nested values in attachments prints as the JSON of what it is to show if no attachment has an array or an object among its fields, data apart, and as no JSON if one has |
| JsonReading.NestedAttachments | src/avancedb/script_object_response_stream.h:195-247 | so the text of a document that is JSON is refused if and only if some attachment has an array or an object among its fields |
| JsonReading.EmptyObjectInAttachment | src/avancedb/script_object_response_stream.h:222-231 | the document with one empty object in an attachment is JSON, and its printed text is refused |
| JsonReading.PrintInjective | src/avancedb/script_object_response_stream.h:122-343 | values that print alike are the same JSON tree |

## Left out

- REST routing, request bodies, sockets, the daemon and its configuration: input and output plumbing.
- The JavaScript engine and its adapters: the rows of a shard are any sequence of (key, value, id) rows that is sorted
  where the code has sorted it; `std::sort` and `std::inplace_merge` enter by their contracts.
- LazyFlatSet, CityHash, MD5, base64 contents, object Merge and DeleteField, the thread pool: contracts or parameters
  (a sorted set, an id hash, a content digest, a size, tasks that run in any order).
- MapReduce.Execute: takes the shard results as given, in completion order; the wait that produces them is
  `Rendezvous`, and the copy of a shard's documents is not modelled. It requires at most two one-bits in the shard
  count, without which the last merge is not legal (ScheduleGuard).
- ViewRows.FindResult: keys are over leaf values on which the comparison is a collation (the condition of
  CollationExactly), and fewer than 2^63 rows; on other keys neither sorting nor searching is defined. The same holds
  for ResultWindow and Execute.
- Rendezvous: an exception other than a script exception ends a map before its worker takes the mutex; what the thread
  pool does with it is not modelled.
- AllDocs.GetDocuments: it is given the shards as they were copied, and skip plus size stays below 2^64; what the copies
  are beside writers is in `RangedReads`. PostDocuments takes the listing as a parameter (StoreTheorems says what that
  listing is under concurrency).
- DocSearch.FindDocument: a key that is a lone quote makes the code read past an empty id; that combination is excluded.
- DocumentsClass.Documents: one thread at a time, without the cache; interleavings and the cache are in `StoreMachine`,
  where the writes of a bulk request are individual steps under one lock, and their grouping in `BulkSections`.
- The sequence number stored in a document, design and local documents, document retrieval by revision.
- In-place reuse of a stored object as the input of a write: every write brings a fresh object.
- The rolling start index is one counter for all databases; here each store has its own.
- DocumentRevision::Increment, UUID formatting, attachment byte ranges, log timestamps: easy members.
- Serialize of a single array element, and stream flushing beyond the buffer.
- JsonReading.ReadBack: the reader has no white space and no escape by code point, neither of which is ever printed;
  strings are sequences of code points, so malformed UTF-8 is not modelled.
- ResponseStreamClass.ResponseStream.AppendUInt64: without room for the terminator nothing is promised: the byte behind
  the buffer belongs to the position, and what the code sends after overwriting it is not modelled. The same holds of
  AppendInt64, AppendArray, AppendObject, AppendAttachments, AppendAttachment and Serialize.
- Terminators of other C strings.
- ResponseStreamClass.GetDecodedSize: for a non-empty text of padding only the code reads before its start; the model gives 0.
- ResponseStreamClass.ResponseStream.AppendDouble: the digits of the `%.16g` conversion are a given text.
