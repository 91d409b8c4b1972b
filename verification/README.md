# A verified model of the trigram filter index

The repository is a retrohunt service: it keeps, for very many files, which three byte sequences
(trigrams) each file contains, so that a search for a phrase only has to look at few files. This
project models its index and the code around it in Dafny and proves what the rest of the service
relies on.

| modules | what they model |
|---|---|
| `Encoding`, `DecodeInto`, `Cobs`, `Blocks` | numbers, increasing and decreasing lists, zero-free framing, journal blocks |
| `JournalLog`, `JournalDisk`, `Collector`, `Journal`, `JournalRuns`, `DefragSafety` | the journal of one filter: its files and what crashes leave of them, batch writer, tail table, defragmenter, recovery, and whole runs with crashes |
| `Cursor` | reading a posting list in chunks of any size |
| `QueryStreams`, `QueryWorkers` | the and/or/min-of workers as loops over channel ends |
| `TrigramQuery`, `WorkerSteps`, `QueryNetwork`, `QueryProgress`, `SharedQuery` | a whole query: all workers and readers running at once under any schedule, while the journal is being written |
| `Sorting`, `PhraseQuery`, `QueryBuilder` | phrase queries and their compilation to trigram operations |
| `Trigrams`, `TrigramSet` | extracting the trigrams of a file, and the chunked set |
| `EndToEnd` | from the file table to the answer: no search misses a file |
| `Access`, `AccessSimplify`, `AccessFactor`, `AccessText`, `AccessUpdate` | access control expressions |
| `Base64` | fragments of base64 text |
| `Fetcher`, `FetchSteps`, `FetchProgress`, `FetchAgent`, `FetchRuns` | the fetch agent and its checkpoint: what each round does and keeps, and that every row is processed in the end |
| `Ingest`, `IngestFeeder` | numbering of files and the feeder that writes batches |

How the parts fit together: a file is cut into chunks and packed (`Trigrams.BuildFile`); the feeder
hands batches of packed files to the journal with ids that only climb (`IngestFeeder.Run`), which is
what the journal asks for; any run of batches and defrags with crashes anywhere leaves a journal
whose posting lists are those of the batches that took effect (`JournalRuns.RunScript`); a posting
list is read back exactly however the reads are cut and whatever is appended meanwhile
(`Cursor.TrigramReader`); a phrase compiles to an acyclic table (`QueryBuilder.Build`) that the network
of workers evaluates exactly under every schedule (`QueryNetwork.QueryExact`, `QueryProgress.CanFinish`),
also on a journal to which batches and defrags are done between its steps (`SharedQuery.SharedExact`);
and together no file that satisfies a well-formed phrase is missed (`EndToEnd.SearchIsComplete`).
`EndToEnd.IndexAndSearch` composes the journal, the compiler and the network over the journal's files,
and `EndToEnd.FeedAndSearch` puts the file table and the feeder in front, so that each part's
preconditions are met by the parts before it; `EndToEnd.InsertedIsFound` says that what it inserts and
loads is found.

Conventions of the model. A file of the file system is a sequence of bytes or, for a tail file, of
rows. A rename, a removal or the creation of a file takes effect in program order. `sync_all` is the
point from which contents are durable: when the power is lost, the bytes of the data file past the
last sync may be lost or become anything, and the tail file that a new journal starts with, which the
source creates and extends but never syncs, may be cut to any length or be gone. When only the process
dies the files stay as they are. Channels are unbounded, as in the source. Numbers are unbounded except
where the width matters (`AsUsize`, the 24 bit window, the 16 bit counts of `TrigramSet`, the 64 bit
numbers that the first chunk of a block has room for). The order derived for a Rust type is a total
order; for access expressions it is defined and proved to be one, for phrases any order will do.

Results that say where the code falls short, each with the exact condition:

* `JournalDisk.DurableIff`: opening succeeds after every crash exactly when the tail file was installed
  by a batch or a defrag, or is still to be made, or the data file has no more than its header. Otherwise
  a power loss can leave a tail file that is too short beside a data file with the first bytes of a batch,
  and opening reports an error. A tail that lacks only its last number opens, and takes no batch
  (`Journal.JournalFilter.WriteBatch`).
* `DefragSafety.DefragSafeIff`: stopping a defrag at any of its four steps is harmless, for whatever
  batch and whatever opening follow, exactly when the journal has a block; `DefragSafety.StopDefrag`
  runs defrag, stop, opening, batch and opening, and says which states lose everything.
* `QueryBuilder.Build`: a phrase that collapses to one bare trigram, exactly, is refused as a corrupt query.
* `QueryBuilder.CompleteIff`: a phrase of well-formed parts misses no file exactly when its literals
  have three bytes, its conjunction is not empty and its count is at least one.
* `AccessSimplify.SimplifiedShape`: `simplify` panics exactly on expressions with a conjunction in which
  nothing but `Always` is left; `AccessSimplify.EmptyOrOpens`: an `Or` of nothing opens up.
* `AccessSimplify.SimplifyNarrows` and `AccessSimplify.NarrowsIffSharing`: `simplify` shuts viewers out of a
  conjunction whose operands share a term and differ; for operands made of tokens, exactly then.
* `AccessText.LiteralIff`: which token names survive printing and parsing.
* `DecodeInto.ReadsBackIff`: `decode_into` reads back exactly the lists that climb at every step.
* `Base64.Base64Encode`: panics exactly on empty data at a shifted alignment.
* `TrigramSet.TrigramSet.IntoPackedDeltas`: comes to nothing exactly when the iteration of the set goes
  down somewhere, which a compacted set's never does.
* `Fetcher.PollAdvancesIff`: when the search stream stands still for ever.
* `FetchProgress.Drains`: a job that dies, other than by returning an error, keeps its entry, and with it
  the checkpoint, where it is for good; once all else is done, entries are left exactly when some job died.
* `IngestFeeder.CrashSafeIff`: a crash between writing a batch and marking it leaves the next batch in
  order exactly when no row still waits at or below an id just written; `IngestFeeder.CrashRepeats` is the
  batch that breaks the order otherwise.
* `IngestFeeder.MarkedIsWrittenIff`: everything marked as ingested is in the journal exactly when no row
  still there was in a batch that could not load its trigrams.

## Model

| member | source | states |
|---|---|---|
| Encoding.EncodeValueInto | src/worker/encoding.rs:4-17 | appends the LEB128 form of a value to the buffer |
| Encoding.LebFitsU64 | src/worker/encoding.rs:4-17 | a 64 bit value takes at most ten bytes |
| Encoding.LebRoundTrip | src/worker/encoding.rs:86-119 | all three number decoders read back what was encoded, whatever follows it |
| Encoding.LebPrefixIncomplete | src/worker/encoding.rs:102-119 | a number cut short is never taken for a whole one |
| Encoding.TryDecodeValue | src/worker/encoding.rs:102-119 | the shifting loop finds the value and its length, or reports a number cut short |
| Encoding.DecodeValue | src/worker/encoding.rs:86-100 | the shifting loop finds the value and the bytes after it |
| Encoding.EncodeIntoIncreasing | src/worker/encoding.rs:28-41 | writes the differences of a non-decreasing list |
| Encoding.IncreasingRoundTrip | src/worker/encoding.rs:165-222 | the stream decoder yields every non-decreasing list that was encoded, zero differences included |
| Encoding.StreamEncode.Finish | src/worker/encoding.rs:236-254 | the incremental encoder writes the bytes of the one-shot encoder, and they decode to what was added |
| Encoding.DecreasingRoundTrip | src/worker/encoding.rs:49-69 | a strictly descending list is read back from its first value and its differences less one |
| Encoding.DecodeDecreasingInto | src/worker/encoding.rs:123-131 | the loop appends the list that the differences stand for |
| DecodeInto.DecodeInto | src/worker/encoding.rs:134-162 | the loop finds the values before the first zero or cut number, and counts their bytes |
| DecodeInto.ReadsBackIff | src/worker/encoding.rs:134-162 | exactly the lists that climb at every step, from the first on, are read back |
| Cobs.StuffRoundTrip | src/worker/journal.rs:408-422 | stuffing leaves no zero byte and unstuffing undoes it, for all data |
| Cobs.RunStuffed | src/worker/journal.rs:929-980 | the streaming decoder yields the data of a frame and stops at its zero byte |
| Cobs.FeedInPieces | src/worker/journal.rs:948-978 | a frame cut in two anywhere decodes to the same data |
| Blocks.EncodeBlockData | src/worker/journal.rs:395-416 | a block's bytes are the stuffed link, first id and differences, and end in their only zero |
| Blocks.LoadBlockData | src/worker/journal.rs:418-429 | takes a block's bytes apart into link, first id and packed ids, or reports a broken one |
| Blocks.BlockRoundTrip | src/worker/journal.rs:395-429 | a block encoded is loaded with its link and its strictly descending ids |
| Blocks.StandingBlockLoads | src/worker/journal.rs:438-443 | a block that stands in a file is found by reading up to the next zero byte, whatever follows |
| JournalLog.ChainReads | src/worker/journal.rs:445-479 | following the links from the newest block of a trigram yields its posting list, newest first |
| JournalLog.LaidByPrefix | src/worker/journal.rs:148-158 | only the bytes before the end of the last block matter |
| Collector.IdCollector.Next | src/worker/journal.rs:1115-1156 | yields the least trigram not yet given out and exactly the files that hold it, in input order |
| Collector.CollectAll | src/worker/journal.rs:1091-1156 | run to its end the collector is the exact transpose: every trigram once, ascending, with its holders |
| Collector.HoldersDescend | src/worker/journal.rs:333-337 | files sorted by descending id give descending holders |
| Journal.SortFilesOrder | src/worker/journal.rs:333-336 | the files of a batch are put in strictly descending order of their ids |
| Journal.JournalFilter.WriteBatch | src/worker/journal.rs:313-393 | every posting list grows at its front by the ids of the files that hold its trigram; the order check never fires; the data file is only appended to; a crash anywhere leaves the state before or after; a waiting install is left alone; and it fails exactly when the tail lacks its last number |
| Journal.JournalFilter.WriteBlock | src/worker/journal.rs:359-369 | a block is appended past all committed ones, linked to the trigram's previous one |
| Journal.JournalFilter.ReadPostings | src/worker/journal.rs:454-474 | the chain walk of one trigram ends and collects its posting list |
| Journal.JournalFilter.ReadAll | src/worker/journal.rs:445-487 | every trigram in order with its whole posting list |
| Journal.JournalFilter.Defrag | src/worker/journal.rs:227-284 | one block for each trigram that has ids, every posting list and size unchanged, four states on the way, each of which recovers when the journal has a block |
| Journal.JournalFilter.InstallDefrag | src/worker/journal.rs:292-304 | goes through exactly the specified states: data before tail, or dropping what was half prepared |
| JournalDisk.InstallIsSafe | src/worker/journal.rs:286-304 | with a block in the journal, each of the four states that the renames of a defrag go through recovers to the same posting lists |
| Journal.JournalFilter.Open | src/worker/journal.rs:104-173 | for any state of the files, makes of them what `Opened` says or fails exactly when it does; a state that recovers to a log yields the journal with that log, through states that hold it too |
| Journal.JournalFilter.TruncateAfterLastBlock | src/worker/journal.rs:140-160 | reads the whole tail table or fails, and cuts the file after the block at its greatest address, if that block can be read |
| Journal.JournalFilter.New | src/worker/journal.rs:81-102 | a new journal has empty posting lists and an unsynced tail; a crash at any step of its making leaves a state that opens as empty |
| JournalDisk.CrashKeepsRecovery | src/worker/journal.rs:104-173 | the log that the files hold survives every crash; only the first tail file of a journal without blocks can be cut short |
| JournalDisk.RecoversOpened | src/worker/journal.rs:104-173 | every state of the files that recovers to a log opens as a journal with that log |
| JournalDisk.DurableIff | src/worker/journal.rs:1267-1272 | exactly when opening succeeds, with the same log, after every crash: the tail was installed or is still to be made, or the data file has at most its header |
| JournalDisk.GreatestIsLast | src/worker/journal.rs:142-157 | the greatest address in the tail is that of the last block, and zero when there is none |
| Journal.RowReads | src/worker/journal.rs:1205-1217 | a committed tail row leads to the trigram's whole posting list and holds its length |
| JournalRuns.RunScript | src/worker/journal.rs:104-393 | any run of batches and defrags, with crashes at any change and crashes of the recoveries: a journal open at the end holds exactly the batches that took effect, strictly descending, and it is open whenever crashes came only after a first block |
| JournalRuns.EveryCrash | src/worker/journal.rs:104-173 | the crashes of these runs leave exactly the states that a crash can leave |
| JournalRuns.CrashAndReopen | src/worker/journal.rs:104-173 | after a crash at any step the journal opens as it was before or after the operation; only one without blocks can fail to open |
| JournalRuns.ReopenUntilItHolds | src/worker/journal.rs:104-173 | any number of crashes during recovery change nothing |
| JournalRuns.ContentsExact | src/worker/journal.rs:347-383 | a posting list holds an id exactly when some file of a batch has that id and the trigram |
| JournalRuns.ContentsDescend | src/worker/journal.rs:333-337 | batches with ascending ids keep every posting list strictly descending |
| DefragSafety.DefragSafeIff | src/worker/journal.rs:111-123 | after a crash at any step of a defrag, opening, any batch and opening again show that batch in front of all that was there, exactly when the tail had a row with an address |
| DefragSafety.EmptyDefragHarms | src/worker/journal.rs:111-123 | without a block, stopping once the new data file is in place loses the next batch |
| DefragSafety.StopDefrag | src/worker/journal.rs:104-393 | run for real: defrag, process death at any step, opening, a batch, opening; everything is there unless a tail was left waiting beside a data file of at most a header, and then nothing is |
| Cursor.CobsReader.Read | src/worker/journal.rs:948-978 | one chunk of a block, of any size, adds to the output what its bytes decode to |
| Cursor.BlockReader.Read | src/worker/journal.rs:989-1010 | the first chunk of a block yields its link and its first ids |
| Cursor.TrigramCursor.LoadBatch | src/worker/journal.rs:1060-1080 | a chunk more of the current block, or the next block of the chain; nothing lost or doubled at a cut |
| Cursor.TrigramReader | src/worker/journal.rs:901-927 | however the reads are cut and whatever is appended meanwhile, what is sent is the whole posting list, or as much as the receiver stays for |
| QueryStreams.OutMeaning | src/worker/journal.rs:732-897 | what a node owes is strictly descending and consists of the ids its operation asks for |
| QueryStreams.PopSettles | src/worker/journal.rs:747-757 | popping the candidate off all inputs settles exactly whether it is sent |
| QueryStreams.DropKeeps | src/worker/journal.rs:790-806 | dropping a head above the candidate of a conjunction changes nothing |
| QueryWorkers.Receiver.Peek | src/query/broadcast.rs:63-66 | looks at the next id without using it up |
| QueryWorkers.Receiver.Skip | src/query/broadcast.rs:68-75 | uses up one id, whether or not it was looked at |
| QueryWorkers.Receiver.Next | src/query/broadcast.rs:58-61 | yields the next id and uses it up |
| QueryWorkers.QueryOr | src/worker/journal.rs:732-760 | sends, strictly descending, the union of its inputs |
| QueryWorkers.QueryAnd | src/worker/journal.rs:762-837 | sends, strictly descending, the intersection of its inputs, nothing for no input |
| QueryWorkers.QueryMinOf | src/worker/journal.rs:839-897 | sends, strictly descending, the ids of its inputs whose summed weights reach the count, and nothing for a negative count while the weights sum below 2^63 |
| QueryStreams.CountMeaning | src/worker/journal.rs:883-895 | from zero on the count is the weight to be reached; a negative one is taken for a huge one |
| TrigramQuery.StreamMeaning | src/worker/journal.rs:583-640 | the stream of every entry of an acyclic table is strictly descending and holds the ids that satisfy its formula |
| WorkerSteps.StepKeeps | src/worker/journal.rs:732-897 | at every await point a worker has sent and still owes exactly its stream |
| QueryNetwork.StartInv | src/worker/journal.rs:586-690 | the network as set up satisfies the invariant |
| QueryNetwork.ActKeeps | src/worker/journal.rs:583-701 | every step of every worker, reader and of the query keeps the invariant, with receivers leaving early |
| QueryNetwork.QueryExact | src/worker/journal.rs:583-701 | under every schedule a query that ends returns, strictly descending, exactly the ids of the formula |
| QueryNetwork.NeverStuck | src/worker/journal.rs:583-701 | until the query has its answer some actor can move |
| QueryProgress.ActShrinks | src/worker/journal.rs:732-897 | every step of every actor lowers a measure of the work left |
| QueryProgress.RunsAreBounded | src/worker/journal.rs:583-701 | no schedule is longer than the measure of its start |
| QueryProgress.CanFinish | src/worker/journal.rs:695-701 | from wherever a query has got to it can be carried on to its end |
| SharedQuery.BatchMoves | src/worker/journal.rs:313-393 | every change that a batch makes to the data file appends to it |
| SharedQuery.DefragMoves | src/worker/journal.rs:286-304 | a defrag changes the data file only by putting another in its place |
| SharedQuery.DefragStands | src/worker/journal.rs:286-304 | outside the lock the main files always hold the log from before a defrag or from after it, so that a snapshot finds one |
| SharedQuery.SharedExact | src/worker/journal.rs:641-701 | with batches and defrags between any two of its steps, a query that ends has exactly the ids of the formula in the log that was committed when it opened the file and read the tail |
| SharedQuery.SharedCanFinish | src/worker/journal.rs:641-701 | whatever has been written meanwhile, the query can be carried on to its end |
| SharedQuery.ReadRow | src/worker/journal.rs:669-682 | the chunk by chunk reader of a trigram sends the list that the steps of the network take from the open file |
| PhraseQuery.MakeOr | src/query/phrases.rs:26-42 | means that some item holds; nothing comes of nothing but empty disjunctions |
| PhraseQuery.MakeAnd | src/query/phrases.rs:44-60 | means that all items hold; nothing comes of nothing but empty conjunctions |
| PhraseQuery.MakeMinOf | src/query/phrases.rs:62-71 | means that at least so many items hold, through both shortcuts |
| PhraseQuery.IgnoreCaseWidens | src/query/phrases.rs:86-105 | ignoring case never loses a file |
| PhraseQuery.IgnoreCaseExactly | src/query/phrases.rs:86-105 | a phrase that ignores case holds exactly of the contents that, in lower case, satisfy the phrase with its literals in lower case |
| PhraseQuery.CaseDoesNotMatter | src/query/phrases.rs:86-105 | a phrase that ignores case holds of all contents alike that differ in case only |
| PhraseQuery.SameLetter | src/query/mod.rs:163-173 | bytes have the same lower case exactly when they are equal or the two cases of one letter |
| PhraseQuery.CountIsSize | src/query/phrases.rs:62-71 | counting the items that hold is the size of the set of them |
| Sorting.SortDedupCanonical | src/query/mod.rs:70-94 | sorting and dropping repeats gives the same list exactly for the same members |
| QueryBuilder.TrigramQueryBuilder.Or | src/query/mod.rs:70-81 | the reference stands for "some of the values"; a sole value stands for itself |
| QueryBuilder.TrigramQueryBuilder.And | src/query/mod.rs:83-94 | the reference stands for "all of the values, and there are some" |
| QueryBuilder.TrigramQueryBuilder.MinOf | src/query/mod.rs:96-111 | distinct values in any order, each with the number of its occurrences |
| QueryBuilder.CompiledCount | src/query/mod.rs:131-137 | from one on, so many parts of a compiled `min_of` must pass; zero asks for some part, and a negative count for the impossible |
| QueryBuilder.WeightsCount | src/query/mod.rs:96-111 | weighing distinct references counts the true occurrences |
| QueryBuilder.RollTrigrams | src/query/mod.rs:142-149 | rolling a 24 bit window over a literal gives its trigrams in order |
| QueryBuilder.TrigramQueryBuilder.InsertCaseInsensitive | src/query/mod.rs:162-190 | some spelling of the window in any mix of cases |
| QueryBuilder.TrigramQueryBuilder.Insert | src/query/mod.rs:113-160 | the reference means what the phrase compiles to; it is a bare trigram exactly for phrases that collapse to one |
| QueryBuilder.Build | src/query/mod.rs:199-219 | an acyclic table whose root means the phrase; its root has a channel exactly when the phrase does not collapse to one trigram |
| QueryBuilder.NothingIsLost | src/query/mod.rs:113-160 | a file that satisfies a well-formed phrase passes its compiled form |
| QueryBuilder.CompleteIff | src/query/mod.rs:142-160 | for well-formed parts, a phrase finds all files that satisfy it exactly when it is well formed |
| Trigrams.BuildFile | src/worker/trigrams.rs:256-297 | fails exactly when an error comes before the reading has ended; otherwise the packed file lists, ascending, exactly the trigrams of all chunks up to that end, and of all bytes when no chunk is empty |
| Trigrams.EndsOnce | src/worker/trigrams.rs:262-288 | the reading ends in one place, at the end of the stream or at an empty chunk once more than two bytes are held, and no error counts after it |
| Trigrams.BreaksPlainly | src/worker/trigrams.rs:263-284 | an error after nothing but chunks with bytes is passed on, and only one with nothing but data before it |
| Trigrams.RollPacks | src/worker/trigrams.rs:277-280 | masking, shifting and adding a byte moves the window on by one |
| TrigramSet.InsertWord | src/worker/trigrams.rs:584-605 | adds exactly the item, in every encoding, and stays within the budget of counts |
| TrigramSet.CompactChunk | src/worker/trigrams.rs:608-639 | changes the encoding and not the set; after at most 4096 inserts the 16 bit count is the true one and the lists are short |
| TrigramSet.Items | src/worker/trigrams.rs:523-541 | yields exactly the members, ascending once compacted |
| TrigramSet.TrigramSet.Insert | src/worker/trigrams.rs:447-450 | adds exactly the trigram and touches no other chunk |
| TrigramSet.TrigramSet.Compact | src/worker/trigrams.rs:453-457 | keeps the set and makes iteration ascending |
| TrigramSet.TrigramSet.Iter | src/worker/trigrams.rs:370-388 | yields exactly the trigrams of the set, ascending once compacted |
| TrigramSet.TrigramSet.IntoPackedDeltas | src/worker/trigrams.rs:327-337 | the packed deltas decode to the set as it is iterated, and there are none exactly when that goes down somewhere |
| EndToEnd.IdsAreTrigrams | src/worker/journal.rs:333-383 | the journal lists an id under a trigram exactly when the content of its file has the trigram |
| EndToEnd.SearchIsComplete | src/worker/journal.rs:583-701 | through packing, any run of the journal, any schedule of the query and anything written meanwhile, the answer is exact for the compiled phrase and misses no file that satisfies a well-formed one |
| EndToEnd.IndexAndSearch | src/worker/journal.rs:104-701 | from any script of batches, defrags and crashes and any phrase the compiler takes: the query is refused exactly when the phrase collapses to one trigram, otherwise it can be carried on to its end on the journal's files and every run of it ends in the right answer |
| EndToEnd.ReadList | src/worker/journal.rs:901-927 | reading a trigram's list from the files of a journal that has run any script gives what the batches that took effect say |
| EndToEnd.FeedAndSearch | src/worker/manager.rs:311-395 | fed in any orderly run and then searched, every file that the table calls ingested and that satisfies the phrase is found, unless its trigrams could not be loaded for its batch |
| EndToEnd.InsertedIsFound | src/worker/manager.rs:320-382 | a file inserted before the last round, taken and loaded by it, is found when it satisfies the phrase |
| Access.CanAccess | src/access.rs:301-322 | the short-circuit loops compute the meaning of an expression |
| Access.LeqTotal | src/access.rs:14-15 | the derived order is total |
| Access.JoinOr | src/access.rs:116-141 | lets through whom either side lets through, but for two empty disjunctions |
| Access.JoinAnd | src/access.rs:144-166 | lets through exactly whom both sides let through |
| Access.JoinsCommute | src/access.rs:116-166 | joining gives the same expression in either order |
| AccessSimplify.NeverOneRest | src/access.rs:249-256 | the branch that would join a sole remainder with `or` is dead |
| AccessSimplify.FactoredOrGrants | src/access.rs:223-258 | factoring a disjunction changes nobody's access |
| AccessSimplify.FactoredAndNarrows | src/access.rs:260-294 | factoring a conjunction lets nobody new through, and shuts somebody out only when operands share a term and differ |
| AccessSimplify.SimplifiedShape | src/access.rs:196-197 | exactly when simplifying panics, when it yields `Always`, and that its result is otherwise proper |
| AccessSimplify.SimplifyNarrows | src/access.rs:220-298 | never lets through anybody whom the expression denies, and exactly the same where no conjunction narrows |
| AccessSimplify.NarrowsIffSharing | src/access.rs:260-294 | for operands made of tokens, equivalent exactly when they do not share a term while differing |
| AccessSimplify.EmptyOrOpens | src/access.rs:223-226 | an empty disjunction denies everybody, and simplifies to `Always` |
| AccessFactor.Factor | src/access.rs:196-217 | the common terms, the sorted distinct remainders, and whether some operand has none |
| AccessFactor.Flatten | src/access.rs:228-236 | the stack loop finds the operands of nested lists and ends |
| AccessFactor.Simplify | src/access.rs:220-298 | yields the specified expression wherever it does not panic, with the access it promises |
| AccessText.LiteralIff | src/access.rs:371-375 | exactly which token names are read back from print |
| AccessText.RoundTrip | src/access.rs:29-40 | parsing what was printed uses all of it and gives the expression with sorted lists |
| AccessText.SortedGrants | src/access.rs:357-368 | sorting the lists changes nobody's access |
| AccessUpdate.UpdateNeverLeaks | src/worker/database_sqlite.rs:533-541 | joining and simplifying a stored access with a new one opens the file to nobody whom both deny |
| Base64.EncodeAt | src/query/yara.rs:156-165 | character by character, base64 text is the alphabet's entry for six bits, then padding |
| Base64.TrimPadding | src/query/yara.rs:165-170 | padding and the character with fill bits go, everything else stays |
| Base64.Base64Encode | src/query/yara.rs:155-177 | for data at any alignment within any text, the fragment is the part of the base64 text that the data alone determines; it panics exactly on empty data at a shifted alignment |
| Fetcher.BatchCovers | src/broker/fetcher.rs:66-92 | every row between the old and the new seek point is in the batch |
| Fetcher.PollAdvancesIff | src/broker/fetcher.rs:87-88 | exactly when a poll moves the seek point |
| Fetcher.SearchStream.Poll | src/broker/fetcher.rs:66-98 | what is sent is in the order of times and covers the table up to the seek point |
| FetchAgent.FetchAgent.AdvanceCheckpoint | src/broker/fetcher.rs:137-151 | exactly the entries that are finished together with all before them leave, and the checkpoint, saved, moves to the last of them |
| FetchAgent.FetchAgent.TrimRecent | src/broker/fetcher.rs:155-157 | as many recent files stay as may, and those that go are the oldest |
| FetchAgent.FetchAgent.Receive | src/broker/fetcher.rs:162-184 | a row that is recent or pending changes no entry and no job; any other is entered with a job |
| FetchAgent.FetchAgent.Finish | src/broker/fetcher.rs:189-218 | a failed job starts again while it may; the eleventh attempt ends the entry whatever its result |
| FetchSteps.TurnSound | src/broker/fetcher.rs:136-250 | every round keeps the invariant: the order of times, who is processed, pending, running or lost, and how often each job was started |
| FetchProgress.TurnTakesIn | src/broker/fetcher.rs:159-184 | a round with room for a job receives the first row in the channel, and each new row has an entry and a job unless the event ended it |
| FetchProgress.TurnLetsGo | src/broker/fetcher.rs:137-151 | what was finished at the front is gone after a round, with the checkpoint at the last of it, and nothing else is |
| FetchAgent.Turn | src/broker/fetcher.rs:136-250 | one round is exactly the step specified: front retired, recent files trimmed, places filled from the channel, and the event |
| FetchAgent.Run | src/broker/fetcher.rs:136-250 | over every run fed in order the agent is where its rounds lead: the checkpoint rises, everything received before it is processed, and no entry has more than eleven attempts |
| FetchProgress.Drains | src/broker/fetcher.rs:136-250 | from any state, however the jobs come back, fail or die, so many reports of running jobs leave the channel empty and every row processed or its job dead, with entries left only from the first such on |
| FetchProgress.EveryRowIsProcessed | src/broker/fetcher.rs:136-250 | after any run and so many reports every row that came is processed unless its job died, and if none died the checkpoint, saved, is the time of the last row |
| FetchProgress.OneDelivery | src/broker/fetcher.rs:136-250 | for rows that come all at once, eleven reports for each and one more round are enough |
| FetchProgress.Schedule | src/broker/fetcher.rs:186-218 | such reports can always be made, all of jobs that were accepted |
| FetchAgent.RunToEnd | src/broker/fetcher.rs:136-250 | a run followed by so many reports has processed every row, and its checkpoint is at the last one |
| FetchRuns.RunBoth | src/broker/fetcher.rs:50-250 | stream and agent together, over growing tables, any delay in the channel and any fate of the jobs, are where their moves lead: every unprocessed row, polled or to come, lies at or after the saved checkpoint |
| FetchRuns.PolledRowsAreProcessed | src/broker/fetcher.rs:50-250 | once all rows sent have come through the channel, so many reports leave every row of the table up to the seek point processed, unless its job died |
| Ingest.FileTable.IngestFiles | src/worker/database_sqlite.rs:485-512 | known files are reported when ingested, in their order, new ones get the next numbers, all others stay |
| Ingest.EnteredExactly | src/worker/database_sqlite.rs:485-512 | afterwards every file is in the table, once, and the new rows are waiting under consecutive new numbers, for files that were not there |
| Ingest.FileTable.GetIngestBatch | src/worker/database_sqlite.rs:590-599 | the waiting rows with the lowest numbers, in order |
| Ingest.FileTable.FinishedIngest | src/worker/database_sqlite.rs:601-615 | marks exactly the rows of the batch that are still there |
| Ingest.FileTable.AbandonFile | src/worker/database_sqlite.rs:617-626 | removes the row of the hash and gives no number back |
| IngestFeeder.Feeder.Step | src/worker/manager.rs:317-382 | what each event does to the table, the phase and what the journal is given, and nothing else |
| IngestFeeder.TakesLowest | src/worker/manager.rs:320-330 | an idle feeder that may take a row takes some whenever any waits: as many as it may, the lowest numbers first |
| IngestFeeder.Round | src/worker/manager.rs:317-395 | choosing, writing and marking from any idle state: exactly the lowest waiting rows, as many as may be taken, are marked, and those that could be loaded are in the journal |
| IngestFeeder.RefusedWaits | src/worker/manager.rs:374-377 | a batch that the journal refuses, or that a crash stops before it is written, waits as before |
| IngestFeeder.InsertedGetsMarked | src/worker/manager.rs:317-395 | in any run, what is inserted while the feeder is idle is marked by a round that may take all that waits, and what could be loaded is in the journal |
| IngestFeeder.RoundsDrain | src/worker/manager.rs:317-395 | however few rows a round may take, one round for each waiting row marks them all |
| IngestFeeder.Run | src/worker/manager.rs:311-395 | with files coming and going at any time and no crash between a write and its finish, the feeder goes through the steps specified, every batch exceeds all before it, and everything marked is in the journal exactly when no load of it failed |
| IngestFeeder.CrashSafeIff | src/worker/manager.rs:374-382 | exactly when, after a crash between write and finish, the next batch keeps the order |
| IngestFeeder.CrashRepeats | src/worker/manager.rs:317-382 | with any row waiting at or below a written id, the next batch breaks the order that the journal relies on |
| IngestFeeder.MarkedIsWrittenIff | src/worker/manager.rs:358-382 | at any time, every marked row is in the journal exactly when no marked row was in a batch that could not load it |
| IngestFeeder.WrittenExactly | src/worker/manager.rs:358-375 | a number of a batch reached the journal exactly when its trigrams could be loaded then |

## Left out

- Errors of the file system and of SQLite, mutexes, thread pools, buffered writers and metrics: every read and write of the model succeeds.
- The bytes of the tail table and of the SQL and postcard formats: the tail is a list of rows and a last number, the file table a map.
- File lengths past 64 bits: addresses are unbounded, and `EndToEnd.ReadList` asks for a file and ids that 64 bits can count.
- Writing the new tail of a batch or a defrag: it is synced before its one rename, so its rows are never seen half written.
- JournalRuns.RunScript: asks that no crash meets a defrag before the journal has a block; what such a crash does is the subject of `DefragSafety`.
- QueryWorkers.QueryOr: runs with a connected output; leaving early is part of `QueryNetwork` only.
- QueryWorkers.QueryAnd: as `QueryOr`.
- QueryWorkers.QueryMinOf: as `QueryOr`.
- Blocks.LoadBlockData: reports a block without its numbers as broken, where the source indexes past the end; no block that is written lacks them.
- The channel labels, the pool of sixteen file handles and the `Token` count of readers.
- Integer overflow of summed weights in a `MinOf` and of the number of items as 32 bits.
- PhraseQuery.MakeMinOf: sorts by any comparison, because the meaning does not depend on the derived order of phrases.
- `map_literals`, and the parsing of yara signatures, regular expressions and hex strings (`src/query/yara.rs`), which drop branches on purpose.
- TrigramSet.Items: the branch of the iterator for an unset list out of order, which no operation produces.
- AccessSimplify.NarrowsIffSharing: both directions only for operands made of tokens; with nested operands a shared term can be implied by what is left of the operands, and then nothing is lost.
- AccessUpdate.UpdateNeverLeaks: does not print the result again, and does not model the race of two updates of one row.
- Unicode case folding of keywords in the access parser beyond ASCII, which no other letter folds into.
- FetchAgent.Run: ends at no error of the datastore; a broken stream or a failed save restarts the agent, which `FetchRuns.RunBoth` covers.
- Status messages, counters and sleeping of the fetch agent, and the defrag schedule of the feeder and its waiting for a full batch: a run says when a batch is chosen.
- The worker's caches (`src/blob_cache.rs`), the storage back ends, the broker's reply bookkeeping and all network interfaces.
