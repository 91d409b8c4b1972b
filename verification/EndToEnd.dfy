/**
 The whole filter: files are numbered and fed (`IngestFeeder`), cut into chunks and packed (`Trigrams`),
 written in batches to a journal that may crash and be defragmented (`JournalRuns`), and searched by a
 compiled phrase (`QueryBuilder`) run by a network of workers on the files of that journal, while it
 is being written (`SharedQuery`).  A search finds every file that satisfies the phrase, and nothing
 but files that hold the trigrams the phrase calls for.
 */
module EndToEnd {
  import opened Bytes
  import opened JournalLog
  import opened JournalDisk
  import opened Collector
  import J = JournalRuns
  import Journal
  import opened TrigramQuery
  import opened QueryNetwork
  import S = SharedQuery
  import opened Trigrams
  import opened PhraseQuery
  import opened QueryBuilder
  import F = IngestFeeder
  import Ingest
  import Cursor

  /** Every file of the history was packed from its content. */
  ghost predicate PackedFrom(history: seq<seq<PackedFile>>, content: map<nat, seq<byte>>) {
    forall k, f :: 0 <= k < |history| && f in history[k] ==>
      f.id in content && PackedTrigrams(f.bytes, content[f.id])
  }

  ghost predicate InHistory(history: seq<seq<PackedFile>>, f: PackedFile) {
    exists k :: 0 <= k < |history| && f in history[k]
  }

  lemma {:induction false} CompiledCongruent(q: Phrase, a: nat -> bool, b: nat -> bool)
    requires forall t: nat :: a(t) == b(t)
    ensures Compiled(q, a) == Compiled(q, b)
  {
    match q
    case And(parts) =>
      forall i | 0 <= i < |parts| ensures Compiled(parts[i], a) == Compiled(parts[i], b) {
        CompiledCongruent(parts[i], a, b);
      }
    case Or(parts) =>
      forall i | 0 <= i < |parts| ensures Compiled(parts[i], a) == Compiled(parts[i], b) {
        CompiledCongruent(parts[i], a, b);
      }
    case Literal(bytes) =>
    case InsensitiveLiteral(bytes) =>
      forall i | 0 <= i <= |bytes| - 3
        ensures AnyCase(bytes[i], bytes[i + 1], bytes[i + 2], a) == AnyCase(bytes[i], bytes[i + 1], bytes[i + 2], b)
      {
      }
    case MinOf(count, parts) =>
      forall i | 0 <= i < |parts| ensures Compiled(parts[i], a) == Compiled(parts[i], b) {
        CompiledCongruent(parts[i], a, b);
      }
      assert CompiledParts(parts, a) == CompiledParts(parts, b);
      CompiledAsParts(parts, count, a);
      CompiledAsParts(parts, count, b);
  }

  /** Batches with ascending ids record each id for one file only. */
  lemma OneFilePerId(history: seq<seq<PackedFile>>, f: PackedFile, g: PackedFile)
    requires J.ProperHistory(history) && J.AscendingHistory(history)
    requires InHistory(history, f) && InHistory(history, g) && f.id == g.id
    ensures f == g
  {
    var i :| 0 <= i < |history| && f in history[i];
    var j :| 0 <= j < |history| && g in history[j];
    if i == j {
      SameFile(history[i], f, g);
    }
  }

  lemma SameFile(files: seq<PackedFile>, f: PackedFile, g: PackedFile)
    requires ProperFiles(files) && f in files && g in files && f.id == g.id
    ensures f == g
  {
    hide ProperTrigrams;
    var unpacked := UnpackAll(files);
    hide UnpackAll;
    var a :| 0 <= a < |files| && files[a] == f;
    var b :| 0 <= b < |files| && files[b] == g;
    assert unpacked[a].id == unpacked[b].id;
  }

  /** The journal's lists have an id under a trigram exactly when the file of that id has it. */
  lemma IdsAreTrigrams(history: seq<seq<PackedFile>>, content: map<nat, seq<byte>>, log: seq<Entry>, f: PackedFile,
                       t: nat)
    requires J.ProperHistory(history) && J.AscendingHistory(history) && PackedFrom(history, content)
    requires J.Represents(log, history) && InHistory(history, f)
    ensures f.id in content
    ensures HasId(log, f.id)(t) <==> HasTrigram(content[f.id], t)
  {
    var k: nat :| k < |history| && f in history[k];
    assert PackedTrigrams(f.bytes, content[f.id]);
    assert Postings(log, t) == J.Contents(history, t);
    J.ContentsExact(history, t, f.id);
    if HasTrigram(content[f.id], t) {
      assert J.RecordedBy(history, t, f.id, k, f);
    }
    if J.Recorded(history, t, f.id) {
      var j: nat, g :| J.RecordedBy(history, t, f.id, j, g);
      assert InHistory(history, g);
      OneFilePerId(history, f, g);
    }
  }

  /** An id that passes a compiled phrase belongs to a file of the history. */
  lemma FoundIsFile(history: seq<seq<PackedFile>>, log: seq<Entry>, input: Phrase, x: nat) returns (f: PackedFile)
    requires J.Represents(log, history) && Compiled(input, HasId(log, x))
    ensures InHistory(history, f) && f.id == x
  {
    if forall t: nat :: !HasId(log, x)(t) {
      NothingFromNothing(input, HasId(log, x));
    }
    var t: nat :| HasId(log, x)(t);
    assert Postings(log, t) == J.Contents(history, t);
    J.ContentsExact(history, t, x);
    var k: nat, g :| J.RecordedBy(history, t, x, k, g);
    f := g;
  }

  /** The lists say of a file just what its content does. */
  lemma FileFound(history: seq<seq<PackedFile>>, content: map<nat, seq<byte>>, log: seq<Entry>, input: Phrase,
                  f: PackedFile)
    requires J.ProperHistory(history) && J.AscendingHistory(history) && PackedFrom(history, content)
    requires J.Represents(log, history) && InHistory(history, f)
    ensures f.id in content && Compiled(input, HasId(log, f.id)) == Compiled(input, TrigramsIn(content[f.id]))
  {
    IdsAreTrigrams(history, content, log, f, 0);
    forall t: nat ensures HasId(log, f.id)(t) == TrigramsIn(content[f.id])(t) {
      IdsAreTrigrams(history, content, log, f, t);
    }
    hide *;
    CompiledCongruent(input, HasId(log, f.id), TrigramsIn(content[f.id]));
  }

  /**
   The right answer to a phrase: newest first, exactly the ids of the files whose trigrams pass the
   compiled phrase; and when the phrase is well formed, no file that satisfies it is missing.
   */
  ghost predicate Answers(history: seq<seq<PackedFile>>, content: map<nat, seq<byte>>, input: Phrase, output: seq<nat>)
    requires PackedFrom(history, content)
  {
    && StrictlyDescending(output)
    && (forall f :: InHistory(history, f) ==> (f.id in output <==> Compiled(input, TrigramsIn(content[f.id]))))
    && (forall x: nat :: x in output ==> exists f :: InHistory(history, f) && f.id == x)
    && (WellFormed(input) ==> forall f :: InHistory(history, f) && Satisfies(input, content[f.id]) ==> f.id in output)
  }

  /** A query that has ended returns the ids that pass the phrase. */
  lemma RunPasses(d: Disk, log: seq<Entry>, input: Phrase, query: Query, events: seq<S.Event>, end: S.World)
    requires Standing(d, log) && AllDescending(log)
    requires Means(query.expressions, query.root, input) && Registered(query, query.root)
    requires S.EndsIn(query, d, events, end)
    ensures StrictlyDescending(end.query.output)
    ensures forall x: nat :: x in end.query.output <==> Compiled(input, HasId(log, x))
  {
    var rank := Ids(query.expressions);
    S.SharedExact(query, rank, d, log, events, end);
    hide S.EndsIn; hide Truth; hide HasId; hide Compiled; hide Standing; hide AllDescending;
    forall x: nat ensures x in end.query.output <==> Compiled(input, HasId(log, x)) {
      assert Truth(query.expressions, HasId(log, x), query.root) <==> Compiled(input, HasId(log, x));
    }
  }

  /** A list of the ids that pass the phrase is the right answer. */
  lemma PassingAnswers(history: seq<seq<PackedFile>>, content: map<nat, seq<byte>>, log: seq<Entry>, input: Phrase,
                       output: seq<nat>)
    requires J.ProperHistory(history) && J.AscendingHistory(history) && PackedFrom(history, content)
    requires J.Represents(log, history) && StrictlyDescending(output)
    requires forall x: nat :: x in output <==> Compiled(input, HasId(log, x))
    ensures Answers(history, content, input, output)
  {
    hide J.ProperHistory; hide J.AscendingHistory; hide J.Represents; hide InHistory; hide HasId; hide TrigramsIn;
    hide Compiled; hide StrictlyDescending; hide WellFormed; hide Satisfies;
    forall f | InHistory(history, f)
      ensures f.id in content && (f.id in output <==> Compiled(input, TrigramsIn(content[f.id])))
    {
      FileFound(history, content, log, input, f);
    }
    forall x: nat | x in output ensures exists f :: InHistory(history, f) && f.id == x {
      var f := FoundIsFile(history, log, input, x);
    }
    if WellFormed(input) {
      forall f | InHistory(history, f) && Satisfies(input, content[f.id]) ensures f.id in output {
        NothingIsLost(input, content[f.id]);
      }
    }
  }

  /** What a search answers, however its workers and readers are scheduled, and whatever is written meanwhile. */
  lemma SearchIsComplete(history: seq<seq<PackedFile>>, content: map<nat, seq<byte>>, d: Disk, log: seq<Entry>,
                         input: Phrase, query: Query, events: seq<S.Event>, end: S.World)
    requires J.ProperHistory(history) && J.AscendingHistory(history) && PackedFrom(history, content)
    requires Standing(d, log) && J.Represents(log, history) && AllDescending(log)
    requires Means(query.expressions, query.root, input) && Registered(query, query.root)
    requires S.EndsIn(query, d, events, end)
    ensures Answers(history, content, input, end.query.output)
  {
    assert d.tail.Some?;
    hide *;
    RunPasses(d, log, input, query, events, end);
    PassingAnswers(history, content, log, input, end.query.output);
  }

  /** Every file that a script writes was packed from its content. */
  ghost predicate ScriptPacked(script: seq<J.Act>, content: map<nat, seq<byte>>) {
    forall i, f :: 0 <= i < |script| && f in J.FilesOf(script[i]) ==>
      f.id in content && PackedTrigrams(f.bytes, content[f.id])
  }

  lemma HistoryPacked(script: seq<J.Act>, history: seq<seq<PackedFile>>, content: map<nat, seq<byte>>)
    requires J.Survives(script, history) && ScriptPacked(script, content)
    ensures PackedFrom(history, content)
  {
    hide PackedTrigrams;
    forall k, f | 0 <= k < |history| && f in history[k]
      ensures f.id in content && PackedTrigrams(f.bytes, content[f.id])
    {
      J.SurvivorsAreWritten(script, history, k);
      var i :| 0 <= i < |script| && script[i].command == J.Write(history[k]);
      assert f in J.FilesOf(script[i]);
    }
  }

  /**
   A query that takes its snapshot of these files can be carried on to its end from wherever it has
   got to, whatever is written meanwhile, and wherever it ends it has the right answer.
   */
  ghost predicate Answerable(query: Query, d: Disk, history: seq<seq<PackedFile>>, content: map<nat, seq<byte>>,
                             input: Phrase)
    requires d.tail.Some? && Registered(query, query.root) && PackedFrom(history, content)
  {
    && (forall events, w :: S.WorldRun(query, S.Snapshot(query, d, Start(query).value), events) == Some(w) ==>
          CanEnd(query, w))
    && (forall events, end :: S.EndsIn(query, d, events, end) ==> Answers(history, content, input, end.query.output))
  }

  ghost predicate CanEnd(query: Query, w: S.World) {
    exists more, end :: S.WorldRun(query, w, more) == Some(end) && end.query.finished
  }

  /**
   From the files to the answer.  Run any script of batches and defrags with any crashes and
   recoveries, and compile any phrase that the compiler does not panic on: the query is refused
   exactly when the phrase collapses to one bare trigram; otherwise it can always be carried on to its
   end, and every way of running it on the journal's files, with more batches and defrags in between,
   ends in the right answer over the batches that had taken effect.
   */
  method IndexAndSearch(script: seq<J.Act>, input: Phrase, ghost content: map<nat, seq<byte>>)
    returns (journal: Option<Journal.JournalFilter>, query: Query, ghost history: seq<seq<PackedFile>>)
    requires J.ProperScript(script) && J.NoEarlyDefragCrash(script) && ScriptPacked(script, content) && NoPanic(input)
    ensures J.CrashesAfterBlock(script) ==> journal.Some?
    ensures journal.Some? ==> J.Holds(journal.value, script, history) && PackedFrom(history, content)
    ensures Registered(query, query.root) <==> !exists t: nat :: IsSingle(input, t)
    ensures journal.Some? && Registered(query, query.root) ==>
              Answerable(query, journal.value.disk, history, content, input)
  {
    journal, history := J.RunScript(script);
    query := Build(input);
    if journal.Some? {
      HistoryPacked(script, history, content);
      J.SurvivorsAreProper(script, history);
      if Registered(query, query.root) {
        SearchRuns(history, content, journal.value.disk, journal.value.log, input, query);
      }
    }
  }

  lemma SearchRuns(history: seq<seq<PackedFile>>, content: map<nat, seq<byte>>, d: Disk, log: seq<Entry>,
                   input: Phrase, query: Query)
    requires J.ProperHistory(history) && J.AscendingHistory(history) && PackedFrom(history, content)
    requires Standing(d, log) && J.Represents(log, history) && AllDescending(log)
    requires Means(query.expressions, query.root, input) && Registered(query, query.root)
    ensures Answerable(query, d, history, content, input)
  {
    var rank := Ids(query.expressions);
    var start := Started(query, rank, log);
    S.SnapshotHolds(query, d, log, start);
    assert d.tail.Some?;
    hide *;
    forall events, w | S.WorldRun(query, S.Snapshot(query, d, start), events) == Some(w) ensures CanEnd(query, w) {
      CarriesOn(query, rank, log, S.Snapshot(query, d, start), events, w);
    }
    forall events, end | S.EndsIn(query, d, events, end) ensures Answers(history, content, input, end.query.output) {
      SearchIsComplete(history, content, d, log, input, query, events, end);
    }
  }

  lemma CarriesOn(query: Query, rank: map<nat, nat>, log: seq<Entry>, w: S.World, events: seq<S.Event>, w': S.World)
    requires S.Snapped(query, w, log) && Inv(query, rank, log, w.query) && S.WorldRun(query, w, events) == Some(w')
    ensures CanEnd(query, w')
  {
    S.RunProjects(query, rank, log, w, events);
    assert Inv(query, rank, log, w'.query);
    var more, end := S.SharedCanFinish(query, rank, log, w');
  }

  // ---------------------------------------------------------------- the lists on disk

  lemma HistorySmall(history: seq<seq<PackedFile>>, log: seq<Entry>)
    requires J.Represents(log, history) && forall f :: InHistory(history, f) ==> f.id < S.U64
    ensures S.SmallIds(log)
  {
    forall t: nat, i | 0 <= i < |Postings(log, t)| ensures Postings(log, t)[i] < S.U64 {
      var x := Postings(log, t)[i];
      assert x in J.Contents(history, t);
      J.ContentsExact(history, t, x);
      var k: nat, f :| J.RecordedBy(history, t, x, k, f);
      assert InHistory(history, f);
    }
  }

  /**
   Reading one trigram's list from the files of a journal that has run any script, chunk by chunk:
   what the query's reader takes from the open file, and what the batches that took effect say.
   */
  method ReadList(journal: Journal.JournalFilter, t: nat, leaves: Option<nat>, ghost script: seq<J.Act>,
                  ghost history: seq<seq<PackedFile>>)
    returns (ok: bool, sent: seq<nat>)
    requires J.Holds(journal, script, history) && t < TRIGRAM_RANGE
    requires |journal.disk.data| <= S.U64 && forall f :: InHistory(history, f) ==> f.id < S.U64
    ensures journal.disk.tail.Some?
    ensures ok && S.ListIn(journal.disk.data, S.RowAt(journal.disk.tail.value, t)) == J.Contents(history, t)
    ensures sent == Cursor.Taken(J.Contents(history, t), leaves)
  {
    HistorySmall(history, journal.log);
    assert Postings(journal.log, t) == J.Contents(history, t);
    ok, sent := S.ReadRow(journal.disk, t, leaves, journal.log);
  }

  // ---------------------------------------------------------------- from the file table to the answer

  /** What the feeder loads was packed from the content of the file with that number. */
  ghost predicate EventsPacked(events: seq<F.Event>, content: map<nat, seq<byte>>) {
    forall i, n :: 0 <= i < |events| && events[i].Write? && n in events[i].loaded ==>
      n in content && PackedTrigrams(events[i].loaded[n], content[n])
  }

  lemma PackedEventsAreGood(events: seq<F.Event>, content: map<nat, seq<byte>>)
    requires EventsPacked(events, content)
    ensures F.GoodEvents(events)
  {
    forall i | 0 <= i < |events| && events[i].Write? ensures F.GoodLoads(events[i].loaded) {
      F.PackedLoads(events[i].loaded, content);
    }
  }

  /** The batches of the feeder, each written without a crash. */
  function ScriptOf(history: seq<seq<PackedFile>>): seq<J.Act> {
    seq(|history|, k requires 0 <= k < |history| => J.Act(J.Write(history[k]), None, []))
  }

  lemma {:induction false} AllSurvive(history: seq<seq<PackedFile>>, survived: seq<seq<PackedFile>>)
    requires J.Survives(ScriptOf(history), survived)
    ensures survived == history
  {
    var script, n := ScriptOf(history), |history| - 1;
    if history != [] {
      assert script[..n] == ScriptOf(history[..n]);
      AllSurvive(history[..n], survived[..|survived| - 1]);
      assert survived == survived[..|survived| - 1] + [history[n]];
      assert history == history[..n] + [history[n]];
    }
  }

  lemma ProperScriptOf(history: seq<seq<PackedFile>>)
    requires J.ProperHistory(history) && J.AscendingHistory(history)
    ensures J.ProperScript(ScriptOf(history)) && J.NoEarlyDefragCrash(ScriptOf(history))
            && J.CrashesAfterBlock(ScriptOf(history))
  {
  }

  /** What the feeder hands over was packed from its content, and is all that it could load. */
  lemma FedFiles(writes: seq<F.Handed>, events: seq<F.Event>, content: map<nat, seq<byte>>)
    requires F.Rising(writes) && F.FromEvents(writes, events) && EventsPacked(events, content)
    ensures PackedFrom(F.Batches(writes), content)
    ensures LoadedWritten(writes, F.Batches(writes))
  {
    var history := F.Batches(writes);
    forall k, f: PackedFile | 0 <= k < |history| && f in history[k]
      ensures f.id in content && PackedTrigrams(f.bytes, content[f.id])
    {
      F.LoadedFacts(writes[k].batch, writes[k].loaded);
      var i :| 0 <= i < |events| && events[i] == F.Write(writes[k].loaded);
    }
    forall k: nat, n | F.InBatchAt(writes, k, n) && n in writes[k].loaded
      ensures InHistory(history, PackedFile(n, writes[k].loaded[n]))
    {
      F.LoadedFacts(writes[k].batch, writes[k].loaded);
      assert PackedFile(n, writes[k].loaded[n]) in history[k];
    }
  }

  /** A search finds every file that satisfies the phrase and is marked as ingested, unless its load had failed. */
  ghost predicate FindsMarked(rows: Ingest.Table, writes: seq<F.Handed>, content: map<nat, seq<byte>>, input: Phrase,
                              output: seq<nat>)
  {
    forall n :: n in rows && rows[n].ingested ==>
      && (exists k: nat :: F.InBatchAt(writes, k, n))
      && forall k: nat :: F.InBatchAt(writes, k, n) && n in writes[k].loaded ==>
           n in content && (WellFormed(input) && Satisfies(input, content[n]) ==> n in output)
  }

  /**
   From the file table to the answer.  Feed files to the journal in any orderly run, with files coming
   and going at any time, then search: the query finds every file that the table calls ingested and
   that satisfies the phrase, unless its trigrams could not be loaded for the batch it was in.
   */
  method FeedAndSearch(events: seq<F.Event>, input: Phrase, ghost content: map<nat, seq<byte>>)
    returns (feeder: F.Feeder, journal: Journal.JournalFilter, query: Query, ghost states: seq<F.State>)
    requires F.Orderly(events, false) && EventsPacked(events, content) && NoPanic(input)
    ensures F.Trace(events, states) && states[0].phase.Idle? && states[|events|] == feeder.Now()
    ensures forall k :: 0 <= k <= |events| ==> F.Kept(states[k])
    ensures feeder.Valid() && journal.Valid() && J.Represents(journal.log, F.Batches(feeder.writes))
    ensures Registered(query, query.root) <==> !exists t: nat :: IsSingle(input, t)
    ensures Registered(query, query.root) ==>
              forall steps, end :: S.EndsIn(query, journal.disk, steps, end) ==>
                FindsMarked(feeder.table.rows, feeder.writes, content, input, end.query.output)
  {
    PackedEventsAreGood(events, content);
    feeder, states := F.Run(events);
    var history := F.Batches(feeder.writes);
    FedFiles(feeder.writes, events, content);
    ProperScriptOf(history);
    hide *;
    var outcome, survived := J.RunScript(ScriptOf(history));
    journal := Survivor(outcome, history, survived);
    query := Build(input);
    if Registered(query, query.root) {
      FeederTracked(feeder);
      Searched(feeder.table.rows, feeder.table.next, feeder.phase, feeder.writes, journal.disk, journal.log, content,
          input, query);
    }
  }

  /**
   A file that waits once the last files have been inserted, is taken and loaded in the round that
   ends the run, and satisfies a well-formed phrase: the search finds it.
   */
  lemma InsertedIsFound(events: seq<F.Event>, states: seq<F.State>, i: nat, n: nat, content: map<nat, seq<byte>>,
                        input: Phrase, output: seq<nat>)
    requires F.Trace(events, states) && EventsPacked(events, content) && i + 4 == |events|
    requires events[i].Insert? && events[i + 1].Choose? && events[i + 2].Write? && events[i + 3].Finish?
    requires states[i].phase.Idle? && F.Kept(states[i]) && F.Kept(states[i + 4])
    requires |F.WaitingNumbers(states[i + 1].files.rows)| <= events[i + 1].limit
    requires FindsMarked(states[i + 4].files.rows, states[i + 4].writes, content, input, output)
    requires n in F.WaitingNumbers(states[i + 1].files.rows) && n in events[i + 2].loaded
    ensures n in content && (WellFormed(input) && Satisfies(input, content[n]) ==> n in output)
  {
    PackedEventsAreGood(events, content);
    F.InsertedGetsMarked(events, states, i);
    var end := states[i + 4];
    assert n in end.files.rows && end.files.rows[n].ingested && n in F.WrittenIds(F.Batches(end.writes));
    assert F.Rising(end.writes);
    hide F.Kept; hide F.Trace; hide F.Steps; hide Satisfies; hide WellFormed;
    var k: nat := F.WrittenWhere(end.writes, n);
  }

  /** Without crashes the journal is open, and every batch took effect. */
  method Survivor(outcome: Option<Journal.JournalFilter>, ghost history: seq<seq<PackedFile>>,
                  ghost survived: seq<seq<PackedFile>>)
    returns (journal: Journal.JournalFilter)
    requires outcome.Some? && J.Holds(outcome.value, ScriptOf(history), survived)
    ensures journal == outcome.value && journal.Valid() && AllDescending(journal.log)
    ensures Standing(journal.disk, journal.log) && J.Represents(journal.log, history)
  {
    AllSurvive(history, survived);
    journal := outcome.value;
  }

  lemma FeederTracked(feeder: F.Feeder)
    requires feeder.Valid()
    ensures F.Tracked(feeder.table.rows, feeder.table.next, feeder.phase, feeder.writes)
  {
  }

  /** The files that were loaded and written. */
  ghost predicate LoadedWritten(writes: seq<F.Handed>, history: seq<seq<PackedFile>>) {
    forall k: nat, n :: F.InBatchAt(writes, k, n) && n in writes[k].loaded ==>
      InHistory(history, PackedFile(n, writes[k].loaded[n]))
  }

  lemma Searched(rows: Ingest.Table, next: nat, phase: F.Phase, writes: seq<F.Handed>, d: Disk, log: seq<Entry>,
                 content: map<nat, seq<byte>>, input: Phrase, query: Query)
    requires F.Tracked(rows, next, phase, writes) && LoadedWritten(writes, F.Batches(writes))
    requires J.ProperHistory(F.Batches(writes)) && J.AscendingHistory(F.Batches(writes))
             && PackedFrom(F.Batches(writes), content)
    requires Standing(d, log) && J.Represents(log, F.Batches(writes)) && AllDescending(log)
    requires Means(query.expressions, query.root, input) && Registered(query, query.root)
    ensures d.tail.Some?
    ensures forall steps, end :: S.EndsIn(query, d, steps, end) ==>
              FindsMarked(rows, writes, content, input, end.query.output)
  {
    assert d.tail.Some?;
    hide *;
    forall steps, end | S.EndsIn(query, d, steps, end)
      ensures FindsMarked(rows, writes, content, input, end.query.output)
    {
      SearchIsComplete(F.Batches(writes), content, d, log, input, query, steps, end);
      MarkedFound(rows, next, phase, writes, content, input, end.query.output);
    }
  }

  lemma MarkedFound(rows: Ingest.Table, next: nat, phase: F.Phase, writes: seq<F.Handed>, content: map<nat, seq<byte>>,
                    input: Phrase, output: seq<nat>)
    requires F.Tracked(rows, next, phase, writes) && LoadedWritten(writes, F.Batches(writes))
    requires PackedFrom(F.Batches(writes), content) && Answers(F.Batches(writes), content, input, output)
    ensures FindsMarked(rows, writes, content, input, output)
  {
    var history := F.Batches(writes);
    forall n | n in rows && rows[n].ingested
      ensures exists k: nat :: F.InBatchAt(writes, k, n)
      ensures forall k: nat :: F.InBatchAt(writes, k, n) && n in writes[k].loaded ==>
                n in content && (WellFormed(input) && Satisfies(input, content[n]) ==> n in output)
    {
      assert n in F.Given(writes);
      var j: nat :| j < |writes| && n in Ingest.Numbers(writes[j].batch);
      assert F.InBatchAt(writes, j, n);
      forall k: nat | F.InBatchAt(writes, k, n) && n in writes[k].loaded
        ensures n in content && (WellFormed(input) && Satisfies(input, content[n]) ==> n in output)
      {
        var f := PackedFile(n, writes[k].loaded[n]);
        assert InHistory(history, f);
      }
    }
  }
}
