/**
 Whole runs of a journal: any sequence of batches and defrags, any of them cut short by a crash
 at any change of the files, any recovery cut short in turn.
 */
module JournalRuns {
  import opened Bytes
  import opened JournalLog
  import opened JournalDisk
  import opened Collector
  import opened Journal

  // ---------------------------------------------------------------- what a history of batches means

  /** The ids recorded for a trigram by a history of batches, newest batch first. */
  function Contents(history: seq<seq<PackedFile>>, t: nat): seq<nat> {
    if history == [] then []
    else Holders(UnpackAll(SortFiles(history[|history| - 1])), t) + Contents(history[..|history| - 1], t)
  }

  /** The journal's posting lists are those of the history. */
  ghost predicate Represents(log: seq<Entry>, history: seq<seq<PackedFile>>) {
    forall t: nat :: Postings(log, t) == Contents(history, t)
  }

  ghost predicate ProperHistory(history: seq<seq<PackedFile>>) {
    forall i :: 0 <= i < |history| ==> ProperFiles(history[i])
  }

  /** The ids of a batch exceed the ids of every earlier batch. */
  ghost predicate AscendingHistory(history: seq<seq<PackedFile>>) {
    forall i, j, f, g :: 0 <= i < j < |history| && f in history[i] && g in history[j] ==> f.id < g.id
  }

  ghost predicate RecordedBy(history: seq<seq<PackedFile>>, t: nat, id: nat, k: nat, f: PackedFile) {
    k < |history| && f in history[k] && f.id == id && t in f.Unpack().trigrams
  }

  /** Some file of the history has this id and contains the trigram. */
  ghost predicate Recorded(history: seq<seq<PackedFile>>, t: nat, id: nat) {
    exists k: nat, f :: RecordedBy(history, t, id, k, f)
  }

  lemma RecordedSnoc(history: seq<seq<PackedFile>>, t: nat, id: nat)
    requires history != []
    ensures Recorded(history, t, id)
       <==> || (exists f :: f in history[|history| - 1] && f.id == id && t in f.Unpack().trigrams)
            || Recorded(history[..|history| - 1], t, id)
  {
    var n := |history| - 1;
    if f :| f in history[n] && f.id == id && t in f.Unpack().trigrams {
      assert RecordedBy(history, t, id, n, f);
    }
    if k: nat, f :| RecordedBy(history[..n], t, id, k, f) {
      assert RecordedBy(history, t, id, k, f);
    }
    if k: nat, f :| RecordedBy(history, t, id, k, f) {
      if k < n { assert RecordedBy(history[..n], t, id, k, f); }
    }
  }

  /** A posting list holds exactly the ids of the files of the history that contain the trigram. */
  lemma {:induction false} ContentsExact(history: seq<seq<PackedFile>>, t: nat, id: nat)
    ensures id in Contents(history, t) <==> Recorded(history, t, id)
  {
    if history != [] {
      ContentsExact(history[..|history| - 1], t, id);
      SortedHolders(history[|history| - 1], t, id);
      ContentsLast(history, t);
      RecordedSnoc(history, t, id);
      hide *;
    }
  }

  lemma ContentsLast(history: seq<seq<PackedFile>>, t: nat)
    requires history != []
    ensures Contents(history, t)
         == Holders(UnpackAll(SortFiles(history[|history| - 1])), t) + Contents(history[..|history| - 1], t)
  {
  }

  lemma NewerExceedsOlder(history: seq<seq<PackedFile>>, t: nat, x: nat, y: nat)
    requires AscendingHistory(history) && history != []
    requires x in Holders(UnpackAll(SortFiles(history[|history| - 1])), t) && y in Contents(history[..|history| - 1], t)
    ensures y < x
  {
    var n := |history| - 1;
    SortedHolders(history[n], t, x);
    ContentsExact(history[..n], t, y);
    var k: nat, f :| RecordedBy(history[..n], t, y, k, f);
    var g :| g in history[n] && g.id == x && t in g.Unpack().trigrams;
    assert f in history[k];
  }

  /** When batches come with ascending ids, every posting list is strictly descending. */
  lemma {:induction false} ContentsDescend(history: seq<seq<PackedFile>>, t: nat)
    requires ProperHistory(history) && AscendingHistory(history)
    ensures StrictlyDescending(Contents(history, t))
  {
    if history != [] {
      var n := |history| - 1;
      assert forall i :: 0 <= i < n ==> history[..n][i] == history[i];
      ContentsDescend(history[..n], t);
      ProperBatch(history[n]);
      var newer, older := Holders(UnpackAll(SortFiles(history[n])), t), Contents(history[..n], t);
      HoldersDescend(UnpackAll(SortFiles(history[n])), t);
      forall i, j | 0 <= i < |newer| && 0 <= j < |older| ensures newer[i] > older[j] {
        NewerExceedsOlder(history, t, newer[i], older[j]);
      }
      hide *;
      DescendingConcat(newer, older);
    }
  }

  lemma DescendingConcat(a: seq<nat>, b: seq<nat>)
    requires StrictlyDescending(a) && StrictlyDescending(b)
    requires forall i, j :: 0 <= i < |a| && 0 <= j < |b| ==> a[i] > b[j]
    ensures StrictlyDescending(a + b)
  {
  }

  // ---------------------------------------------------------------- crashes

  /** What a loss of power leaves of a tail file that was not synced. */
  datatype TailLeft = Gone | Rows(count: nat) | Whole

  /** A crash after the change `at` of the files: the process dies, or the power is lost as well. */
  datatype Crash = Crash(at: nat, power: bool, garbage: seq<byte>, left: TailLeft)

  function TailAfter(d: Disk, left: TailLeft): Option<Tail> {
    if d.tailSynced || d.tail.None? then d.tail
    else
      var rows := d.tail.value.rows;
      match left
      case Gone => None
      case Rows(n) => Some(Tail(rows[..if n < |rows| then n else |rows|], None))
      case Whole => d.tail
  }

  /** The files after a crash. */
  function AfterCrash(d: Disk, crash: Crash): Disk
    requires Sane(d)
  {
    if !crash.power then d
    else
      var room := if |d.data| <= |HEADER| then |HEADER| - d.synced else |crash.garbage|;
      var kept := if |crash.garbage| < room then |crash.garbage| else room;
      var data := d.data[..d.synced] + if d.present then crash.garbage[..kept] else [];
      d.(data := data, synced := |data|, tail := TailAfter(d, crash.left), tailSynced := true)
  }

  /** Crashes as the runs below meet them are all there are. */
  lemma EveryCrash(d: Disk, d': Disk)
    requires Sane(d)
    ensures CrashOf(d, d') <==> exists crash :: AfterCrash(d, crash) == d'
  {
    if PowerLoss(d, d') {
      var left := if d'.tail.None? then Gone else if d'.tail == d.tail then Whole else Rows(|d'.tail.value.rows|);
      var crash := Crash(0, true, d'.data[d.synced..], left);
      assert d'.data == d'.data[..d.synced] + d'.data[d.synced..];
      assert crash.garbage[..|crash.garbage|] == crash.garbage;
      if left.Rows? { assert d'.tail.value.rows == d.tail.value.rows[..left.count]; }
      assert TailAfter(d, left) == d'.tail;
      assert AfterCrash(d, crash) == d';
    } else if d' == d {
      assert AfterCrash(d, Crash(0, false, [], Gone)) == d';
    }
    if crash :| AfterCrash(d, crash) == d' {
      assert !crash.power || PowerLoss(d, d');
    }
  }

  lemma ReachesSane(d: Disk, log: seq<Entry>)
    requires Reaches(d, log)
    ensures Sane(d)
  {
  }

  /** An open journal that holds the log, with no install waiting, whose recovery was safe at every step. */
  ghost predicate Recovered(journal: JournalFilter, log: seq<Entry>)
    reads journal
  {
    && journal.Valid() && Committed(journal.disk, log) && journal.log == log && journal.running
    && ReachTrace([], journal.trace, log)
  }

  /** What opening makes of the files that the crash leaves; no journal exactly when it reports an error. */
  ghost predicate ReopensAs(d: Disk, crash: Crash, journal: Option<JournalFilter>)
    reads if journal.Some? then {journal.value} else {}
  {
    && Sane(d) && (journal.Some? <==> Opened(AfterCrash(d, crash)).Some?)
    && (journal.Some? ==> journal.value.disk == Opened(AfterCrash(d, crash)).value)
  }

  /**
   A crash in any of the given states of the files, and the journal that opening it gives: it holds
   one of the two logs.  Only a journal without blocks may fail to open.
   */
  method CrashAndReopen(states: seq<Disk>, crash: Crash, ghost a: seq<Entry>, ghost b: seq<Entry>)
    returns (journal: Option<JournalFilter>)
    requires states != [] && forall k :: 0 <= k < |states| ==> Reaches(states[k], a) || Reaches(states[k], b)
    ensures journal.Some? ==> fresh(journal.value) && (Recovered(journal.value, a) || Recovered(journal.value, b))
    ensures a != [] && b != [] ==> journal.Some?
    ensures ReopensAs(states[crash.at % |states|], crash, journal)
  {
    var d := states[crash.at % |states|];
    ghost var log := if Reaches(d, a) then a else b;
    ReachesSane(d, log);
    var d' := AfterCrash(d, crash);
    EveryCrash(d, d');
    CrashKeepsRecovery(d, d', log);
    if Recovers(d', log) { RecoversOpened(d', log); } else { CutShortFails(d'); }
    ReachesSane(d', log);
    hide Recovers; hide Committed; hide CrashOf; hide Opened; hide ReachTrace; hide AfterCrash; hide Sane;
    hide CutShort;
    journal := JournalFilter.Open(d', log);
  }

  /** Recovery itself may crash, again and again: the contents stay. */
  method ReopenUntilItHolds(start: JournalFilter, crashes: seq<Crash>) returns (journal: Option<JournalFilter>)
    requires Recovered(start, start.log)
    ensures journal.Some? ==> Recovered(journal.value, start.log) && (journal == Some(start) || fresh(journal.value))
    ensures start.log != [] ==> journal.Some?
  {
    journal := Some(start);
    for i := 0 to |crashes|
      invariant journal.Some? ==>
                  Recovered(journal.value, start.log) && (journal == Some(start) || fresh(journal.value))
      invariant start.log != [] ==> journal.Some?
    {
      if journal.None? { return; }
      var states := journal.value.trace + [journal.value.disk];
      assert Reaches(journal.value.disk, start.log);
      hide Reaches; hide Committed;
      journal := CrashAndReopen(states, crashes[i], start.log, start.log);
    }
  }

  // ---------------------------------------------------------------- any run

  datatype Command = Write(files: seq<PackedFile>) | Defrag

  /** A command, whether a crash cuts it short, and the crashes of the recoveries that follow. */
  datatype Act = Act(command: Command, crash: Option<Crash>, recoveryCrashes: seq<Crash>)

  /** `history` holds every batch of the script in order, except that crashed ones may be missing. */
  ghost predicate Survives(script: seq<Act>, history: seq<seq<PackedFile>>) {
    if script == [] then history == []
    else
      var act, earlier := script[|script| - 1], script[..|script| - 1];
      match act.command
      case Defrag => Survives(earlier, history)
      case Write(files) =>
        || (history != [] && history[|history| - 1] == files && Survives(earlier, history[..|history| - 1]))
        || (act.crash.Some? && Survives(earlier, history))
  }

  function FilesOf(act: Act): seq<PackedFile> {
    match act.command
    case Write(files) => files
    case Defrag => []
  }

  ghost predicate ProperScript(script: seq<Act>) {
    && (forall i :: 0 <= i < |script| && script[i].command.Write? ==> ProperFiles(script[i].command.files))
    && (forall i, j, f, g :: 0 <= i < j < |script| && f in FilesOf(script[i]) && g in FilesOf(script[j]) ==>
          f.id < g.id)
  }

  /** Some batch that no crash touched holds some trigram: from then on the journal has a block. */
  ghost predicate HasBlock(script: seq<Act>) {
    exists i, f, t :: 0 <= i < |script| && script[i].command.Write? && script[i].crash.None?
      && f in script[i].command.files && t in f.Unpack().trigrams
  }

  /** A defrag meets no crash while the journal may still be without blocks. */
  ghost predicate NoEarlyDefragCrash(script: seq<Act>) {
    forall i :: 0 <= i < |script| && script[i].command.Defrag? && script[i].crash.Some? ==> HasBlock(script[..i])
  }

  lemma {:induction false} SurvivorsAreWritten(script: seq<Act>, history: seq<seq<PackedFile>>, k: nat)
    requires Survives(script, history) && k < |history|
    ensures exists i :: 0 <= i < |script| && script[i].command == Write(history[k])
  {
    var n := |script| - 1;
    var act, earlier := script[n], script[..n];
    var written := act.command.Write? && history[|history| - 1] == act.command.files
                   && Survives(earlier, history[..|history| - 1]);
    if written && k == |history| - 1 {
      assert script[n].command == Write(history[k]);
    } else {
      var h := if written then history[..|history| - 1] else history;
      SurvivorsAreWritten(earlier, h, k);
      var i :| 0 <= i < |earlier| && earlier[i].command == Write(h[k]);
      assert script[i].command == Write(history[k]);
    }
  }

  lemma {:induction false} SurvivorsAreProper(script: seq<Act>, history: seq<seq<PackedFile>>)
    requires Survives(script, history) && ProperScript(script)
    ensures ProperHistory(history) && AscendingHistory(history)
  {
    if script != [] {
      var n := |script| - 1;
      var act, earlier := script[n], script[..n];
      assert forall i :: 0 <= i < n ==> earlier[i] == script[i];
      assert ProperScript(earlier);
      if act.command.Write? && history != [] && history[|history| - 1] == act.command.files
         && Survives(earlier, history[..|history| - 1]) {
        var h := history[..|history| - 1];
        SurvivorsAreProper(earlier, h);
        forall i, f: PackedFile, g: PackedFile | 0 <= i < |h| && f in h[i] && g in act.command.files
          ensures f.id < g.id
        {
          SurvivorsAreWritten(earlier, h, i);
          var m :| 0 <= m < n && earlier[m].command == Write(h[i]);
          assert FilesOf(script[m]) == h[i] && FilesOf(script[n]) == act.command.files;
        }
        ProperSnoc(h, act.command.files);
        assert h + [act.command.files] == history;
      } else {
        SurvivorsAreProper(earlier, history);
      }
    }
  }

  lemma ProperSnoc(h: seq<seq<PackedFile>>, files: seq<PackedFile>)
    requires ProperHistory(h) && AscendingHistory(h) && ProperFiles(files)
    requires forall i, f: PackedFile, g: PackedFile :: 0 <= i < |h| && f in h[i] && g in files ==> f.id < g.id
    ensures ProperHistory(h + [files]) && AscendingHistory(h + [files])
  {
    hide ProperFiles;
  }

  /** A batch that no crash touched is in every surviving history, so its blocks are in the journal. */
  lemma {:induction false} BlockSurvives(script: seq<Act>, history: seq<seq<PackedFile>>, i: nat, f: PackedFile, t: nat)
    requires Survives(script, history) && i < |script| && script[i].command.Write? && script[i].crash.None?
    requires f in script[i].command.files && t in f.Unpack().trigrams
    ensures Contents(history, t) != []
  {
    var n := |script| - 1;
    var act, earlier := script[n], script[..n];
    if i == n {
      SortedHolders(act.command.files, t, f.id);
    } else {
      assert earlier[i] == script[i];
      if act.command.Write? && history != [] && Survives(earlier, history[..|history| - 1])
          && history[|history| - 1] == act.command.files {
        BlockSurvives(earlier, history[..|history| - 1], i, f, t);
      } else {
        BlockSurvives(earlier, history, i, f, t);
      }
    }
  }

  /** A crash meets the journal only once it has a block. */
  ghost predicate CrashesAfterBlock(script: seq<Act>) {
    forall i :: 0 <= i < |script| && script[i].crash.Some? ==> HasBlock(script[..i])
  }

  /** After the acts of `script` the journal holds what survives of them. */
  ghost predicate Holds(journal: JournalFilter, script: seq<Act>, history: seq<seq<PackedFile>>)
    reads journal
  {
    && journal.Valid() && journal.running && journal.disk.dotTail.None? && Survives(script, history)
    && Represents(journal.log, history) && AllDescending(journal.log)
  }

  lemma HistoryDescends(script: seq<Act>, history: seq<seq<PackedFile>>, log: seq<Entry>)
    requires Survives(script, history) && ProperScript(script) && Represents(log, history)
    ensures AllDescending(log)
  {
    SurvivorsAreProper(script, history);
    forall t: nat ensures StrictlyDescending(Postings(log, t)) {
      ContentsDescend(history, t);
    }
  }

  lemma BlockInLog(script: seq<Act>, history: seq<seq<PackedFile>>, log: seq<Entry>)
    requires Survives(script, history) && Represents(log, history) && HasBlock(script)
    ensures log != []
  {
    var i, f, t :| 0 <= i < |script| && script[i].command.Write? && script[i].crash.None?
      && f in script[i].command.files && t in f.Unpack().trigrams;
    BlockSurvives(script, history, i, f, t);
    assert Postings(log, t) == Contents(history, t);
  }

  /** What a batch that took effect makes of the history. */
  lemma BatchRepresented(log: seq<Entry>, log': seq<Entry>, history: seq<seq<PackedFile>>, files: seq<PackedFile>)
    requires Represents(log, history)
    requires forall t: nat :: Postings(log', t) == Holders(UnpackAll(SortFiles(files)), t) + Postings(log, t)
    ensures Represents(log', history + [files])
  {
    assert (history + [files])[..|history|] == history;
  }

  /**
   Any run.  Whatever batches and defrags are run, wherever crashes cut them or the recoveries
   short, and whatever the crashes leave, a journal that is open at the end holds exactly the
   posting lists of the batches that took effect, each strictly descending.  A journal that has a
   block before any crash is always open at the end: only a new journal, whose first tail was cut,
   can fail to open or to take a batch.
   */
  method RunScript(script: seq<Act>) returns (journal: Option<JournalFilter>, ghost history: seq<seq<PackedFile>>)
    requires ProperScript(script) && NoEarlyDefragCrash(script)
    ensures journal.Some? ==> Holds(journal.value, script, history)
    ensures CrashesAfterBlock(script) ==> journal.Some?
  {
    var first := JournalFilter.New();
    journal, history := Some(first), [];
    HistoryDescends([], [], first.log);
    assert script[..0] == [];
    assert first.disk.tail.value.generation.Some?;
    hide *;
    for i := 0 to |script|
      invariant journal.Some? ==> Holds(journal.value, script[..i], history) && fresh(journal.value)
      invariant CrashesAfterBlock(script) ==> journal.Some? && Numbered(journal.value.disk)
    {
      if journal.None? { return; }
      ScriptStep(script, i);
      journal, history := Perform(journal.value, script[..i], script[i], history);
    }
    assert script[..|script|] == script;
  }

  lemma ScriptStep(script: seq<Act>, i: nat)
    requires ProperScript(script) && NoEarlyDefragCrash(script) && i < |script|
    ensures script[..i] + [script[i]] == script[..i + 1] && ProperScript(script[..i] + [script[i]])
    ensures script[i].command.Defrag? && script[i].crash.Some? ==> HasBlock(script[..i])
    ensures CrashesAfterBlock(script) && script[i].crash.Some? ==> HasBlock(script[..i])
  {
    hide HasBlock;
    assert forall j :: 0 <= j <= i ==> script[..i + 1][j] == script[j];
  }

  lemma SurvivesStep(script: seq<Act>, act: Act, history: seq<seq<PackedFile>>)
    requires Survives(script, history)
    ensures act.command.Defrag? ==> Survives(script + [act], history)
    ensures act.command.Write? ==> Survives(script + [act], history + [act.command.files])
    ensures act.command.Write? && act.crash.Some? ==> Survives(script + [act], history)
  {
    assert (script + [act])[..|script|] == script && (script + [act])[|script|] == act;
    if act.command.Write? {
      assert (history + [act.command.files])[..|history|] == history;
    }
  }

  lemma StatesRecover(earlier: seq<Disk>, trace: seq<Disk>, d: Disk, a: seq<Entry>, b: seq<Entry>)
    requires SafeTrace(earlier, trace, a, b) && Committed(d, b)
    ensures |earlier| <= |trace|
    ensures var states := trace[|earlier|..] + [d];
            forall k :: 0 <= k < |states| ==> Reaches(states[k], a) || Reaches(states[k], b)
  {
    assert Recovers(d, b);
    hide Committed; hide Recovers;
  }

  lemma SameRepresented(a: seq<Entry>, b: seq<Entry>, history: seq<seq<PackedFile>>)
    requires Represents(a, history) && SamePostings(a, b)
    ensures Represents(b, history)
  {
  }

  /** A batch or a defrag that runs to its end. */
  method Execute(journal: JournalFilter, ghost script: seq<Act>, act: Act, ghost history: seq<seq<PackedFile>>)
    returns (failed: bool, ghost history': seq<seq<PackedFile>>)
    requires Holds(journal, script, history) && ProperScript(script + [act])
    requires act.command.Defrag? && act.crash.Some? ==> HasBlock(script)
    modifies journal
    ensures journal.Valid() && journal.running && Committed(journal.disk, journal.log)
    ensures !failed ==> Represents(journal.log, history') && Numbered(journal.disk)
    ensures failed ==> old(!Numbered(journal.disk))
    ensures history' == match act.command case Write(files) => history + [files] case Defrag => history
    ensures HasBlock(script) ==> old(journal.log) != [] && (!failed ==> journal.log != [])
    ensures act.crash.Some? && !failed ==> SafeTrace(old(journal.trace), journal.trace, old(journal.log), journal.log)
  {
    assert act.command.Write? ==> ProperFiles(act.command.files) by { assert (script + [act])[|script|] == act; }
    if HasBlock(script) { BlockInLog(script, history, journal.log); }
    hide Recovers; hide Contents; hide ProperScript; hide HasBlock; hide AllDescending; hide SamePostings; hide Adds;
    hide SafeTrace; hide Guarded;
    ghost var before, trace0 := journal.log, journal.trace;
    match act.command {
      case Write(files) =>
        var r := journal.WriteBatch(files);
        history' := history + [files];
        failed := r.Failed?;
        if !failed { BatchRepresented(before, journal.log, history, files); }
        GuardedIsSafe(journal.disk, trace0, journal.trace, before, journal.log);
      case Defrag =>
        var r := journal.Defrag();
        SameRepresented(before, journal.log, history);
        history', failed := history, false;
    }
    if !failed && before != [] { StillBlocks(before, journal.log, history, history'); }
  }

  lemma StillBlocks(before: seq<Entry>, after: seq<Entry>, history: seq<seq<PackedFile>>,
                    history': seq<seq<PackedFile>>)
    requires Represents(before, history) && Represents(after, history') && ProperEntries(before) && before != []
    requires history' == history || (history' != [] && history'[..|history'| - 1] == history)
    ensures after != []
  {
    var t := before[|before| - 1].trigram;
    NoAddressNoPostings(before, t);
    assert Contents(history, t) == Postings(before, t) && Contents(history', t) == Postings(after, t);
  }

  /** The batches that took effect, when the journal ends up with this log. */
  lemma Outcome(script: seq<Act>, act: Act, history: seq<seq<PackedFile>>, history': seq<seq<PackedFile>>,
                log: seq<Entry>)
    requires Survives(script, history) && ProperScript(script + [act]) && Represents(log, history')
    requires || history' == (match act.command case Write(files) => history + [files] case Defrag => history)
             || (act.crash.Some? && history' == history)
    ensures Survives(script + [act], history') && AllDescending(log)
  {
    SurvivesStep(script, act, history);
    HistoryDescends(script + [act], history', log);
  }

  lemma HoldsNow(journal: JournalFilter, script: seq<Act>, history: seq<seq<PackedFile>>)
    requires journal.Valid() && Committed(journal.disk, journal.log) && journal.running
    requires Survives(script, history) && Represents(journal.log, history) && AllDescending(journal.log)
    ensures Holds(journal, script, history)
  {
  }

  method Perform(journal: JournalFilter, ghost script: seq<Act>, act: Act, ghost history: seq<seq<PackedFile>>)
    returns (journal': Option<JournalFilter>, ghost history': seq<seq<PackedFile>>)
    requires Holds(journal, script, history) && ProperScript(script + [act])
    requires act.command.Defrag? && act.crash.Some? ==> HasBlock(script)
    modifies journal
    ensures journal'.Some? ==> Holds(journal'.value, script + [act], history')
    ensures journal'.Some? ==> journal'.value == journal || fresh(journal'.value)
    ensures old(Numbered(journal.disk)) && (act.crash.Some? ==> HasBlock(script)) ==>
              journal'.Some? && Numbered(journal'.value.disk)
  {
    assert Survives(script, history) && Represents(journal.log, history);
    hide *;
    var steps := |journal.trace|;
    ghost var before, trace0 := journal.log, journal.trace;
    var failed;
    failed, history' := Execute(journal, script, act, history);
    if failed { return None, history'; }
    if act.crash.None? {
      Outcome(script, act, history, history', journal.log);
      HoldsNow(journal, script + [act], history');
      return Some(journal), history';
    }
    var states := journal.trace[steps..] + [journal.disk];
    ghost var after := journal.log;
    StatesRecover(trace0, journal.trace, journal.disk, before, after);
    var survivor := CrashAndReopen(states, act.crash.value, before, after);
    if survivor.None? { return None, history'; }
    RecoveredEither(survivor.value, before, after);
    if survivor.value.log == before { history' := history; }
    journal' := ReopenUntilItHolds(survivor.value, act.recoveryCrashes);
    if journal'.Some? {
      Outcome(script, act, history, history', survivor.value.log);
      RecoveredHolds(journal'.value, survivor.value.log, script + [act], history');
    }
  }

  lemma RecoveredEither(journal: JournalFilter, a: seq<Entry>, b: seq<Entry>)
    requires Recovered(journal, a) || Recovered(journal, b)
    ensures Recovered(journal, journal.log) && (journal.log == a || journal.log == b)
  {
  }

  lemma RecoveredHolds(journal: JournalFilter, log: seq<Entry>, script: seq<Act>, history: seq<seq<PackedFile>>)
    requires Recovered(journal, log) && Survives(script, history) && Represents(log, history) && AllDescending(log)
    ensures Holds(journal, script, history) && (log != [] ==> Numbered(journal.disk))
  {
  }
}
