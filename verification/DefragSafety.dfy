/**
 When a defrag may be stopped.  A defrag goes through four states of the files; the service is
 started again from one of them, a batch is written, and the service is started once more.  The
 batch and everything before it are then in the journal exactly when it had a block before the defrag.
 */
module DefragSafety {
  import opened Bytes
  import opened Encoding
  import opened Blocks
  import opened JournalLog
  import opened JournalDisk
  import opened Collector
  import opened Journal
  import Sorting

  // ---------------------------------------------------------------- what the files say

  /** The posting list that the files have for a trigram. */
  function ListOf(d: Disk, t: nat): Option<seq<int>>
    requires d.tail.Some? && t < |d.tail.value.rows|
  {
    ReadChain(d.data, d.tail.value.rows[t].Address())
  }

  /** The files have these posting lists, for every trigram. */
  ghost predicate Shows(d: Disk, lists: nat -> seq<nat>) {
    && d.tail.Some? && |d.tail.value.rows| == TRIGRAM_RANGE
    && forall t: nat :: t < TRIGRAM_RANGE ==> ListOf(d, t) == Some(lists(t))
  }

  ghost function ListsOf(log: seq<Entry>): nat -> seq<nat> {
    (t: nat) => Postings(log, t)
  }

  ghost function ListsWith(files: seq<PackedFile>, log: seq<Entry>): nat -> seq<nat> {
    (t: nat) => Holders(UnpackAll(SortFiles(files)), t) + Postings(log, t)
  }

  ghost function NoLists(): nat -> seq<nat> {
    (t: nat) => []
  }

  lemma StandingShows(d: Disk, log: seq<Entry>)
    requires Standing(d, log)
    ensures Shows(d, ListsOf(log))
  {
    forall t: nat | t < TRIGRAM_RANGE
      ensures |d.tail.value.rows| == TRIGRAM_RANGE && ListOf(d, t) == Some(ListsOf(log)(t))
    {
      RowReads(d, log, t);
    }
  }

  /** The files of a journal determine its posting lists. */
  lemma SameLists(d: Disk, a: seq<Entry>, b: seq<Entry>)
    requires Standing(d, a) && Standing(d, b)
    ensures forall t: nat :: t < TRIGRAM_RANGE ==> Postings(a, t) == Postings(b, t)
  {
    StandingShows(d, a);
    StandingShows(d, b);
    forall t: nat | t < TRIGRAM_RANGE ensures Postings(a, t) == Postings(b, t) {
      assert ListOf(d, t) == Some(ListsOf(a)(t)) && ListOf(d, t) == Some(ListsOf(b)(t));
    }
  }

  // ---------------------------------------------------------------- a batch after a restart

  /** What a batch that took effect makes of the files: the contract of `WriteBatch`. */
  ghost predicate BatchOn(d: Disk, log: seq<Entry>, files: seq<PackedFile>, d': Disk, log': seq<Entry>) {
    && Standing(d, log) && Standing(d', log') && ProperFiles(files)
    && d'.dotData == d.dotData && d'.dotTail == d.dotTail
    && Adds(log, log', UnpackAll(SortFiles(files)))
  }

  /**
   Stopping in this state loses nothing: after any crash there, if the journal opens and takes any
   batch, opening it again shows the batch in front of what the journal held.
   */
  ghost predicate Harmless(d: Disk, log: seq<Entry>) {
    forall d1, log1, files, d2, log2 ::
      CrashOf(d, d1) && Opened(d1).Some? && BatchOn(Opened(d1).value, log1, files, d2, log2)
      ==> Opened(d2).Some? && Shows(Opened(d2).value, ListsWith(files, log))
  }

  lemma BatchShows(d: Disk, log: seq<Entry>, log1: seq<Entry>, files: seq<PackedFile>, d2: Disk, log2: seq<Entry>)
    requires Committed(d, log) && BatchOn(d, log1, files, d2, log2)
    ensures Opened(d2).Some? && Shows(Opened(d2).value, ListsWith(files, log))
  {
    SameLists(d, log, log1);
    RecoversOpened(d2, log2);
    StandingShows(Opened(d2).value, log2);
    hide Standing; hide Committed; hide Opened; hide ReadChain; hide BatchOn; hide Postings; hide Holders;
    var after := Opened(d2).value;
    forall t: nat | t < TRIGRAM_RANGE ensures ListOf(after, t) == Some(ListsWith(files, log)(t)) {
      assert ListOf(after, t) == Some(ListsOf(log2)(t));
    }
  }

  /** A state that recovers to the log, and that no crash can cut, is harmless. */
  lemma RecoveringIsHarmless(d: Disk, log: seq<Entry>, cur: seq<Entry>)
    requires Recovers(d, cur) && (cur != [] || Durable(d)) && SamePostings(cur, log)
    ensures Harmless(d, log)
  {
    forall d1, log1, files, d2, log2
      | CrashOf(d, d1) && Opened(d1).Some? && BatchOn(Opened(d1).value, log1, files, d2, log2)
      ensures Opened(d2).Some? && Shows(Opened(d2).value, ListsWith(files, log))
    {
      CrashKeepsRecovery(d, d1, cur);
      RecoversOpened(d1, cur);
      BatchShows(Opened(d1).value, cur, log1, files, d2, log2);
      assert forall t: nat :: ListsWith(files, cur)(t) == ListsWith(files, log)(t);
    }
  }

  // ---------------------------------------------------------------- a defrag of a journal without blocks

  /** The tail waits to be installed beside a data file that opening takes for one never initialised. */
  predicate Waiting(d: Disk) {
    |d.data| <= |HEADER| && d.dotTail.Some?
  }

  /** What the files of a waiting install look like once a batch has been written beside them. */
  lemma WaitingForgets(d: Disk, log: seq<Entry>)
    requires Standing(d, log) && d.dotTail.Some? && TailMatches(d.dotTail.value, [])
    requires d.dotData.Some? ==> d.dotData.value == HEADER
    ensures Opened(d).Some? && Shows(Opened(d).value, NoLists())
  {
    EmptyMatches(d.dotTail.value);
    if |d.data| <= |HEADER| {
      RecreatedStands(d);
      EmptyShows(Recreated(d));
    } else {
      var e := Installed(d);
      LogEndBounds(d.data, log);
      assert e.data[..|HEADER|] == HEADER;
      GreatestBounds(e.tail.value.rows);
      assert Greatest(e.tail.value.rows) == 0;
      EmptyShows(e);
    }
  }

  lemma EmptyShows(d: Disk)
    requires d.tail.Some? && TailMatches(d.tail.value, [])
    ensures Shows(d, NoLists())
  {
    EmptyMatches(d.tail.value);
    forall t: nat | t < TRIGRAM_RANGE ensures ListOf(d, t) == Some(NoLists()(t)) {
      assert d.tail.value.rows[t] == Row(0, 0);
    }
  }

  /** A file with one trigram, the log and the files of a journal that holds nothing but it. */
  const LONELY := PackedFile(0, [0])

  function LonelyEntry(): Entry {
    Entry(0, |HEADER|, [0])
  }

  function WithLonely(d: Disk): Disk {
    var rows := seq(TRIGRAM_RANGE, t requires 0 <= t => RowFor([LonelyEntry()], t));
    var data := HEADER + BlockBytes(0, [0]);
    d.(present := true, data := data, synced := |data|, tail := Some(Tail(rows, Some(1))), tailSynced := true)
  }

  lemma LonelyFile()
    ensures SortFiles([LONELY]) == [LONELY] && UnpackAll([LONELY]) == [FileTrigrams(0, [0])] && ProperFiles([LONELY])
    ensures forall t: nat :: Holders(UnpackAll(SortFiles([LONELY])), t) == if t == 0 then [0] else []
  {
    assert StreamFrom(0, [0]) == [0];
    assert [LONELY][1..] == [] && Sorting.Sort([LONELY][1..], HigherId) == [];
    var sorted := UnpackAll([LONELY]);
    assert sorted[0] == FileTrigrams(0, [0]);
    forall t: nat ensures Holders(sorted, t) == if t == 0 then [0] else [] {
      assert sorted[..0] == [];
      assert Holders([], t) == [];
    }
  }

  lemma LonelyStands(d: Disk)
    ensures Standing(WithLonely(d), [LonelyEntry()])
  {
    var e := LonelyEntry();
    var bytes := BlockBytes(0, [0]);
    assert EntryBytes([], e) == bytes && Laid(HEADER, []);
    AppendKeepsLaid(HEADER, bytes, []);
    LaidSnoc(HEADER + bytes, [], e);
    assert [] + [e] == [e];
  }

  lemma LonelyPostings(t: nat)
    ensures Postings([LonelyEntry()], t) == if t == 0 then [0] else []
  {
    SnocEntry([], LonelyEntry(), t);
    assert [] + [LonelyEntry()] == [LonelyEntry()];
  }

  lemma LonelyBatch(d: Disk)
    requires Standing(d, [])
    ensures BatchOn(d, [], [LONELY], WithLonely(d), [LonelyEntry()])
    ensures ListsWith([LONELY], [])(0) == [0]
  {
    LonelyFile();
    LonelyStands(d);
    forall t: nat
      ensures Postings([LonelyEntry()], t) == Holders(UnpackAll(SortFiles([LONELY])), t) + Postings([], t)
    {
      LonelyPostings(t);
    }
    hide Standing; hide ProperFiles; hide SortFiles; hide UnpackAll;
  }

  /** The third state of a defrag without blocks: its small data file is in place and its tail waits. */
  lemma EmptyDefragHarms(d: Disk, tail: Tail)
    requires Committed(d, []) && TailMatches(tail, [])
    ensures !Harmless(DefragSteps(d, HEADER, tail)[2], [])
  {
    var stopped := DefragSteps(d, HEADER, tail)[2];
    assert stopped.data == HEADER && stopped.dotTail == Some(tail) && stopped.dotData == None;
    RecreatedStands(stopped);
    var first := Recreated(stopped);
    assert Opened(stopped) == Some(first) && CrashOf(stopped, stopped);
    var d2 := WithLonely(first);
    assert d2.dotTail == Some(tail) && d2.dotData == None;
    LonelyBatch(first);
    LonelyStands(first);
    WaitingForgets(d2, [LonelyEntry()]);
    hide *;
    LostBatch(stopped, first, d2);
  }

  lemma LostBatch(stopped: Disk, first: Disk, d2: Disk)
    requires Opened(stopped) == Some(first) && CrashOf(stopped, stopped)
    requires BatchOn(first, [], [LONELY], d2, [LonelyEntry()]) && ListsWith([LONELY], [])(0) == [0]
    requires Opened(d2).Some? && Shows(Opened(d2).value, NoLists())
    ensures !Harmless(stopped, [])
  {
    hide BatchOn; hide CrashOf; hide Opened; hide ListsWith; hide Shows;
    var after := Opened(d2).value;
    if Shows(after, ListsWith([LONELY], [])) {
      SameShown(after, ListsWith([LONELY], []), NoLists(), 0);
    }
    assert BatchOn(Opened(stopped).value, [], [LONELY], d2, [LonelyEntry()]);
  }

  lemma SameShown(d: Disk, a: nat -> seq<nat>, b: nat -> seq<nat>, t: nat)
    requires Shows(d, a) && Shows(d, b) && t < TRIGRAM_RANGE
    ensures a(t) == b(t)
  {
    assert ListOf(d, t) == Some(a(t)) && ListOf(d, t) == Some(b(t));
  }

  /**
   Exactly when a defrag may be stopped at any of its four steps, by whatever crash: when the journal
   has a block.  A caller sees it in the tail table, which then has a row with an address.
   */
  lemma DefragSafeIff(d: Disk, newData: seq<byte>, tail: Tail, log: seq<Entry>, cur: seq<Entry>)
    requires Committed(d, log) && Rewritten(newData, cur) && SamePostings(cur, log)
    requires TailMatches(tail, cur) && tail.generation.Some?
    ensures (forall k :: 0 <= k < 4 ==> Harmless(DefragSteps(d, newData, tail)[k], log))
       <==> exists t: nat :: t < TRIGRAM_RANGE && d.tail.value.rows[t].Address().Some?
  {
    if log != [] {
      InstallIsSafe(d, newData, tail, log, cur);
      NoAddressNoPostings(log, log[|log| - 1].trigram);
      forall k | 0 <= k < 4 ensures Harmless(DefragSteps(d, newData, tail)[k], log) {
        var step := DefragSteps(d, newData, tail)[k];
        assert cur != [];
        if Recovers(step, log) { RecoveringIsHarmless(step, log, log); } else { RecoveringIsHarmless(step, log, cur); }
      }
      var t := log[|log| - 1].trigram;
      RowAddress(d.data, log, t);
      assert d.tail.value.rows[t].Address().Some?;
    } else {
      EmptyLogOnly(cur);
      EmptyDefragHarms(d, tail);
    }
  }

  // ---------------------------------------------------------------- the same, by running it

  /**
   The process dies right after a change that a defrag makes to the files; it is started again, writes
   a batch, and is started once more.  The batch, and all before it, is there exactly unless a tail
   was left waiting beside a data file without blocks: then every posting list is empty.
   */
  method StopDefrag(journal: JournalFilter, at: nat, files: seq<PackedFile>)
    returns (stopped: Disk, reopened: Option<JournalFilter>)
    requires journal.Valid() && journal.running && journal.disk.dotTail.None? && AllDescending(journal.log)
    requires journal.disk.tail.value.generation.Some? && ProperFiles(files)
    modifies journal
    ensures old(journal.log) != [] ==> !Waiting(stopped)
    ensures reopened.Some?
    ensures Shows(reopened.value.disk, if Waiting(stopped) then NoLists() else ListsWith(files, old(journal.log)))
  {
    ghost var log := journal.log;
    ghost var cur;
    stopped, cur := StopAt(journal, at);
    var first := OpenStopped(stopped, log, cur);
    ghost var d1, log1 := first.disk, first.log;
    hide StopOpens; hide Standing; hide Shows; hide Opened;
    var r := first.WriteBatch(files);
    AfterRestart(stopped, log, cur, log1, files, first.disk, first.log);
    reopened := JournalFilter.Open(first.disk, first.log);
  }

  /** Runs a defrag and picks one of the states that its files go through. */
  method StopAt(journal: JournalFilter, at: nat) returns (stopped: Disk, ghost cur: seq<Entry>)
    requires journal.Valid() && journal.running && journal.disk.dotTail.None? && AllDescending(journal.log)
    requires Numbered(journal.disk)
    modifies journal
    ensures StopOpens(stopped, old(journal.log), cur) && SamePostings(cur, old(journal.log))
  {
    var before := |journal.trace|;
    ghost var d, log := journal.disk, journal.log;
    ghost var trace0 := journal.trace;
    hide Postings; hide Rewritten; hide SamePostings; hide SafeTrace; hide StopOpens; hide DefragSteps; hide Laid;
    var r := journal.Defrag();
    cur := journal.log;
    ghost var tail := journal.disk.tail.value;
    ghost var newData :| Rewritten(newData, cur) && journal.trace == trace0 + DefragSteps(d, newData, tail);
    FourSteps(d, newData, tail);
    StoppedOpens(d, newData, tail, log, cur, at % 4);
    var steps := journal.trace[before..];
    assert steps == DefragSteps(d, newData, tail);
    stopped := steps[at % 4];
  }

  lemma FourSteps(d: Disk, newData: seq<byte>, tail: Tail)
    ensures |DefragSteps(d, newData, tail)| == 4
  {
  }

  /** Starts the service on the files that a stopped defrag left. */
  method OpenStopped(stopped: Disk, ghost log: seq<Entry>, ghost cur: seq<Entry>) returns (journal: JournalFilter)
    requires StopOpens(stopped, log, cur)
    ensures fresh(journal) && journal.Valid() && journal.running && journal.disk == Opened(stopped).value
            && Numbered(journal.disk)
  {
    ghost var held := if Waiting(stopped) then [] else if Committed(Opened(stopped).value, log) then log else cur;
    if Waiting(stopped) { RecreatedStands(stopped); }
    hide Recovers; hide Opened; hide Sane; hide TailMatches;
    var r := JournalFilter.Open(stopped, held);
    journal := r.value;
  }

  /** Opening a state of a defrag: the log is back, unless a tail waits beside the files made anew. */
  ghost predicate StopOpens(stopped: Disk, log: seq<Entry>, cur: seq<Entry>) {
    && Sane(stopped) && Opened(stopped).Some? && Numbered(Opened(stopped).value)
    && (if Waiting(stopped) then
          && log == [] && Opened(stopped) == Some(Recreated(stopped))
          && TailMatches(stopped.dotTail.value, []) && (stopped.dotData.Some? ==> stopped.dotData.value == HEADER)
        else Committed(Opened(stopped).value, log) || Committed(Opened(stopped).value, cur))
  }

  lemma StoppedOpens(d: Disk, newData: seq<byte>, tail: Tail, log: seq<Entry>, cur: seq<Entry>, k: nat)
    requires Committed(d, log) && Rewritten(newData, cur) && SamePostings(cur, log) && k < 4
    requires TailMatches(tail, cur) && tail.generation.Some? && Numbered(d)
    ensures StopOpens(DefragSteps(d, newData, tail)[k], log, cur)
  {
    var stopped := DefragSteps(d, newData, tail)[k];
    if log != [] {
      InstallIsSafe(d, newData, tail, log, cur);
      NoAddressNoPostings(log, log[|log| - 1].trigram);
      assert cur != [];
      RecoveringStops(stopped, if Recovers(stopped, log) then log else cur, log, cur);
    } else {
      EmptyLogOnly(cur);
      EmptyStops(d, tail, k);
    }
  }

  lemma RecoveringStops(d: Disk, log: seq<Entry>, a: seq<Entry>, b: seq<Entry>)
    requires Recovers(d, log) && log != [] && (log == a || log == b)
    ensures StopOpens(d, a, b)
  {
    RecoversOpened(d, log);
  }

  lemma EmptyStops(d: Disk, tail: Tail, k: nat)
    requires Committed(d, []) && TailMatches(tail, []) && tail.generation.Some? && Numbered(d) && k < 4
    ensures StopOpens(DefragSteps(d, HEADER, tail)[k], [], [])
  {
    var stopped := DefragSteps(d, HEADER, tail)[k];
    if |stopped.data| <= |HEADER| {
      RecreatedStands(stopped);
    } else if k == 0 {
      RepairedStays(d);
    } else {
      InstalledIsCommitted(d, HEADER, tail, []);
      RepairedStays(Installed(stopped));
    }
  }

  lemma RepairedStays(d: Disk)
    requires Committed(d, [])
    ensures Repaired(d) == Some(d)
  {
    LogEndBounds(d.data, []);
    TruncatedStands(d, []);
  }

  /** Whatever batch follows on a stopped defrag, the next opening shows it, or shows nothing at all. */
  lemma AfterRestart(stopped: Disk, log: seq<Entry>, cur: seq<Entry>, log1: seq<Entry>, files: seq<PackedFile>,
                     d2: Disk, log2: seq<Entry>)
    requires StopOpens(stopped, log, cur) && SamePostings(cur, log)
    requires BatchOn(Opened(stopped).value, log1, files, d2, log2)
    ensures Sane(d2) && Opened(d2).Some?
    ensures Shows(Opened(d2).value, if Waiting(stopped) then NoLists() else ListsWith(files, log))
  {
    var first := Opened(stopped).value;
    if Waiting(stopped) {
      WaitingForgets(d2, log2);
    } else if Committed(first, log) {
      BatchShows(first, log, log1, files, d2, log2);
    } else {
      BatchShows(first, cur, log1, files, d2, log2);
      assert forall t: nat :: ListsWith(files, cur)(t) == ListsWith(files, log)(t);
    }
  }
}
