/**
 The files of one journal: what a crash may leave of them, which of their states opening repairs
 to which contents, and what opening makes of any state (src/worker/journal.rs).
 */
module JournalDisk {
  import opened Bytes
  import opened Blocks
  import opened JournalLog

  // ---------------------------------------------------------------- the files and what a crash leaves

  /**
   The files of one journal.  `data` is the file named by the id; its first `synced` bytes have
   reached the disk.  `tail` is the tail file: one that a batch or a defrag installs is synced first,
   but the one that a new journal starts with is only created and extended (`tailSynced` is false).
   `dotData` and `dotTail` are the files of a defrag that is being installed, both synced.
   */
  datatype Disk = Disk(
    present: bool, data: seq<byte>, synced: nat,
    tail: Option<Tail>, tailSynced: bool, dotData: Option<seq<byte>>, dotTail: Option<Tail>)

  const EMPTY_DISK := Disk(false, [], 0, None, false, None, None)

  /** What may be left of a tail file that was never synced: its length is anything up to the full one. */
  ghost predicate CutFrom(short: Tail, tail: Tail) {
    short.rows <= tail.rows && (short.generation.None? || short == tail)
  }

  /**
   Losing power: unsynced bytes of the data file are lost or arbitrary, an unsynced tail file is cut
   or gone, renames and removals have taken effect in order, and what is left is on the disk.
   */
  ghost predicate PowerLoss(d: Disk, d': Disk) {
    && d.synced <= |d.data| && d.synced <= |d'.data| && d'.data[..d.synced] == d.data[..d.synced]
    && d' == d.(data := d'.data, synced := |d'.data|, tail := d'.tail, tailSynced := true)
    && (!d.present ==> d'.data == [])
    && (|d.data| <= |HEADER| ==> |d'.data| <= |HEADER|)
    && (d.tailSynced ==> d'.tail == d.tail)
    && (d'.tail.Some? ==> d.tail.Some? && CutFrom(d'.tail.value, d.tail.value))
  }

  /** What a crash leaves: the files as they are when only the process dies, and less when the power does. */
  ghost predicate CrashOf(d: Disk, d': Disk) {
    d' == d || PowerLoss(d, d')
  }

  // ---------------------------------------------------------------- states of the files

  /** The main files hold the log, whatever install is waiting.  Only an empty log may have an unsynced tail. */
  ghost predicate Standing(d: Disk, log: seq<Entry>) {
    && d.present && d.tail.Some? && TailMatches(d.tail.value, log)
    && Laid(d.data, log) && LogEnd(log) <= d.synced <= |d.data|
    && (log == [] || (d.tailSynced && d.tail.value.generation.Some?))
  }

  /** The tail file has its last number. */
  predicate Numbered(d: Disk) {
    d.tail.Some? && d.tail.value.generation.Some?
  }

  /** The main files hold the log and no install is under way. */
  ghost predicate Committed(d: Disk, log: seq<Entry>) {
    d.dotTail.None? && Standing(d, log)
  }

  /** A finished defrag is on its way into place. */
  ghost predicate Installing(d: Disk, log: seq<Entry>) {
    && d.present && log != [] && |HEADER| < d.synced <= |d.data|
    && d.dotTail.Some? && TailMatches(d.dotTail.value, log) && d.dotTail.value.generation.Some?
    && match d.dotData
       case Some(newData) => Laid(newData, log)
       case None => Laid(d.data, log) && LogEnd(log) <= d.synced
  }

  /** A journal not yet, or not any more, initialised. */
  ghost predicate Blank(d: Disk) {
    && d.dotTail.None? && d.synced <= |d.data|
    && (!d.present ==> d.data == [] && d.tail.None?)
    && (|HEADER| < |d.data| ==>
          && |HEADER| <= d.synced && StandsAt(d.data, 0, HEADER)
          && (d.tail.Some? ==> TailMatches(d.tail.value, [])))
  }

  /** Opening the files from here leads to a journal with this log. */
  ghost predicate Recovers(d: Disk, log: seq<Entry>) {
    Committed(d, log) || Installing(d, log) || (log == [] && Blank(d))
  }

  /** A journal without blocks whose tail file is too short, beside a data file that has more than its header. */
  ghost predicate CutShort(d: Disk) {
    && d.present && d.dotTail.None? && |HEADER| < |d.data|
    && |HEADER| <= d.synced <= |d.data| && StandsAt(d.data, 0, HEADER)
    && d.tail.Some? && |d.tail.value.rows| < TRIGRAM_RANGE && NoAddresses(d.tail.value.rows)
  }

  ghost predicate NoAddresses(rows: seq<Row>) {
    forall t :: 0 <= t < |rows| ==> rows[t] == Row(0, 0)
  }

  /** The files hold this log, though the tail of an empty one may be cut short. */
  ghost predicate Reaches(d: Disk, log: seq<Entry>) {
    Recovers(d, log) || (log == [] && CutShort(d))
  }

  /** No crash can cut a tail file that opening needs. */
  predicate Durable(d: Disk) {
    d.dotTail.Some? || d.tail.None? || d.tailSynced || |d.data| <= |HEADER|
  }

  lemma EmptyMatches(tail: Tail)
    ensures TailMatches(tail, []) <==> |tail.rows| == TRIGRAM_RANGE && NoAddresses(tail.rows)
  {
    assert forall t: nat :: RowFor([], t) == Row(0, 0);
  }

  lemma SyncedPrefix(d: Disk, d': Disk, n: nat)
    requires PowerLoss(d, d') && n <= d.synced
    ensures n <= |d'.data| && d'.data[..n] == d.data[..n]
  {
    assert d.data[..n] == d.data[..d.synced][..n] == d'.data[..d.synced][..n] == d'.data[..n];
  }

  /** The log that the files hold survives every crash; only the tail of an empty one may be cut. */
  lemma CrashKeepsRecovery(d: Disk, d': Disk, log: seq<Entry>)
    requires Reaches(d, log) && CrashOf(d, d')
    ensures Reaches(d', log)
    ensures Recovers(d, log) && (Durable(d) || log != []) ==> Recovers(d', log)
  {
    if d' != d {
      if Committed(d, log) && log != [] {
        CrashKeepsCommitted(d, d', log);
      } else if Installing(d, log) {
        if d.dotData.None? {
          SyncedPrefix(d, d', LogEnd(log));
          LaidByPrefix(d.data, d'.data, log);
        }
      } else {
        CrashOfEmpty(d, d');
      }
    }
  }

  lemma CrashKeepsCommitted(d: Disk, d': Disk, log: seq<Entry>)
    requires Committed(d, log) && PowerLoss(d, d') && d'.tail == d.tail
    ensures Committed(d', log)
  {
    SyncedPrefix(d, d', LogEnd(log));
    LaidByPrefix(d.data, d'.data, log);
  }

  lemma CrashOfEmpty(d: Disk, d': Disk)
    requires Committed(d, []) || Blank(d) || CutShort(d)
    requires PowerLoss(d, d')
    ensures Reaches(d', [])
    ensures Durable(d) && !CutShort(d) ==> Recovers(d', [])
  {
    if d.tail.Some? { EmptyMatches(d.tail.value); }
    if d'.tail.Some? { EmptyMatches(d'.tail.value); }
    if Committed(d, []) {
      LogEndBounds(d.data, []);
    }
    if |HEADER| < |d.data| {
      SyncedPrefix(d, d', |HEADER|);
    } else if Committed(d, []) {
      SyncedPrefix(d, d', |HEADER|);
    }
  }

  // ---------------------------------------------------------------- creating a journal

  /** The tail file of a journal without blocks: all zeros. */
  function EmptyTail(): (tail: Tail)
    ensures TailMatches(tail, []) && tail.generation == Some(0)
  {
    Tail(seq(TRIGRAM_RANGE, _ => Row(0, 0)), Some(0))
  }

  /** The files with an empty tail file, created and extended but not synced. */
  function WithEmptyTail(d: Disk): Disk {
    d.(tail := Some(EmptyTail()), tailSynced := false)
  }

  /** Between the creation of the tail file and its extension. */
  function WithNewTail(d: Disk): Disk {
    d.(tail := Some(Tail([], None)), tailSynced := false)
  }

  /** The files after a journal has been created anew; those of a pending install are left alone. */
  function Recreated(d: Disk): Disk {
    WithEmptyTail(d.(present := true, data := HEADER, synced := |HEADER|))
  }

  lemma RecreatedStands(d: Disk)
    ensures Standing(Recreated(d), [])
    ensures d.dotTail.None? ==> Committed(Recreated(d), []) && Recovers(Recreated(d), [])
  {
  }

  // ---------------------------------------------------------------- installing a defrag

  function DataInstalled(d: Disk): Disk {
    match d.dotData
    case Some(newData) => d.(present := true, data := newData, synced := |newData|, dotData := None)
    case None => d
  }

  function Installed(d: Disk): Disk {
    if d.dotTail.Some? then DataInstalled(d).(tail := d.dotTail, tailSynced := true, dotTail := None)
    else d.(dotData := None)
  }

  /** The states of the files that an install goes through. */
  function InstallSteps(d: Disk): seq<Disk> {
    if d.dotTail.Some? then (if d.dotData.Some? then [DataInstalled(d)] else []) + [Installed(d)]
    else if d.dotData.Some? then [Installed(d)] else []
  }

  /** The data file of a defragmented journal with this log. */
  ghost predicate Rewritten(data: seq<byte>, log: seq<Entry>) {
    Laid(data, log) && (log == [] ==> data == HEADER)
  }

  /** The states of the files that a defrag goes through: four renames, data before tail each time. */
  function DefragSteps(d: Disk, newData: seq<byte>, tail: Tail): seq<Disk> {
    var prepared := d.(dotData := Some(newData), dotTail := Some(tail));
    [d.(dotData := Some(newData)), prepared, DataInstalled(prepared), Installed(prepared)]
  }

  // ---------------------------------------------------------------- what opening makes of the files

  /** The greatest address in a tail table. */
  function Greatest(rows: seq<Row>): nat {
    if rows == [] then 0
    else
      var older, last := Greatest(rows[..|rows| - 1]), rows[|rows| - 1].address;
      if older < last then last else older
  }

  /** Cuts the data file off; the cut itself is not synced. */
  function Shortened(d: Disk, size: nat): Disk {
    if |d.data| < size then d
    else d.(data := d.data[..size], synced := if d.synced < size then d.synced else size)
  }

  /** Drops what follows the block that the tail calls the last one, if that block can be read. */
  function Truncated(d: Disk, address: nat): Option<Disk> {
    if address == 0 then Some(d)
    else
      var buffer := ReadUntilZero(d.data, address);
      if LoadBlock(address, buffer).None? then None else Some(Shortened(d, address + |buffer|))
  }

  /** Opening a data file with more than a header, once any install is finished. */
  function Repaired(d: Disk): Option<Disk> {
    if |d.data| < |HEADER| || d.data[..|HEADER|] != HEADER then None
    else
      var ready := if d.tail.None? then WithEmptyTail(d) else d;
      if |ready.tail.value.rows| != TRIGRAM_RANGE then None
      else Truncated(ready, Greatest(ready.tail.value.rows))
  }

  /** The files after opening; nothing when opening reports an error. */
  function Opened(d: Disk): Option<Disk> {
    if |d.data| <= |HEADER| then Some(Recreated(d)) else Repaired(Installed(d))
  }

  lemma {:induction false} GreatestBounds(rows: seq<Row>)
    ensures forall t :: 0 <= t < |rows| ==> rows[t].address <= Greatest(rows)
    ensures Greatest(rows) == 0 || exists t :: 0 <= t < |rows| && rows[t].address == Greatest(rows)
  {
    if rows != [] {
      var n := |rows| - 1;
      var older := rows[..n];
      GreatestBounds(older);
      forall t | 0 <= t < |rows| ensures rows[t].address <= Greatest(rows) {
        if t < n { assert older[t] == rows[t]; }
      }
      if Greatest(older) < rows[n].address {
        assert rows[n].address == Greatest(rows);
      } else if Greatest(older) != 0 {
        var t :| 0 <= t < |older| && older[t].address == Greatest(older);
        assert rows[t].address == Greatest(rows);
      }
    }
  }

  /** In a tail that matches the log the greatest address is that of the last block. */
  lemma GreatestIsLast(data: seq<byte>, tail: Tail, log: seq<Entry>)
    requires Laid(data, log) && TailMatches(tail, log)
    ensures Greatest(tail.rows) == if log == [] then 0 else log[|log| - 1].address
  {
    GreatestBounds(tail.rows);
    GreatestAddress(data, log);
    hide Greatest; hide Postings; hide LastAddress; hide Laid;
    if log != [] {
      var e := log[|log| - 1];
      assert tail.rows[e.trigram] == RowFor(log, e.trigram);
    }
  }

  /** The block of the last entry can be read, and ends where the log ends. */
  lemma LastBlockEnds(d: Disk, log: seq<Entry>)
    requires Standing(d, log) && log != []
    ensures var address := log[|log| - 1].address;
            var buffer := ReadUntilZero(d.data, address);
            && address > 0 && address + |buffer| == LogEnd(log) <= d.synced
            && LoadBlock(address, buffer).Some?
  {
    var older, e := log[..|log| - 1], log[|log| - 1];
    LogEndBounds(d.data, older);
    ReadWhatStands(d.data, e.address, EntryBytes(older, e));
    StandingBlockLoads(d.data, e.address, LinkOffset(older, e), e.ids);
  }

  lemma ShortenedKeeps(d: Disk, log: seq<Entry>)
    requires Standing(d, log)
    ensures Standing(Shortened(d, LogEnd(log)), log)
  {
    LaidByPrefix(d.data, d.data[..LogEnd(log)], log);
  }

  /** Truncating after the last block keeps the log. */
  lemma TruncatedStands(d: Disk, log: seq<Entry>)
    requires Standing(d, log)
    ensures var r := Truncated(d, Greatest(d.tail.value.rows));
            r.Some? && Standing(r.value, log) && r.value.dotTail == d.dotTail
    ensures log == [] ==> Greatest(d.tail.value.rows) == 0
    ensures log != [] ==> Truncated(d, Greatest(d.tail.value.rows)) == Some(Shortened(d, LogEnd(log)))
  {
    GreatestIsLast(d.data, d.tail.value, log);
    if log != [] {
      LastBlockEnds(d, log);
      ShortenedKeeps(d, log);
    }
  }

  lemma SmallIsEmpty(d: Disk, log: seq<Entry>)
    requires Recovers(d, log) && |d.data| <= |HEADER|
    ensures log == [] && (Blank(d) || Committed(d, []))
  {
    if Committed(d, log) && log != [] {
      LogEndBounds(d.data, log[..|log| - 1]);
    }
  }

  /** With no install pending, an initialised journal lacks at most an empty tail. */
  ghost predicate Initialised(d: Disk, log: seq<Entry>) {
    if d.tail.Some? then Committed(d, log) else log == [] && Committed(WithEmptyTail(d), [])
  }

  /** Installing, or dropping, what a defrag left recovers to the same log at every step. */
  lemma InstallRecovers(d: Disk, log: seq<Entry>)
    requires Recovers(d, log) && |HEADER| < |d.data|
    ensures SafeTrace([], InstallSteps(d), log, log)
    ensures Initialised(Installed(d), log)
    ensures d.dotTail.None? ==> Installed(d).tail == d.tail
  {
    if Installing(d, log) && d.dotData.Some? {
      LogEndBounds(d.dotData.value, log);
    }
  }

  lemma InitialisedRepairs(d: Disk, log: seq<Entry>)
    requires Initialised(d, log)
    ensures Repaired(d).Some? && Committed(Repaired(d).value, log)
  {
    var ready := if d.tail.None? then WithEmptyTail(d) else d;
    LogEndBounds(ready.data, log);
    TruncatedStands(ready, log);
  }

  /** Files that recover to a log open as a journal with this log. */
  lemma RecoversOpened(d: Disk, log: seq<Entry>)
    requires Recovers(d, log)
    ensures Opened(d).Some? && Committed(Opened(d).value, log)
  {
    if |d.data| <= |HEADER| {
      SmallIsEmpty(d, log);
      RecreatedStands(d);
    } else {
      InstallRecovers(d, log);
      InitialisedRepairs(Installed(d), log);
    }
  }

  /** Files whose tail is cut short do not open. */
  lemma CutShortFails(d: Disk)
    requires CutShort(d)
    ensures Opened(d).None?
  {
  }

  /**
   Exactly when opening succeeds after every crash: when the tail file has been installed by a batch
   or a defrag, or is still to be made, or the data file has no more than its header.
   */
  lemma DurableIff(d: Disk, log: seq<Entry>)
    requires Recovers(d, log)
    ensures (forall d' :: CrashOf(d, d') ==> Opened(d').Some? && Committed(Opened(d').value, log)) <==> Durable(d)
  {
    if Durable(d) {
      forall d' | CrashOf(d, d') ensures Opened(d').Some? && Committed(Opened(d').value, log) {
        CrashKeepsRecovery(d, d', log);
        RecoversOpened(d', log);
      }
    } else {
      var cut := d.(tail := Some(Tail([], None)), synced := |d.data|, tailSynced := true);
      assert CrashOf(d, cut) && Opened(cut).None?;
    }
  }

  // ---------------------------------------------------------------- states of the files along the way

  /** Whatever state of the files after `before` a crash meets, the journal recovers to `a` or to `b`. */
  ghost predicate SafeTrace(before: seq<Disk>, after: seq<Disk>, a: seq<Entry>, b: seq<Entry>) {
    before <= after && forall k :: |before| <= k < |after| ==> Recovers(after[k], a) || Recovers(after[k], b)
  }

  lemma SafeStart(before: seq<Disk>, a: seq<Entry>, b: seq<Entry>)
    ensures SafeTrace(before, before, a, b)
  {
  }

  /** As `SafeTrace`, but the tail of an empty log may be cut short. */
  ghost predicate ReachTrace(before: seq<Disk>, after: seq<Disk>, log: seq<Entry>) {
    before <= after && forall k :: |before| <= k < |after| ==> Reaches(after[k], log)
  }

  lemma SafeReaches(before: seq<Disk>, after: seq<Disk>, log: seq<Entry>)
    requires SafeTrace(before, after, log, log)
    ensures ReachTrace(before, after, log)
  {
  }

  /** States of the files while a journal is created: the data file never has more than its header. */
  ghost predicate SmallSteps(before: seq<Disk>, after: seq<Disk>, dotTail: Option<Tail>) {
    && before <= after
    && forall k :: |before| <= k < |after| ==>
         && after[k].dotTail == dotTail && after[k].synced <= |after[k].data| <= |HEADER|
         && (!after[k].present ==> after[k].data == [] && after[k].tail.None?)
  }

  lemma SmallStepsStart(before: seq<Disk>, dotTail: Option<Tail>)
    ensures SmallSteps(before, before, dotTail)
  {
  }

  lemma SmallStep(before: seq<Disk>, after: seq<Disk>, dotTail: Option<Tail>, d: Disk)
    requires SmallSteps(before, after, dotTail) && d.dotTail == dotTail && d.synced <= |d.data| <= |HEADER|
    requires !d.present ==> d.data == [] && d.tail.None?
    ensures SmallSteps(before, after + [d], dotTail)
  {
  }

  lemma SmallStepsRecover(before: seq<Disk>, after: seq<Disk>)
    requires SmallSteps(before, after, None)
    ensures SafeTrace(before, after, [], [])
  {
  }

  /** The changes that opening makes once any install is finished. */
  function RepairSteps(d: Disk): seq<Disk> {
    if |d.data| < |HEADER| || d.data[..|HEADER|] != HEADER then []
    else if d.tail.None? then [WithNewTail(d), WithEmptyTail(d)] + TruncateSteps(WithEmptyTail(d))
    else if |d.tail.value.rows| != TRIGRAM_RANGE then []
    else TruncateSteps(d)
  }

  function TruncateSteps(d: Disk): seq<Disk>
    requires d.tail.Some?
  {
    var address := Greatest(d.tail.value.rows);
    var r := Truncated(d, address);
    if address == 0 || r.None? then [] else [r.value]
  }

  /** There is no tail file, and no install that would bring one, beside a data file with more than its header. */
  predicate Lacking(d: Disk) {
    |HEADER| < |d.data| && d.dotTail.None? && d.tail.None?
  }

  lemma TruncateStepsRecover(d: Disk, log: seq<Entry>)
    requires Committed(d, log)
    ensures forall k :: 0 <= k < |TruncateSteps(d)| ==> Recovers(TruncateSteps(d)[k], log)
    ensures log == [] ==> TruncateSteps(d) == []
  {
    TruncatedStands(d, log);
  }

  /** Every state of the files during recovery holds the same log. */
  lemma RepairIsSafe(d: Disk, log: seq<Entry>)
    requires Recovers(d, log) && |HEADER| < |d.data|
    ensures ReachTrace([], InstallSteps(d) + RepairSteps(Installed(d)), log)
    ensures !Lacking(d) ==> SafeTrace([], InstallSteps(d) + RepairSteps(Installed(d)), log, log)
  {
    InstallRecovers(d, log);
    var e := Installed(d);
    if e.tail.Some? {
      TruncateStepsRecover(e, log);
    } else {
      TruncateStepsRecover(WithEmptyTail(e), []);
      NewTailReaches(e);
    }
    hide Committed; hide Recovers; hide InstallSteps; hide TruncateSteps; hide WithNewTail; hide WithEmptyTail;
    hide CutShort;
    hide Installed;
    TraceConcat(InstallSteps(d), RepairSteps(e), log);
  }

  lemma NewTailReaches(d: Disk)
    requires Committed(WithEmptyTail(d), []) && d.tail.None?
    ensures Reaches(WithNewTail(d), []) && Recovers(WithEmptyTail(d), [])
  {
    LogEndBounds(d.data, []);
  }

  lemma TraceConcat(a: seq<Disk>, b: seq<Disk>, log: seq<Entry>)
    requires SafeTrace([], a, log, log) && forall k :: 0 <= k < |b| ==> Reaches(b[k], log)
    ensures ReachTrace([], a + b, log)
    ensures (forall k :: 0 <= k < |b| ==> Recovers(b[k], log)) ==> SafeTrace([], a + b, log, log)
  {
    hide Recovers;
  }

  /** What every file system keeps to: a file that is not there has no bytes. */
  predicate Sane(d: Disk) {
    d.synced <= |d.data| && (!d.present ==> d.data == [] && d.tail.None?)
  }

  lemma TraceOfSteps(before: seq<Disk>, steps: seq<Disk>, a: seq<Entry>, b: seq<Entry>)
    requires forall k :: 0 <= k < |steps| ==> Recovers(steps[k], a) || Recovers(steps[k], b)
    ensures SafeTrace(before, before + steps, a, b)
  {
    hide Recovers;
  }

  lemma PreparedIsInstalling(d: Disk, newData: seq<byte>, tail: Tail, log: seq<Entry>, cur: seq<Entry>)
    requires Committed(d, log) && log != [] && Laid(newData, cur) && cur != []
    requires TailMatches(tail, cur) && tail.generation.Some?
    ensures var prepared := d.(dotData := Some(newData), dotTail := Some(tail));
            && Recovers(prepared, cur) && Recovers(DataInstalled(prepared), cur)
  {
    LogEndBounds(newData, cur);
    LogEndBounds(newData, cur[..|cur| - 1]);
    LogEndBounds(d.data, log[..|log| - 1]);
  }

  lemma InstalledIsCommitted(d: Disk, newData: seq<byte>, tail: Tail, cur: seq<Entry>)
    requires d.present && Laid(newData, cur) && TailMatches(tail, cur) && tail.generation.Some?
    ensures var prepared := d.(dotData := Some(newData), dotTail := Some(tail));
            Committed(Installed(prepared), cur) && Installed(prepared).tail == Some(tail)
                && Installed(prepared).tailSynced
  {
    LogEndBounds(newData, cur);
  }

  /** Every state between the renames of a defrag recovers to the same posting lists. */
  lemma InstallIsSafe(d: Disk, newData: seq<byte>, tail: Tail, log: seq<Entry>, cur: seq<Entry>)
    requires Committed(d, log) && log != [] && Laid(newData, cur) && SamePostings(cur, log)
    requires TailMatches(tail, cur) && tail.generation.Some?
    ensures forall k :: 0 <= k < 4 ==>
              Recovers(DefragSteps(d, newData, tail)[k], log) || Recovers(DefragSteps(d, newData, tail)[k], cur)
  {
    NoAddressNoPostings(log, log[|log| - 1].trigram);
    assert Postings(cur, log[|log| - 1].trigram) != [];
    PreparedIsInstalling(d, newData, tail, log, cur);
    InstalledIsCommitted(d, newData, tail, cur);
    assert Recovers(d.(dotData := Some(newData)), log);
  }

  lemma EmptyLogOnly(cur: seq<Entry>)
    requires ProperEntries(cur) && SamePostings(cur, [])
    ensures cur == []
  {
    if cur != [] {
      NoAddressNoPostings(cur, cur[|cur| - 1].trigram);
    }
  }
}
