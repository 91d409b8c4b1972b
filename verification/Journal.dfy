/**
 The trigram index of one filter (`JournalFilter`, src/worker/journal.rs): its files on disk,
 the batch writer, the defragmenter, and recovery when the journal is opened.

 Every change of the files goes through `SetDisk`, which appends the new state to `trace`.  The contracts of
 `WriteBatch`, `Defrag` and `Open` say of every state in the trace what a crash there leads to.
 */
module Journal {
  import opened Bytes
  import opened Blocks
  import opened JournalLog
  import opened JournalDisk
  import opened Collector
  import Sorting

  // ---------------------------------------------------------------- the order of a batch

  predicate HigherId(f: PackedFile, g: PackedFile) {
    f.id >= g.id
  }

  /** The files of a batch, highest id first. */
  function SortFiles(files: seq<PackedFile>): seq<PackedFile> {
    Sorting.Sort(files, HigherId)
  }

  ghost predicate HighestFirst(files: seq<PackedFile>) {
    forall i, j :: 0 <= i < j < |files| ==> files[i].id > files[j].id
  }

  lemma {:induction false} InsertFileOrder(f: PackedFile, sorted: seq<PackedFile>)
    requires HighestFirst(sorted) && forall x :: x in sorted ==> x.id != f.id
    ensures HighestFirst(Sorting.Insert(f, sorted, HigherId))
    decreases |sorted|
  {
    if sorted == [] || sorted[0].id <= f.id {
      assert sorted != [] ==> sorted[0] in sorted;
    } else {
      InsertFileOrder(f, sorted[1..]);
      var rest := Sorting.Insert(f, sorted[1..], HigherId);
      Sorting.InsertMembers(f, sorted[1..], HigherId);
      forall k | 0 <= k < |rest| ensures sorted[0].id > rest[k].id {
        assert rest[k] in multiset(rest);
        if rest[k] != f { assert rest[k] in sorted[1..]; }
      }
    }
  }

  lemma {:induction false} SortFilesOrder(files: seq<PackedFile>)
    requires forall i, j :: 0 <= i < j < |files| ==> files[i].id != files[j].id
    ensures HighestFirst(SortFiles(files))
  {
    if files != [] {
      SortFilesOrder(files[1..]);
      Sorting.SortMembers(files[1..], HigherId);
      forall x | x in SortFiles(files[1..]) ensures x.id != files[0].id {
        assert x in multiset(files[1..]);
      }
      InsertFileOrder(files[0], SortFiles(files[1..]));
    }
  }

  lemma ProperBatch(files: seq<PackedFile>)
    requires ProperFiles(files)
    ensures ProperFiles(SortFiles(files))
    ensures var sorted := UnpackAll(SortFiles(files));
            && ProperTrigrams(sorted)
            && forall i, j :: 0 <= i < j < |sorted| ==> sorted[i].id > sorted[j].id
  {
    var sorted := SortFiles(files);
    forall i, j | 0 <= i < j < |files| ensures files[i].id != files[j].id {
      assert UnpackAll(files)[i].id != UnpackAll(files)[j].id;
    }
    SortFilesOrder(files);
    Sorting.SortMembers(files, HigherId);
    forall k | 0 <= k < |sorted|
      ensures forall t :: t in sorted[k].Unpack().trigrams ==> t < TRIGRAM_RANGE
    {
      assert sorted[k] in multiset(files);
      var j :| 0 <= j < |files| && files[j] == sorted[k];
      assert UnpackAll(files)[j] == sorted[k].Unpack();
    }
  }

  /** Sorting a batch does not change which ids hold a trigram. */
  lemma SortedHolders(files: seq<PackedFile>, t: nat, id: nat)
    ensures id in Holders(UnpackAll(SortFiles(files)), t)
       <==> exists f :: f in files && f.id == id && t in f.Unpack().trigrams
  {
    var sorted := SortFiles(files);
    Sorting.SortMembers(files, HigherId);
    HoldersAreFiles(UnpackAll(sorted), t, id);
    assert forall f :: f in files <==> f in multiset(files);
    assert forall f :: f in sorted <==> f in multiset(sorted);
    if f :| f in files && f.id == id && t in f.Unpack().trigrams {
      assert f in sorted;
      var k :| 0 <= k < |sorted| && sorted[k] == f;
      assert UnpackAll(sorted)[k] == f.Unpack();
    }
    if k :| 0 <= k < |sorted| && UnpackAll(sorted)[k].id == id && t in UnpackAll(sorted)[k].trigrams {
      assert sorted[k] in sorted;
    }
  }

  // ---------------------------------------------------------------- reading and building the tail table

  /** Yields the rows of a tail file in trigram order. */
  class AddressReader {
    var nextTrigram: nat
    const tail: Tail

    constructor (tail: Tail)
      ensures nextTrigram == 0 && this.tail == tail
    {
      nextTrigram := 0;
      this.tail := tail;
    }

    method Next() returns (row: Option<(nat, Option<nat>, nat)>)
      requires |tail.rows| == TRIGRAM_RANGE
      modifies this
      ensures if old(nextTrigram) >= TRIGRAM_RANGE then row.None? && nextTrigram == old(nextTrigram)
              else
                && nextTrigram == old(nextTrigram) + 1
                && row == Some((old(nextTrigram), tail.rows[old(nextTrigram)].Address(),
                    tail.rows[old(nextTrigram)].size))
    {
      if nextTrigram >= TRIGRAM_RANGE {
        row := None;
      } else {
        var trigram := nextTrigram;
        nextTrigram := nextTrigram + 1;
        row := Some((trigram, tail.rows[trigram].Address(), tail.rows[trigram].size));
      }
    }

    /** The number after the last row, which a tail file cut short does not have. */
    method ReadGeneration() returns (generation: Option<nat>)
      ensures generation == tail.generation
    {
      generation := tail.generation;
    }
  }

  /** Collects the rows of a new tail file, which must come in trigram order. */
  class AddressBuilder {
    var expectedTrigram: nat
    var rows: seq<Row>

    constructor ()
      ensures expectedTrigram == 0 && rows == []
    {
      expectedTrigram, rows := 0, [];
    }

    /** False is the error "Address build out of order". */
    method Write(trigram: nat, address: Option<nat>, size: nat) returns (ok: bool)
      modifies this
      ensures ok == (trigram == old(expectedTrigram))
      ensures if ok then
                && expectedTrigram == old(expectedTrigram) + 1
                && rows == old(rows) + [Row(if address.Some? then address.value else 0, size)]
              else rows == old(rows) && expectedTrigram == old(expectedTrigram)
    {
      if trigram != expectedTrigram { return false; }
      expectedTrigram := expectedTrigram + 1;
      match address
      case Some(a) => rows := rows + [Row(a, size)]; ok := true;
      case None => rows := rows + [Row(0, size)]; ok := true;
    }
  }

  /** The row of a trigram leads to its posting list. */
  lemma RowReads(d: Disk, log: seq<Entry>, t: nat)
    requires Standing(d, log) && t < TRIGRAM_RANGE
    ensures |d.tail.value.rows| == TRIGRAM_RANGE
    ensures ReadChain(d.data, d.tail.value.rows[t].Address()) == Some(Postings(log, t))
    ensures d.tail.value.rows[t].size == |Postings(log, t)|
  {
    RowAddress(d.data, log, t);
    ChainReads(d.data, log, t);
  }

  lemma EmptyChain(data: seq<byte>)
    ensures ReadChain(data, None) == Some([])
  {
  }

  // ---------------------------------------------------------------- what a batch has done so far

  /**
   The first `n` trigrams of a batch are done: `cur` holds their new blocks, `rows` their new
   tail rows; the others are as they were in `log`.
   */
  ghost predicate BatchDone(log: seq<Entry>, cur: seq<Entry>, files: seq<FileTrigrams>, rows: seq<Row>, n: nat) {
    && |rows| == n <= TRIGRAM_RANGE
    && (forall t: nat :: t < n ==>
        rows[t] == RowFor(cur, t) && Postings(cur, t) == Holders(files, t) + Postings(log, t))
    && (forall t: nat :: n <= t ==> Postings(cur, t) == Postings(log, t) && LastAddress(cur, t) == LastAddress(log, t))
  }

  lemma BatchStart(log: seq<Entry>, files: seq<FileTrigrams>)
    ensures BatchDone(log, log, files, [], 0)
  {
  }

  lemma BatchCopy(log: seq<Entry>, cur: seq<Entry>, files: seq<FileTrigrams>, rows: seq<Row>, n: nat)
    requires BatchDone(log, cur, files, rows, n) && n < TRIGRAM_RANGE && Holders(files, n) == []
    ensures BatchDone(log, cur, files, rows + [RowFor(log, n)], n + 1)
  {
    assert [] + Postings(log, n) == Postings(log, n);
  }

  lemma BatchBlock(log: seq<Entry>, cur: seq<Entry>, files: seq<FileTrigrams>, rows: seq<Row>, n: nat, address: nat)
    requires BatchDone(log, cur, files, rows, n) && n < TRIGRAM_RANGE
    ensures var e := Entry(n, address, Holders(files, n));
            BatchDone(log, cur + [e], files, rows + [Row(address, |Postings(log, n)| + |Holders(files, n)|)], n + 1)
  {
    var e := Entry(n, address, Holders(files, n));
    forall t: nat
      ensures Postings(cur + [e], t) == if t == n then e.ids + Postings(cur, t) else Postings(cur, t)
      ensures LastAddress(cur + [e], t) == if t == n then Some(address) else LastAddress(cur, t)
    {
      SnocEntry(cur, e, t);
    }
  }

  lemma BatchEnd(log: seq<Entry>, cur: seq<Entry>, files: seq<FileTrigrams>, rows: seq<Row>, generation: nat)
    requires BatchDone(log, cur, files, rows, TRIGRAM_RANGE) && ProperTrigrams(files)
    ensures TailMatches(Tail(rows, Some(generation)), cur)
    ensures forall t: nat :: Postings(cur, t) == Holders(files, t) + Postings(log, t)
  {
    forall t: nat ensures Postings(cur, t) == Holders(files, t) + Postings(log, t) {
      if TRIGRAM_RANGE <= t {
        HoldersEmpty(files, t);
        assert [] + Postings(log, t) == Postings(log, t);
      }
    }
  }

  // ---------------------------------------------------------------- what a write to the data file does

  /** The main files hold `log`; beyond it the data file already holds the uncommitted blocks of `cur`. */
  ghost predicate Staged(d: Disk, log: seq<Entry>, cur: seq<Entry>) {
    Standing(d, log) && Laid(d.data, cur)
  }

  lemma AppendKeepsLaid(data: seq<byte>, bytes: seq<byte>, log: seq<Entry>)
    requires Laid(data, log)
    ensures Laid(data + bytes, log) && LogEnd(log) <= |data|
  {
    LogEndBounds(data, log);
    assert (data + bytes)[..LogEnd(log)] == data[..LogEnd(log)];
    LaidByPrefix(data, data + bytes, log);
  }

  lemma AppendKeepsStaged(d: Disk, bytes: seq<byte>, log: seq<Entry>, cur: seq<Entry>)
    requires Staged(d, log, cur)
    ensures Staged(d.(data := d.data + bytes), log, cur)
  {
    AppendKeepsLaid(d.data, bytes, log);
    AppendKeepsLaid(d.data, bytes, cur);
  }

  /** A whole block appended at the end of the data file extends the uncommitted log. */
  lemma AppendBlock(d: Disk, log: seq<Entry>, cur: seq<Entry>, e: Entry)
    requires Staged(d, log, cur) && e.address == |d.data| && BlockIds(e.ids) && e.trigram < TRIGRAM_RANGE
    ensures Staged(d.(data := d.data + EntryBytes(cur, e)), log, cur + [e])
    ensures LogEnd(cur + [e]) == |d.data| + |EntryBytes(cur, e)|
  {
    var bytes := EntryBytes(cur, e);
    AppendKeepsStaged(d, bytes, log, cur);
    LogEndBounds(d.data, cur);
    LaidSnoc(d.data + bytes, cur, e);
  }

  lemma StartStaged(d: Disk, log: seq<Entry>)
    requires Standing(d, log)
    ensures Staged(d, log, log) && d.tail.Some? && TailMatches(d.tail.value, log)
  {
  }

  lemma SyncKeepsStaged(d: Disk, log: seq<Entry>, cur: seq<Entry>)
    requires Staged(d, log, cur)
    ensures Staged(d.(synced := |d.data|), log, cur)
  {
  }

  lemma CommitTail(d: Disk, log: seq<Entry>, cur: seq<Entry>, tail: Tail)
    requires Staged(d, log, cur) && d.synced == |d.data| && TailMatches(tail, cur) && tail.generation.Some?
    ensures Standing(d.(tail := Some(tail), tailSynced := true), cur)
  {
    LogEndBounds(d.data, cur);
  }

  /** What the old tail row says of a trigram is what the writer needs to link its new block. */
  lemma BlockLinks(d: Disk, log: seq<Entry>, cur: seq<Entry>, files: seq<FileTrigrams>, rows: seq<Row>, tail: Tail,
                   e: Entry)
    requires Staged(d, log, cur) && BatchDone(log, cur, files, rows, e.trigram) && TailMatches(tail, log)
    requires e.trigram < TRIGRAM_RANGE && e.address == |d.data| && e.ids == Holders(files, e.trigram) != []
    requires forall i, j :: 0 <= i < j < |files| ==> files[i].id > files[j].id
    ensures BlockIds(e.ids)
    ensures var row := tail.rows[e.trigram];
            && row.size == |Postings(log, e.trigram)|
            && (row.Address().Some? ==> row.Address().value < e.address)
            && LinkOffset(cur, e) == if row.Address().Some? then e.address - row.Address().value else 0
  {
    hide Laid; hide Postings; hide LastAddress; hide Holders;
    HoldersDescend(files, e.trigram);
    BlockIdsAreDescending(e.ids);
    RowAddress(d.data, log, e.trigram);
    LogEndBounds(d.data, log);
    if LastAddress(log, e.trigram).Some? {
      LastAddressBounds(d.data, log, e.trigram);
    }
  }

  // ---------------------------------------------------------------- what a defrag has done so far

  /** One block for each trigram, in trigram order. */
  ghost predicate OneBlockEach(log: seq<Entry>) {
    forall i, j :: 0 <= i < j < |log| ==> log[i].trigram < log[j].trigram
  }

  /** The first `n` trigrams of `log` are rewritten as `cur` and `rows`. */
  ghost predicate DefragDone(log: seq<Entry>, cur: seq<Entry>, rows: seq<Row>, n: nat) {
    && |rows| == n <= TRIGRAM_RANGE && OneBlockEach(cur)
    && (forall i :: 0 <= i < |cur| ==> cur[i].trigram < n)
    && (forall t: nat :: t < n ==> rows[t] == RowFor(cur, t) && Postings(cur, t) == Postings(log, t))
    && (forall t: nat :: n <= t ==> Postings(cur, t) == [] && LastAddress(cur, t) == None)
  }

  lemma DefragStart(log: seq<Entry>)
    ensures DefragDone(log, [], [], 0) && Rewritten(HEADER, [])
  {
  }

  lemma DefragEmpty(log: seq<Entry>, cur: seq<Entry>, rows: seq<Row>, n: nat)
    requires DefragDone(log, cur, rows, n) && n < TRIGRAM_RANGE && Postings(log, n) == []
    ensures DefragDone(log, cur, rows + [Row(0, 0)], n + 1)
  {
  }

  lemma DefragBlock(data: seq<byte>, log: seq<Entry>, cur: seq<Entry>, rows: seq<Row>, n: nat)
    requires DefragDone(log, cur, rows, n) && n < TRIGRAM_RANGE && Postings(log, n) != []
    requires Rewritten(data, cur) && StrictlyDescending(Postings(log, n))
    ensures var ids := Postings(log, n);
            && BlockIds(ids)
            && DefragDone(log, cur + [Entry(n, |data|, ids)], rows + [Row(|data|, |ids|)], n + 1)
            && Rewritten(data + BlockBytes(0, ids), cur + [Entry(n, |data|, ids)])
  {
    hide Laid; hide BlockIds; hide BlockBytes;
    var e := Entry(n, |data|, Postings(log, n));
    BlockIdsAreDescending(e.ids);
    forall t: nat
      ensures Postings(cur + [e], t) == if t == n then e.ids + Postings(cur, t) else Postings(cur, t)
      ensures LastAddress(cur + [e], t) == if t == n then Some(e.address) else LastAddress(cur, t)
    {
      SnocEntry(cur, e, t);
    }
    assert Postings(cur, n) == [] && e.ids + [] == e.ids;
    DefragBlockLaid(data, cur, e);
  }

  lemma DefragBlockLaid(data: seq<byte>, cur: seq<Entry>, e: Entry)
    requires Laid(data, cur) && e.address == |data| && e.trigram < TRIGRAM_RANGE
    requires BlockIds(e.ids) && LastAddress(cur, e.trigram) == None
    ensures Laid(data + BlockBytes(0, e.ids), cur + [e])
  {
    AppendKeepsLaid(data, BlockBytes(0, e.ids), cur);
    LaidSnoc(data + BlockBytes(0, e.ids), cur, e);
  }

  lemma DefragEnd(log: seq<Entry>, cur: seq<Entry>, rows: seq<Row>)
    requires DefragDone(log, cur, rows, TRIGRAM_RANGE) && ProperEntries(log)
    ensures TailMatches(Tail(rows, Some(0)), cur) && SamePostings(cur, log) && OneBlockEach(cur)
  {
    forall t: nat ensures Postings(cur, t) == Postings(log, t) {
      if TRIGRAM_RANGE <= t { NoForeignPostings(log, t); }
    }
  }

  lemma {:induction false} NoForeignPostings(log: seq<Entry>, t: nat)
    requires ProperEntries(log) && TRIGRAM_RANGE <= t
    ensures Postings(log, t) == []
  {
    if log != [] {
      NoForeignPostings(log[..|log| - 1], t);
    }
  }

  // ---------------------------------------------------------------- states of the files along the way

  /**
   Every state of the files since `before` holds `a` or `b` in its main files, where a query may take
   its snapshot, beside whatever install was waiting in `d`.
   */
  ghost predicate Guarded(d: Disk, before: seq<Disk>, after: seq<Disk>, a: seq<Entry>, b: seq<Entry>) {
    && before <= after
    && forall k :: |before| <= k < |after| ==>
         after[k].dotTail == d.dotTail && (Standing(after[k], a) || Standing(after[k], b))
  }

  /** When no install is waiting, each of these states recovers to `a` or to `b`. */
  lemma GuardedIsSafe(d: Disk, before: seq<Disk>, after: seq<Disk>, a: seq<Entry>, b: seq<Entry>)
    requires Guarded(d, before, after, a, b) && d.dotTail.None?
    ensures SafeTrace(before, after, a, b)
  {
    hide Standing;
  }

  lemma GuardedStart(d: Disk, before: seq<Disk>, a: seq<Entry>, b: seq<Entry>)
    ensures Guarded(d, before, before, a, b)
  {
  }

  lemma GuardedStep(d: Disk, before: seq<Disk>, after: seq<Disk>, a: seq<Entry>, b: seq<Entry>, next: Disk)
    requires Guarded(d, before, after, a, b) && next.dotTail == d.dotTail
    requires Standing(next, a) || Standing(next, b)
    ensures Guarded(next, before, after + [next], a, b)
  {
    hide Standing;
  }

  lemma GuardedWeaken(d: Disk, before: seq<Disk>, after: seq<Disk>, a: seq<Entry>, b: seq<Entry>)
    requires Guarded(d, before, after, a, a)
    ensures Guarded(d, before, after, a, b)
  {
    hide Standing;
  }

  lemma GuardedAppend(d: Disk, before: seq<Disk>, after: seq<Disk>, log: seq<Entry>, cur: seq<Entry>, bytes: seq<byte>)
    requires Guarded(d, before, after, log, log) && Staged(d.(data := d.data + bytes), log, cur)
    ensures var next := d.(data := d.data + bytes); Guarded(next, before, after + [next], log, log)
  {
    var next := d.(data := d.data + bytes);
    StagedValid(next, log, cur);
    GuardedStep(d, before, after, log, log, next);
  }

  lemma GuardedSync(d: Disk, before: seq<Disk>, after: seq<Disk>, log: seq<Entry>, cur: seq<Entry>)
    requires Guarded(d, before, after, log, log) && Staged(d.(synced := |d.data|), log, cur)
    ensures var next := d.(synced := |d.data|); Guarded(next, before, after + [next], log, log)
  {
    var next := d.(synced := |d.data|);
    StagedValid(next, log, cur);
    GuardedStep(d, before, after, log, log, next);
  }

  lemma GuardedInstall(d: Disk, before: seq<Disk>, after: seq<Disk>, log: seq<Entry>, cur: seq<Entry>, tail: Tail)
    requires Guarded(d, before, after, log, log) && Standing(d.(tail := Some(tail), tailSynced := true), cur)
    ensures var next := d.(tail := Some(tail), tailSynced := true); Guarded(next, before, after + [next], log, cur)
  {
    var next := d.(tail := Some(tail), tailSynced := true);
    GuardedWeaken(d, before, after, log, cur);
    GuardedStep(d, before, after, log, cur, next);
  }

  lemma StagedValid(d: Disk, log: seq<Entry>, cur: seq<Entry>)
    requires Staged(d, log, cur)
    ensures Standing(d, log) && (d.tail.value.generation.None? ==> log == [])
  {
  }

  /** Nothing but the data file has changed, and it has only grown. */
  ghost predicate OnlyGrown(d: Disk, base: Disk) {
    d == base.(data := d.data, synced := d.synced) && base.data <= d.data
  }

  /**
   Since `before` the data file has only been appended to, from `data` to what it is `now`: whoever
   is reading it is not disturbed.
   */
  ghost predicate Growing(data: seq<byte>, before: seq<Disk>, after: seq<Disk>, now: seq<byte>) {
    && before <= after && data <= now
    && (forall k :: |before| <= k < |after| ==> data <= after[k].data <= now)
    && (forall i, j :: |before| <= i <= j < |after| ==> after[i].data <= after[j].data)
  }

  lemma GrowingStart(data: seq<byte>, before: seq<Disk>)
    ensures Growing(data, before, before, data)
  {
  }

  lemma GrowingStep(data: seq<byte>, before: seq<Disk>, after: seq<Disk>, now: seq<byte>, d: Disk)
    requires Growing(data, before, after, now) && now <= d.data
    ensures Growing(data, before, after + [d], d.data)
  {
    var longer := after + [d];
    forall k | |before| <= k < |longer| ensures data <= longer[k].data <= d.data {
      if k < |after| { PrefixOfPrefix(longer[k].data, now, d.data); } else { PrefixOfPrefix(data, now, d.data); }
    }
  }

  lemma PrefixOfPrefix(a: seq<byte>, b: seq<byte>, c: seq<byte>)
    requires a <= b && b <= c
    ensures a <= c
  {
  }

  // ---------------------------------------------------------------- the journal

  datatype WriteResult = Written | Stopped | Failed

  /** Every posting list has grown by the ids of the files that hold its trigram, in front. */
  ghost predicate Adds(before: seq<Entry>, after: seq<Entry>, files: seq<FileTrigrams>) {
    forall t: nat :: Postings(after, t) == Holders(files, t) + Postings(before, t)
  }

  /**
   What a batch makes of a journal that is running.  It leaves a waiting install alone, and fails
   exactly when the tail file lacks its last number, which only a journal without blocks can have lost.
   */
  ghost predicate BatchOutcome(d: Disk, log: seq<Entry>, d': Disk, log': seq<Entry>, files: seq<FileTrigrams>,
                               failed: bool)
  {
    && d'.dotData == d.dotData && d'.dotTail == d.dotTail
    && d.tail.Some? && d'.tail.Some? && (failed <==> d.tail.value.generation.None?)
    && (failed ==> log' == log == [] && d'.tail == d.tail)
    && (!failed ==>
          && d'.tailSynced && d'.tail.value.generation == Some(d.tail.value.generation.value + 1)
          && Adds(log, log', files))
  }

  /** The posting lists of the first trigrams, in order. */
  ghost predicate Listed(log: seq<Entry>, lists: seq<(nat, seq<nat>)>) {
    forall t :: 0 <= t < |lists| ==> lists[t] == (t, Postings(log, t))
  }

  lemma ListedMore(log: seq<Entry>, lists: seq<(nat, seq<nat>)>, ids: seq<nat>)
    requires Listed(log, lists) && ids == Postings(log, |lists|)
    ensures Listed(log, lists + [(|lists|, ids)])
  {
    hide Postings;
  }

  class JournalFilter {
    var disk: Disk
    /** Where the write handle stands. */
    var position: nat
    var running: bool
    ghost var log: seq<Entry>
    /** Every state that the files have gone through: not part of the journal, but of what is said about it. */
    var trace: seq<Disk>

    ghost predicate Valid()
      reads this
    {
      Standing(disk, log) && position == |disk.data|
    }

    // -------- the ways in which the files change

    method SetDisk(d: Disk)
      modifies `disk, `trace
      ensures disk == d && trace == old(trace) + [d]
    {
      disk := d;
      trace := trace + [d];
    }

    method Append(bytes: seq<byte>)
      requires position == |disk.data|
      modifies `disk, `trace, `position
      ensures disk == old(disk).(data := old(disk).data + bytes) && position == |disk.data|
      ensures trace == old(trace) + [disk]
    {
      SetDisk(disk.(data := disk.data + bytes));
      position := position + |bytes|;
    }

    // -------- writing a batch

    /**
     Adds the files of a batch to the posting lists of their trigrams.  The posting list of every
     trigram grows at its front by exactly the ids of the files that hold it, highest first; the
     out-of-order check never fires; and every state on the way holds the journal as it was before the
     batch or as it is after it, to which it recovers after a crash unless an install is waiting, which
     is left alone.  The data file is only appended to.
     The batch fails exactly when the tail file lacks its last number, which only a journal without
     blocks can have lost, and then changes no posting list.
     */
    method WriteBatch(files: seq<PackedFile>) returns (r: WriteResult)
      requires Valid() && ProperFiles(files)
      modifies this
      ensures Valid() && running == old(running)
      ensures r.Stopped? <==> !running
      ensures r.Stopped? ==> log == old(log) && disk == old(disk) && trace == old(trace)
      ensures !r.Stopped? ==>
                BatchOutcome(old(disk), old(log), disk, log, UnpackAll(SortFiles(files)), r.Failed?)
      ensures Guarded(disk, old(trace), trace, old(log), log)
      ensures Growing(old(disk.data), old(trace), trace, disk.data)
    {
      GuardedStart(disk, trace, log, log);
      GrowingStart(disk.data, trace);
      if !running { return Stopped; }
      hide *;
      var failed := RunBatch(files);
      return if failed then Failed else Written;
    }

    method RunBatch(files: seq<PackedFile>) returns (failed: bool)
      requires Valid() && ProperFiles(files)
      modifies this
      ensures Valid() && running == old(running)
      ensures BatchOutcome(old(disk), old(log), disk, log, UnpackAll(SortFiles(files)), failed)
      ensures Guarded(disk, old(trace), trace, old(log), log)
      ensures Growing(old(disk.data), old(trace), trace, disk.data)
    {
      ProperBatch(files);
      hide *;
      ghost var files' := UnpackAll(SortFiles(files));
      var collector := NewFromVec(SortFiles(files));
      var reader, writer, cur := StartBatch(files');
      ghost var next: nat, ids: seq<nat>;
      failed, cur, next, ids := WriteBlocks(collector, reader, writer, cur, disk, trace);
      if failed { return; }
      failed := FinishBatch(reader, writer, cur, files', next, ids, old(disk), old(trace));
    }

    /** The main loop: one block and one tail row for every trigram that the batch holds. */
    method WriteBlocks(collector: IdCollector, reader: AddressReader, writer: AddressBuilder,
                       ghost cur0: seq<Entry>, ghost base: Disk, ghost start: seq<Disk>)
      returns (failed: bool, ghost cur: seq<Entry>, ghost next: nat, ghost ids': seq<nat>)
      requires collector.Valid() && collector.acceptable == 0
      requires collector.Repr !! {this, reader, writer} && reader as object != writer
      requires InBatch(reader, writer, cur0, collector.Files, 0, base, start)
      requires forall i, j :: 0 <= i < j < |collector.Files| ==> collector.Files[i].id > collector.Files[j].id
      modifies `disk, `trace, `position, reader, writer, collector.Repr
      ensures !failed && InBatch(reader, writer, cur, collector.Files, next, base, start)
      ensures Upcoming(collector.Files, next, None, ids')
    {
      hide IdCollector.Valid; hide InBatch; hide Upcoming;
      var trigram, ids := collector.Next([]);
      cur, next := cur0, 0;
      while trigram.Some?
        invariant Merging(collector, reader, writer, cur, next, trigram, ids, base, start)
        decreases TRIGRAM_RANGE - next, trigram.Some?
      {
        ghost var from := next;
        next := trigram.value + 1;
        failed, cur, trigram, ids := MergeNext(collector, reader, writer, trigram.value, ids, cur, from, base, start);
        if failed { return; }
      }
      failed, ids' := false, ids;
    }

    /** The main loop has done the trigrams below `next`; `trigram` comes next. */
    ghost predicate Merging(collector: IdCollector, reader: AddressReader, writer: AddressBuilder, cur: seq<Entry>,
                            next: nat, trigram: Option<nat>, ids: seq<nat>, base: Disk, start: seq<Disk>)
      reads this, reader, writer, collector, collector.Repr
    {
      && collector.Valid() && InBatch(reader, writer, cur, collector.Files, next, base, start) && next <= TRIGRAM_RANGE
      && (trigram.Some? ==> collector.acceptable == trigram.value + 1)
      && Upcoming(collector.Files, next, trigram, ids)
    }

    /** One round of the main loop. */
    method MergeNext(collector: IdCollector, reader: AddressReader, writer: AddressBuilder, trigram: nat, ids: seq<nat>,
                     ghost cur: seq<Entry>, ghost next: nat, ghost base: Disk, ghost start: seq<Disk>)
      returns (failed: bool, ghost cur': seq<Entry>, trigram': Option<nat>, ids': seq<nat>)
      requires Merging(collector, reader, writer, cur, next, Some(trigram), ids, base, start)
      requires collector.Repr !! {this, reader, writer} && reader as object != writer
      requires forall i, j :: 0 <= i < j < |collector.Files| ==> collector.Files[i].id > collector.Files[j].id
      modifies `disk, `trace, `position, reader, writer, collector.Repr
      ensures !failed && Merging(collector, reader, writer, cur', trigram + 1, trigram', ids', base, start)
      ensures next <= trigram < TRIGRAM_RANGE
    {
      hide IdCollector.Valid; hide InBatch; hide Upcoming;
      failed, cur' := AddTrigram(reader, writer, trigram, ids, cur, collector.Files, next, base, start);
      if failed { trigram', ids' := None, ids; return; }
      trigram', ids' := collector.Next(ids);
    }

    /** The state of a batch, begun in `base`, in which the trigrams below `next` are done. */
    ghost predicate InBatch(reader: AddressReader, writer: AddressBuilder, cur: seq<Entry>, files: seq<FileTrigrams>,
                            next: nat, base: Disk, start: seq<Disk>)
      reads this, reader, writer
    {
      && next <= TRIGRAM_RANGE && position == |disk.data|
      && disk.tail == Some(reader.tail) && TailMatches(reader.tail, log)
      && reader.nextTrigram == writer.expectedTrigram == next
      && Staged(disk, log, cur) && BatchDone(log, cur, files, writer.rows, next)
      && OnlyGrown(disk, base) && Guarded(disk, start, trace, log, log) && Growing(base.data, start, trace, disk.data)
    }

    method StartBatch(ghost files: seq<FileTrigrams>)
      returns (reader: AddressReader, writer: AddressBuilder, ghost cur: seq<Entry>)
      requires Valid()
      ensures fresh(reader) && fresh(writer) && reader as object != writer
      ensures InBatch(reader, writer, cur, files, 0, disk, trace)
    {
      StartStaged(disk, log);
      BatchStart(log, files);
      GuardedStart(disk, trace, log, log);
      GrowingStart(disk.data, trace);
      hide Standing; hide BatchDone; hide Staged; hide TailMatches; hide Guarded; hide Growing;
      writer := new AddressBuilder();
      reader := new AddressReader(disk.tail.value);
      cur := log;
    }

    /** Carries the tail table up to `trigram` and writes the trigram's new block and row. */
    method AddTrigram(reader: AddressReader, writer: AddressBuilder, trigram: nat, ids: seq<nat>, ghost cur: seq<Entry>,
                      ghost files: seq<FileTrigrams>, ghost next: nat, ghost base: Disk, ghost start: seq<Disk>)
      returns (failed: bool, ghost cur': seq<Entry>)
      requires InBatch(reader, writer, cur, files, next, base, start) && reader as object != writer
      requires Upcoming(files, next, Some(trigram), ids)
      requires forall i, j :: 0 <= i < j < |files| ==> files[i].id > files[j].id
      modifies `disk, `trace, `position, reader, writer
      ensures !failed && InBatch(reader, writer, cur', files, trigram + 1, base, start)
              && next <= trigram < TRIGRAM_RANGE
    {
      hide Staged; hide BatchDone; hide TailMatches; hide Recovers; hide Guarded; hide Growing;
      var oldAddress, oldSize;
      failed, oldAddress, oldSize := CopyRowsBelow(reader, writer, trigram, log, cur, files);
      if failed { return true, cur; }
      var newAddress := position;
      ghost var e := Entry(trigram, newAddress, ids);
      BlockLinks(disk, log, cur, files, writer.rows, reader.tail, e);
      BatchBlock(log, cur, files, writer.rows, trigram, newAddress);
      ghost var before, now := trace, disk.data;
      WriteBlock(oldAddress, newAddress, ids, cur, e, start);
      GrowingStep(base.data, start, before, now, disk);
      var ok := writer.Write(trigram, Some(newAddress), oldSize + |ids|);
      return !ok, cur + [e];
    }

    /** Copies the rest of the tail table, syncs the data file and installs the new tail. */
    method FinishBatch(reader: AddressReader, writer: AddressBuilder, ghost cur: seq<Entry>,
                       ghost files: seq<FileTrigrams>,
                       ghost next: nat, ghost ids: seq<nat>, ghost base: Disk, ghost start: seq<Disk>)
      returns (failed: bool)
      requires InBatch(reader, writer, cur, files, next, base, start) && reader as object != writer
               && ProperTrigrams(files)
      requires Upcoming(files, next, None, ids)
      modifies `disk, `trace, `log, reader, writer
      ensures Valid() && BatchOutcome(base, old(log), disk, log, files, failed)
      ensures Guarded(disk, start, trace, old(log), log)
      ensures Growing(base.data, start, trace, disk.data)
    {
      hide Staged; hide BatchDone; hide TailMatches; hide Guarded; hide Growing;
      ghost var before, now := trace, disk.data;
      failed := CopyRemainingRows(reader, writer, log, cur, files);
      if failed { return; }
      SyncData(cur, start);
      GrowingStep(base.data, start, before, now, disk);
      before := trace;
      var generation := reader.ReadGeneration();
      if generation.None? {
        StagedValid(disk, log, cur);
        return true;
      }
      BatchEnd(log, cur, files, writer.rows, 1 + generation.value);
      InstallTail(Tail(writer.rows, Some(1 + generation.value)), cur, start);
      GrowingStep(base.data, start, before, now, disk);
    }

    /** Writes one block at the end of the data file. */
    method WriteBlock(oldAddress: Option<nat>, newAddress: nat, ids: seq<nat>, ghost cur: seq<Entry>, ghost e: Entry,
                      ghost start: seq<Disk>)
      requires Staged(disk, log, cur) && position == |disk.data| == newAddress && Guarded(disk, start, trace, log, log)
      requires e.trigram < TRIGRAM_RANGE && e.address == newAddress && e.ids == ids && BlockIds(ids)
      requires oldAddress.Some? ==> oldAddress.value < newAddress
      requires LinkOffset(cur, e) == if oldAddress.Some? then newAddress - oldAddress.value else 0
      modifies `disk, `trace, `position
      ensures Staged(disk, log, cur + [e]) && position == |disk.data| && OnlyGrown(disk, old(disk))
      ensures trace == old(trace) + [disk]
      ensures Guarded(disk, start, trace, log, log)
    {
      var bytes := EncodeBlockData(oldAddress, newAddress, ids);
      AppendBlock(disk, log, cur, e);
      hide Staged; hide Guarded; hide BlockIds; hide Recovers;
      GuardedAppend(disk, start, trace, log, cur + [e], bytes);
      Append(bytes);
    }

    /** Syncs the data file. */
    method SyncData(ghost cur: seq<Entry>, ghost start: seq<Disk>)
      requires Staged(disk, log, cur) && position == |disk.data| && Guarded(disk, start, trace, log, log)
      modifies `disk, `trace
      ensures Staged(disk, log, cur) && position == |disk.data| == disk.synced && OnlyGrown(disk, old(disk))
      ensures trace == old(trace) + [disk]
      ensures Guarded(disk, start, trace, log, log)
    {
      SyncKeepsStaged(disk, log, cur);
      GuardedSync(disk, start, trace, log, cur);
      hide Staged; hide Guarded; hide Recovers;
      SetDisk(disk.(synced := |disk.data|));
    }

    /** Renames the new tail, which has been synced, into place: the point where the batch takes effect. */
    method InstallTail(tail: Tail, ghost cur: seq<Entry>, ghost start: seq<Disk>)
      requires Staged(disk, log, cur) && TailMatches(tail, cur) && position == |disk.data| == disk.synced
      requires tail.generation.Some? && Guarded(disk, start, trace, log, log)
      modifies `disk, `trace, `log
      ensures Valid() && log == cur && disk == old(disk).(tail := Some(tail), tailSynced := true)
      ensures trace == old(trace) + [disk]
      ensures Guarded(disk, start, trace, old(log), log)
    {
      CommitTail(disk, log, cur, tail);
      GuardedInstall(disk, start, trace, log, cur, tail);
      hide Staged; hide Guarded; hide Recovers; hide Standing;
      SetDisk(disk.(tail := Some(tail), tailSynced := true));
      log := cur;
    }

    // -------- reading back

    /** Walks the chain of blocks that starts at `start`. */
    method ReadPostings(start: Option<nat>) returns (ids: seq<int>)
      requires ReadChain(disk.data, start).Some?
      ensures ids == ReadChain(disk.data, start).value
    {
      hide ReadChain; hide LoadBlock; hide ReadUntilZero;
      EmptyChain(disk.data);
      ids := [];
      var address: Option<nat> := start;
      while address.Some?
        invariant ReadChain(disk.data, address).Some?
        invariant ReadChain(disk.data, start).value == ids + ReadChain(disk.data, address).value
        decreases match address case None => 0 case Some(a) => a + 1
      {
        ReadChainStep(disk.data, address.value);
        ghost var before := ids;
        var block := LoadBlockData(address.value, ReadUntilZero(disk.data, address.value));
        ids := block.value.DecodeInto(ids);
        var previous := block.value.Previous();
        if previous.Some? {
          address := Some(previous.value);
        } else {
          address := None;
        }
      }
    }

    /** Every trigram with its posting list, in trigram order. */
    method ReadAll() returns (lists: seq<(nat, seq<nat>)>)
      requires Valid()
      ensures |lists| == TRIGRAM_RANGE && Listed(log, lists)
    {
      assert disk.tail.Some? && |disk.tail.value.rows| == TRIGRAM_RANGE;
      hide Standing; hide Postings; hide ReadChain;
      var addresses := new AddressReader(disk.tail.value);
      lists := [];
      var row := addresses.Next();
      while row.Some?
        invariant |lists| <= TRIGRAM_RANGE && Listed(log, lists)
        invariant addresses.nextTrigram == if row.Some? then |lists| + 1 else |lists|
        invariant addresses.tail == disk.tail.value
        invariant row.None? ==> |lists| == TRIGRAM_RANGE
        invariant row.Some? ==>
                    |lists| < TRIGRAM_RANGE && row.value.0 == |lists|
                    && row.value.1 == addresses.tail.rows[|lists|].Address()
        decreases TRIGRAM_RANGE - |lists|, row.Some?
      {
        var (trigram, address, size) := row.value;
        RowReads(disk, log, trigram);
        var ids := ReadPostings(address);
        ListedMore(log, lists, ids);
        hide Listed;
        lists := lists + [(trigram, ids)];
        row := addresses.Next();
      }
    }

    // -------- defragmenting

    /**
     Rewrites the journal with one block per trigram that has any ids.  No posting list changes, and
     no install is left waiting.  The files go through four states; for a journal with at least one
     block each of them recovers to the same posting lists.  `DefragSafety.DefragSafeIff` says that
     this is exactly when stopping in any of them is harmless.
     */
    method Defrag() returns (r: WriteResult)
      requires Valid() && AllDescending(log)
      modifies this
      ensures Valid() && running == old(running)
      ensures r == if running then Written else Stopped
      ensures r.Stopped? ==> log == old(log) && disk == old(disk) && trace == old(trace)
      ensures r.Written? ==>
                && SamePostings(log, old(log)) && OneBlockEach(log) && disk.dotTail.None?
                && disk.tailSynced && disk.tail.value.generation == Some(0)
      ensures r.Written? ==>
                exists newData :: Rewritten(newData, log)
                    && trace == old(trace) + DefragSteps(old(disk), newData, disk.tail.value)
      ensures old(log) != [] && old(disk.dotTail.None?) ==> SafeTrace(old(trace), trace, old(log), log)
    {
      SafeStart(trace, log, log);
      if !running { return Stopped; }
      var tempJournal, rows, failed;
      ghost var cur;
      failed, tempJournal, rows, cur := Rewrite();
      if failed { return Failed; }
      hide Standing; hide SafeTrace; hide DefragSteps; hide Laid; hide OneBlockEach; hide SamePostings;
      InstallDefragmented(tempJournal, Tail(rows, Some(0)), cur);
      return Written;
    }

    /** Builds the defragmented data and tail in temporary files. */
    method Rewrite() returns (failed: bool, tempJournal: seq<byte>, rows: seq<Row>, ghost cur: seq<Entry>)
      requires Valid() && AllDescending(log)
      ensures !failed && Rewritten(tempJournal, cur) && TailMatches(Tail(rows, Some(0)), cur)
      ensures SamePostings(cur, log) && OneBlockEach(cur)
    {
      assert ProperEntries(log);
      hide Standing; hide Postings; hide SamePostings; hide OneBlockEach; hide ProperEntries; hide TailMatches;
      tempJournal := HEADER;
      var position := |HEADER|;
      var addressWriter := new AddressBuilder();
      cur := [];
      DefragStart(log);
      var trigramStream := ReadAll();
      var i := 0;
      while i < |trigramStream|
        invariant 0 <= i <= |trigramStream| && addressWriter.expectedTrigram == i
        invariant position == |tempJournal| && Rewritten(tempJournal, cur)
        invariant DefragDone(log, cur, addressWriter.rows, i)
      {
        hide DefragDone; hide Rewritten;
        var (trigram, fileIds) := trigramStream[i];
        var ok;
        if fileIds == [] {
          DefragEmpty(log, cur, addressWriter.rows, i);
          ok := addressWriter.Write(trigram, None, 0);
        } else {
          DefragBlock(tempJournal, log, cur, addressWriter.rows, i);
          ok := addressWriter.Write(trigram, Some(position), |fileIds|);
          var bytes := EncodeBlockData(None, position, fileIds);
          cur := cur + [Entry(trigram, position, fileIds)];
          position := position + |bytes|;
          tempJournal := tempJournal + bytes;
        }
        if !ok { return true, [], [], []; }
        i := i + 1;
      }
      DefragEnd(log, cur, addressWriter.rows);
      failed, rows := false, addressWriter.rows;
    }

    method PrepareInstallDefrag(tempData: seq<byte>, tempTail: Tail)
      modifies `disk, `trace
      ensures disk == old(disk).(dotData := Some(tempData), dotTail := Some(tempTail))
      ensures trace == old(trace) + [old(disk).(dotData := Some(tempData))] + [disk]
    {
      SetDisk(disk.(dotData := Some(tempData)));
      SetDisk(disk.(dotTail := Some(tempTail)));
    }

    /** Moves the files of a finished defrag into place, or drops what an unfinished one left. */
    method InstallDefrag()
      modifies `disk, `trace
      ensures disk == Installed(old(disk))
      ensures trace == old(trace) + InstallSteps(old(disk))
    {
      if disk.dotTail.Some? {
        if disk.dotData.Some? {
          SetDisk(DataInstalled(disk));
        }
        SetDisk(disk.(tail := disk.dotTail, tailSynced := true, dotTail := None));
      } else if disk.dotData.Some? {
        SetDisk(disk.(dotData := None));
      }
    }

    /** Installs the rewritten files and moves the write handle to the new data file. */
    method InstallDefragmented(tempJournal: seq<byte>, tail: Tail, ghost cur: seq<Entry>)
      requires Valid() && Laid(tempJournal, cur) && SamePostings(cur, log)
      requires TailMatches(tail, cur) && tail.generation.Some?
      modifies this
      ensures Valid() && running == old(running) && log == cur
      ensures disk.tail == Some(tail) && disk.tailSynced && disk.dotTail.None?
      ensures trace == old(trace) + DefragSteps(old(disk), tempJournal, tail)
      ensures old(log) != [] && old(disk.dotTail.None?) ==> SafeTrace(old(trace), trace, old(log), log)
    {
      if log != [] && disk.dotTail.None? {
        InstallIsSafe(disk, tempJournal, tail, log, cur);
        TraceOfSteps(trace, DefragSteps(disk, tempJournal, tail), log, cur);
      }
      InstalledIsCommitted(disk, tempJournal, tail, cur);
      hide SamePostings; hide Standing; hide Recovers; hide Laid; hide TailMatches; hide SafeTrace;
      PrepareInstallDefrag(tempJournal, tail);
      InstallDefrag();
      position := |disk.data|;
      log := cur;
    }

    // -------- creating and opening

    /** A journal object over existing files, before anything has been read or repaired. */
    constructor Over(d: Disk, ghost log: seq<Entry>)
      ensures disk == d && this.log == log && trace == [] && running && position == 0
    {
      disk, position, running := d, 0, true;
      this.log := log;
      trace := [];
    }

    /** Makes an empty tail file: created under its name, then extended, and never synced. */
    method InitEmpty()
      modifies `disk, `trace
      ensures disk == WithEmptyTail(old(disk)) && trace == old(trace) + [WithNewTail(old(disk))] + [disk]
    {
      SetDisk(WithNewTail(disk));
      SetDisk(WithEmptyTail(disk));
    }

    /** Writes the header and an empty tail (`blocking_new`). */
    method Initialise(ghost start: seq<Disk>)
      requires !disk.present && disk.data == [] && disk.synced == 0 && disk.tail.None?
      requires SmallSteps(start, trace, disk.dotTail)
      modifies `disk, `trace, `position
      ensures disk == Recreated(old(disk)) && position == |disk.data|
      ensures SmallSteps(start, trace, disk.dotTail)
    {
      ghost var dotTail := disk.dotTail;
      SmallStep(start, trace, dotTail, disk.(present := true));
      hide SmallSteps;
      SetDisk(disk.(present := true));
      SmallStep(start, trace, dotTail, disk.(data := HEADER));
      SetDisk(disk.(data := HEADER));
      SmallStep(start, trace, dotTail, disk.(synced := |HEADER|));
      SetDisk(disk.(synced := |HEADER|));
      SmallStep(start, trace, dotTail, WithNewTail(disk));
      SmallStep(start, trace + [WithNewTail(disk)], dotTail, WithEmptyTail(disk));
      InitEmpty();
      position := |disk.data|;
    }

    /** Replaces the files of a journal that was never fully initialised; a pending install stays where it is. */
    method Recreate()
      requires Sane(disk) && disk.synced <= |disk.data| <= |HEADER|
      modifies `disk, `trace, `position
      ensures disk == Recreated(old(disk)) && position == |disk.data|
      ensures SmallSteps(old(trace), trace, old(disk).dotTail)
    {
      ghost var start := trace;
      SmallStepsStart(start, disk.dotTail);
      hide SmallSteps;
      if disk.present {
        SmallStep(start, trace, disk.dotTail, disk.(tail := None));
        SetDisk(disk.(tail := None));
        SmallStep(start, trace, disk.dotTail, disk.(present := false, data := [], synced := 0));
        SetDisk(disk.(present := false, data := [], synced := 0));
      }
      Initialise(start);
    }

    static method New() returns (journal: JournalFilter)
      ensures fresh(journal) && journal.Valid() && journal.log == [] && journal.running
              && journal.disk == Recreated(EMPTY_DISK)
      ensures SafeTrace([], journal.trace, [], [])
    {
      journal := new JournalFilter.Over(EMPTY_DISK, []);
      journal.Recreate();
      RecreatedStands(EMPTY_DISK);
      SmallStepsRecover([], journal.trace);
    }

    /**
     Opens a journal after any shutdown or crash: `Opened` says what becomes of the files and when
     opening fails.  Files that hold a log, with no tail cut short, open as a journal with that log;
     and a crash at any point of the recovery itself changes nothing, but for the new tail file of a
     journal that had lost its own, which may be cut short in its turn.
     */
    static method Open(d: Disk, ghost log: seq<Entry>) returns (r: Option<JournalFilter>)
      requires Sane(d)
      ensures r.Some? <==> Opened(d).Some?
      ensures r.Some? ==>
                && fresh(r.value) && r.value.disk == Opened(d).value && r.value.position == |r.value.disk.data|
                && r.value.log == log && r.value.running
      ensures Recovers(d, log) ==> r.Some? && r.value.Valid() && ReachTrace([], r.value.trace, log)
      ensures Recovers(d, log) && !Lacking(d) ==> SafeTrace([], r.value.trace, log, log)
    {
      var journal := new JournalFilter.Over(d, log);
      if |d.data| <= |HEADER| {
        journal.Recreate();
        if Recovers(d, log) { journal.RecreatedFrom(d); }
        return Some(journal);
      }
      if Recovers(d, log) {
        RecoversOpened(d, log);
        RepairIsSafe(d, log);
      }
      hide *;
      var ok := journal.Recover();
      return if ok then Some(journal) else None;
    }

    lemma RecreatedFrom(d: Disk)
      requires Recovers(d, log) && |d.data| <= |HEADER| && SmallSteps([], trace, d.dotTail)
      ensures disk == Recreated(d) && position == |disk.data| ==> Valid()
      ensures SafeTrace([], trace, log, log) && ReachTrace([], trace, log)
    {
      SmallIsEmpty(d, log);
      RecreatedStands(d);
      SmallStepsRecover([], trace);
      SafeReaches([], trace, log);
    }

    /** The part of opening that repairs an initialised journal. */
    method Recover() returns (ok: bool)
      requires |HEADER| < |disk.data| && trace == []
      modifies `disk, `trace, `position
      ensures ok <==> Opened(old(disk)).Some?
      ensures ok ==> disk == Opened(old(disk)).value && position == |disk.data|
      ensures trace == InstallSteps(old(disk)) + RepairSteps(Installed(old(disk)))
    {
      ghost var d := disk;
      InstallDefrag();
      hide Installed; hide InstallSteps;
      ok := Repair();
      position := |disk.data|;
    }

    /** Checks the header, makes a missing tail and drops what follows the last block. */
    method Repair() returns (ok: bool)
      modifies `disk, `trace
      ensures ok <==> Repaired(old(disk)).Some?
      ensures ok ==> disk == Repaired(old(disk)).value
      ensures trace == old(trace) + RepairSteps(old(disk))
    {
      hide Truncated; hide Greatest; hide EmptyTail;
      if |disk.data| < |HEADER| || disk.data[..|HEADER|] != HEADER {
        return false;
      }
      if disk.tail.None? {
        InitEmpty();
      }
      ok := TruncateAfterLastBlock();
    }

    /** Reads the last record and drops whatever follows it; false is an error. */
    method TruncateAfterLastBlock() returns (ok: bool)
      requires disk.tail.Some?
      modifies `disk, `trace
      ensures var rows := old(disk).tail.value.rows;
              var r := if |rows| != TRIGRAM_RANGE then None else Truncated(old(disk), Greatest(rows));
              && (ok <==> r.Some?) && (ok ==> disk == r.value)
      ensures trace == old(trace) + if |old(disk).tail.value.rows| != TRIGRAM_RANGE then []
              else TruncateSteps(old(disk))
    {
      hide Greatest; hide LoadBlock; hide ReadUntilZero;
      var address := GreatestTailAddress();
      if address.None? { return false; }
      if address.value > 0 {
        var buffer := ReadUntilZero(disk.data, address.value);
        var block := LoadBlockData(address.value, buffer);
        if block.None? { return false; }
        SetDisk(Shortened(disk, address.value + |buffer|));
      }
      return true;
    }

    /** The greatest address in the tail table; nothing when the file ends before the table does. */
    method GreatestTailAddress() returns (address: Option<nat>)
      requires disk.tail.Some?
      ensures address == if |disk.tail.value.rows| != TRIGRAM_RANGE then None else Some(Greatest(disk.tail.value.rows))
    {
      var rows := disk.tail.value.rows;
      if |rows| != TRIGRAM_RANGE { return None; }
      var reader := new AddressReader(disk.tail.value);
      var greatest := 0;
      var row := reader.Next();
      ghost var n := 0;
      while row.Some?
        invariant 0 <= n <= TRIGRAM_RANGE && reader.tail == disk.tail.value
        invariant reader.nextTrigram == if row.Some? then n + 1 else n
        invariant if row.Some? then n < TRIGRAM_RANGE && row.value.1 == rows[n].Address() else n == TRIGRAM_RANGE
        invariant greatest == Greatest(rows[..n])
        decreases TRIGRAM_RANGE - n, row.Some?
      {
        GreatestSnoc(rows, n);
        var a := row.value.1;
        if a.Some? {
          if greatest < a.value {
            greatest := a.value;
          }
        }
        n := n + 1;
        row := reader.Next();
      }
      assert rows[..n] == rows;
      return Some(greatest);
    }
  }

  lemma GreatestSnoc(rows: seq<Row>, n: nat)
    requires n < |rows|
    ensures Greatest(rows[..n + 1])
         == if Greatest(rows[..n]) < rows[n].address then rows[n].address else Greatest(rows[..n])
  {
    assert rows[..n + 1][..n] == rows[..n];
  }

  /** Copies the rows below `trigram` from the old tail to the new one, and reads the row of `trigram`. */
  method CopyRowsBelow(reader: AddressReader, writer: AddressBuilder, trigram: nat,
                       ghost log: seq<Entry>, ghost cur: seq<Entry>, ghost files: seq<FileTrigrams>)
    returns (failed: bool, address: Option<nat>, size: nat)
    requires reader.nextTrigram <= trigram < TRIGRAM_RANGE && writer.expectedTrigram == reader.nextTrigram
    requires TailMatches(reader.tail, log)
    requires BatchDone(log, cur, files, writer.rows, reader.nextTrigram)
    requires forall u: nat :: reader.nextTrigram <= u < trigram ==> Holders(files, u) == []
    modifies reader, writer
    ensures !failed && reader.nextTrigram == trigram + 1 && writer.expectedTrigram == trigram
    ensures address == reader.tail.rows[trigram].Address() && size == reader.tail.rows[trigram].size
    ensures BatchDone(log, cur, files, writer.rows, trigram)
  {
    hide BatchDone;
    while true
      invariant reader.nextTrigram <= trigram && writer.expectedTrigram == reader.nextTrigram
      invariant BatchDone(log, cur, files, writer.rows, reader.nextTrigram)
      decreases trigram - reader.nextTrigram
    {
      ghost var n := reader.nextTrigram;
      var row := reader.Next();
      var tg := row.value.0;
      address, size := row.value.1, row.value.2;
      if tg < trigram {
        BatchCopy(log, cur, files, writer.rows, n);
        var ok := writer.Write(tg, address, size);
        if !ok { failed := true; return; }
        continue;
      }
      break;
    }
    failed := false;
  }

  /** Copies the rows of the trigrams after the last one that the batch touched. */
  method CopyRemainingRows(reader: AddressReader, writer: AddressBuilder,
                           ghost log: seq<Entry>, ghost cur: seq<Entry>, ghost files: seq<FileTrigrams>)
    returns (failed: bool)
    requires reader.nextTrigram <= TRIGRAM_RANGE && writer.expectedTrigram == reader.nextTrigram
    requires TailMatches(reader.tail, log)
    requires BatchDone(log, cur, files, writer.rows, reader.nextTrigram)
    requires forall u: nat :: reader.nextTrigram <= u ==> Holders(files, u) == []
    modifies reader, writer
    ensures !failed && BatchDone(log, cur, files, writer.rows, TRIGRAM_RANGE)
  {
    hide BatchDone;
    ghost var n := reader.nextTrigram;
    var row := reader.Next();
    while row.Some?
      invariant n <= TRIGRAM_RANGE && writer.expectedTrigram == n
      invariant reader.nextTrigram == if row.Some? then n + 1 else n
      invariant if row.Some? then n < TRIGRAM_RANGE
                && row.value == (n, reader.tail.rows[n].Address(), reader.tail.rows[n].size)
                else n == TRIGRAM_RANGE
      invariant BatchDone(log, cur, files, writer.rows, n)
      decreases TRIGRAM_RANGE - n, row.Some?
    {
      BatchCopy(log, cur, files, writer.rows, n);
      var (trigram, address, size) := row.value;
      var ok := writer.Write(trigram, address, size);
      if !ok { return true; }
      n := n + 1;
      row := reader.Next();
    }
    return false;
  }
}
