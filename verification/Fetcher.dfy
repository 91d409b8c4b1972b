/**
 The fetch agent (`_search_stream` and `_fetch_agent`, src/broker/fetcher.rs): it reads file rows
 in the order they were last seen, keeps their ingestion running, and moves a checkpoint from which
 it can be restarted.  Nothing that is not processed is ever before the checkpoint.
 */
module Fetcher {
  /** A row; `tag` is its place among the rows seen at the same time (hash, classification, expiry). */
  datatype File = File(seen: int, tag: int)

  predicate Leq(a: File, b: File) {
    a.seen < b.seen || (a.seen == b.seen && a.tag <= b.tag)
  }

  ghost predicate BySeen(rows: seq<File>) {
    forall i, j :: 0 <= i < j < |rows| ==> rows[i].seen <= rows[j].seen
  }

  function Max(a: int, b: int): int {
    if a < b then b else a
  }

  // ---------------------------------------------------------------- reading the table

  /** The first row at or past the seek point, in a table sorted by `seen`. */
  function From(table: seq<File>, seek: int): (i: nat)
    ensures i <= |table|
    ensures forall k :: 0 <= k < i ==> table[k].seen < seek
    ensures i < |table| ==> seek <= table[i].seen
  {
    if table == [] || seek <= table[0].seen then 0 else 1 + From(table[1..], seek)
  }

  /** `fetch_files`: up to `size` rows seen at or after the seek point, oldest first. */
  function Batch(table: seq<File>, seek: int, size: nat): seq<File> {
    var i := From(table, seek);
    table[i..if i + size <= |table| then i + size else |table|]
  }

  /**
   Everything a poll passes over is in its batch: rows between the old and the new seek point are
   sent, and the batch ends in its greatest time.
   */
  lemma BatchCovers(table: seq<File>, seek: int, size: nat)
    requires BySeen(table)
    ensures var batch := Batch(table, seek, size);
            && BySeen(batch)
            && (forall f :: f in batch ==> f in table && seek <= f.seen)
            && (forall f :: batch != [] && f in table && seek <= f.seen < batch[|batch| - 1].seen ==> f in batch)
            && (forall f :: f in batch ==> f.seen <= batch[|batch| - 1].seen)
  {
    var batch, i := Batch(table, seek, size), From(table, seek);
    forall k | 0 <= k < |batch| ensures batch[k] == table[i + k] && seek <= batch[k].seen <= batch[|batch| - 1].seen {
      assert table[i].seen <= table[i + k].seen <= table[i + |batch| - 1].seen;
    }
    forall f | batch != [] && f in table && seek <= f.seen < batch[|batch| - 1].seen ensures f in batch {
      InBatch(table, seek, size, f);
    }
  }

  lemma InBatch(table: seq<File>, seek: int, size: nat, f: File)
    requires BySeen(table) && f in table && Batch(table, seek, size) != []
    requires seek <= f.seen < Batch(table, seek, size)[|Batch(table, seek, size)| - 1].seen
    ensures f in Batch(table, seek, size)
  {
    var batch, i := Batch(table, seek, size), From(table, seek);
    var k :| 0 <= k < |table| && table[k] == f;
    assert i <= k;
    assert batch[|batch| - 1] == table[i + |batch| - 1];
    assert batch[k - i] == f;
  }

  /**
   Exactly when a poll moves the seek point: when fewer rows than fit a batch were seen at the seek
   point itself and some row was seen later.  With a full batch of rows of one time it stays forever.
   */
  lemma PollAdvancesIff(table: seq<File>, seek: int, size: nat)
    requires BySeen(table)
    ensures var batch, i := Batch(table, seek, size), From(table, seek);
            (batch != [] && seek < batch[|batch| - 1].seen)
            <==> exists k :: i <= k < |table| && k < i + size && seek < table[k].seen
  {
    var batch, i := Batch(table, seek, size), From(table, seek);
    var n := |batch|;
    assert forall k :: 0 <= k < n ==> batch[k] == table[i + k];
    assert i + n == if i + size <= |table| then i + size else |table|;
    hide Batch; hide From;
    if k :| i <= k < i + n && seek < table[k].seen {
      if k < i + n - 1 {
        LaterSeen(table, k, i + n - 1);
      }
    }
    if n > 0 && seek < batch[n - 1].seen {
      assert seek < table[i + n - 1].seen;
    }
  }

  lemma LaterSeen(table: seq<File>, j: nat, k: nat)
    requires BySeen(table) && j <= k < |table|
    ensures table[j].seen <= table[k].seen
  {
  }

  /** What has been sent, in the order of the rows, covers the table up to the seek point. */
  ghost predicate Covers(start: int, seek: int, output: seq<File>, rows: set<File>) {
    && start <= seek && BySeen(output)
    && (forall f :: f in output ==> start <= f.seen <= seek)
    && (forall f :: f in rows && start <= f.seen < seek ==> f in output)
  }

  lemma PollCovers(start: int, seek: int, output: seq<File>, rows: set<File>, table: seq<File>, size: nat)
    requires Covers(start, seek, output, rows) && BySeen(table)
    requires forall f :: f in table && f !in rows ==> seek <= f.seen
    ensures var batch := Batch(table, seek, size);
            Covers(start, SeekAfter(batch, seek), output + batch, set f | f in table)
  {
    BatchCovers(table, seek, size);
    hide Batch;
    var batch := Batch(table, seek, size);
    Appended(output, batch, seek);
  }

  function SeekAfter(batch: seq<File>, seek: int): int {
    if batch == [] then seek else batch[|batch| - 1].seen
  }

  ghost predicate Climbs(batch: seq<File>, seek: int) {
    BySeen(batch) && forall k :: 0 <= k < |batch| ==> seek <= batch[k].seen
  }

  lemma BatchClimbs(table: seq<File>, seek: int, size: nat)
    requires BySeen(table)
    ensures Climbs(Batch(table, seek, size), seek)
    ensures seek <= SeekAfter(Batch(table, seek, size), seek)
  {
    BatchCovers(table, seek, size);
    var batch := Batch(table, seek, size);
    assert forall k :: 0 <= k < |batch| ==> batch[k] in batch;
  }

  lemma AppendOne(sent: seq<File>, batch: seq<File>, k: nat)
    requires k < |batch|
    ensures sent + batch[..k] + [batch[k]] == sent + batch[..k + 1]
  {
  }

  lemma NothingYet(batch: seq<File>, seek: int, sent: seq<File>)
    ensures sent + batch[..0] == sent && SeekAfter(batch[..0], seek) == seek
  {
  }

  lemma SeekSteps(batch: seq<File>, k: nat, seek: int)
    requires Climbs(batch, seek) && k < |batch|
    ensures SeekAfter(batch[..k + 1], seek) == Max(SeekAfter(batch[..k], seek), batch[k].seen)
  {
  }

  lemma Appended(output: seq<File>, batch: seq<File>, seek: int)
    requires BySeen(output) && BySeen(batch)
    requires (forall f :: f in output ==> f.seen <= seek) && forall f :: f in batch ==> seek <= f.seen
    ensures BySeen(output + batch) && forall f :: f in output + batch <==> f in output || f in batch
  {
    assert forall k :: 0 <= k < |output| ==> output[k] in output;
    assert forall k :: 0 <= k < |batch| ==> batch[k] in batch;
  }

  /** `_search_stream`: polls the table and sends what it finds. */
  class SearchStream {
    const start: int
    var seekPoint: int
    /** Everything sent so far, in order. */
    var output: seq<File>
    /** The rows of the table as last polled. */
    ghost var rows: set<File>

    ghost predicate Valid()
      reads this
    {
      Covers(start, seekPoint, output, rows)
    }

    constructor (checkpoint: int)
      ensures Valid() && start == seekPoint == checkpoint && output == [] && rows == {}
    {
      start, seekPoint, output, rows := checkpoint, checkpoint, [], {};
    }

    /** One round; between rounds only rows at or past the seek point may have come into the table. */
    method Poll(table: seq<File>, size: nat)
      requires Valid() && BySeen(table)
      requires forall f :: f in table && f !in rows ==> seekPoint <= f.seen
      modifies this
      ensures Valid() && output == old(output) + Batch(table, old(seekPoint), size)
      ensures old(seekPoint) <= seekPoint == SeekAfter(Batch(table, old(seekPoint), size), old(seekPoint))
      ensures rows == set f | f in table
    {
      var batch := Batch(table, seekPoint, size);
      PollCovers(start, seekPoint, output, rows, table, size);
      BatchClimbs(table, seekPoint, size);
      ghost var before, sent := seekPoint, output;
      NothingYet(batch, before, sent);
      hide *;
      for k := 0 to |batch|
        invariant output == sent + batch[..k]
        invariant seekPoint == SeekAfter(batch[..k], before)
      {
        SeekSteps(batch, k, before);
        AppendOne(sent, batch, k);
        seekPoint := Max(seekPoint, batch[k].seen);
        output := output + [batch[k]];
      }
      assert batch[..|batch|] == batch;
      rows := set f | f in table;
    }
  }
}
