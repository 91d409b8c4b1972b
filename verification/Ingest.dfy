/**
 How files get their numbers and reach the journal (src/worker/database_sqlite.rs and the loop of
 `_ingest_feeder`, src/worker/manager.rs).  When every write is followed by its finish, the ids of a
 batch exceed all ids written before, which is what the journal relies on; a crash between the two
 repeats ids.
 */
module Ingest {
  import opened Bytes

  /** A row of the file table, under its number. */
  datatype Row = Row(hash: nat, ingested: bool)

  type Table = map<nat, Row>

  predicate Waiting(rows: Table, n: nat) {
    n in rows && !rows[n].ingested
  }

  ghost predicate UniqueHashes(rows: Table) {
    forall n, m :: n in rows && m in rows && rows[n].hash == rows[m].hash ==> n == m
  }

  function Numbers(batch: seq<(nat, nat)>): set<nat> {
    set i | 0 <= i < |batch| :: batch[i].0
  }

  /** The batch lists waiting rows in the order of their numbers, and every other waiting row comes after it. */
  ghost predicate LowestWaiting(rows: Table, batch: seq<(nat, nat)>) {
    && (forall i :: 0 <= i < |batch| ==> Waiting(rows, batch[i].0) && rows[batch[i].0].hash == batch[i].1)
    && InOrder(batch)
    && After(rows, Numbers(batch))
  }

  ghost predicate InOrder(batch: seq<(nat, nat)>) {
    forall i, j :: 0 <= i < j < |batch| ==> batch[i].0 < batch[j].0
  }

  /** Every waiting row outside `numbers` comes after them. */
  ghost predicate After(rows: Table, numbers: set<nat>) {
    forall n, m :: Waiting(rows, n) && n !in numbers && m in numbers ==> m < n
  }

  /** The rows, and the number of the next one. */
  datatype Numbered = Numbered(rows: Table, next: nat)

  /** A file that is not there gets the next number. */
  ghost function Entered(t: Numbered, hash: nat): Numbered {
    if HasHash(t.rows, hash) then t else Numbered(t.rows[t.next := Row(hash, false)], t.next + 1)
  }

  ghost function AllEntered(t: Numbered, files: seq<nat>): Numbered {
    if files == [] then t else Entered(AllEntered(t, files[..|files| - 1]), files[|files| - 1])
  }

  /** The files among these that are ingested, in their order. */
  ghost function Ingested(files: seq<nat>, rows: Table): seq<nat> {
    if files == [] then []
    else
      var n := |files| - 1;
      Ingested(files[..n], rows) + if IsIngested(rows, files[n]) then [files[n]] else []
  }

  class FileTable {
    var rows: Table
    /** The next number; deleting rows does not bring numbers back. */
    var next: nat

    ghost function Now(): Numbered
      reads this
    {
      Numbered(rows, next)
    }

    ghost predicate Valid()
      reads this
    {
      UniqueHashes(rows) && forall n :: n in rows ==> n < next
    }

    constructor ()
      ensures Valid() && rows == map[] && next == 1
    {
      rows, next := map[], 1;
    }

    method Lookup(hash: nat) returns (number: Option<nat>)
      requires Valid()
      ensures number.Some? ==> number.value in rows && rows[number.value].hash == hash
      ensures number.None? ==> forall n :: n in rows ==> rows[n].hash != hash
    {
      if n :| n in rows && rows[n].hash == hash {
        number := Some(n);
      } else {
        number := None;
      }
    }

    /** Looks one file up, and gives it the next number if it is not there. */
    method IngestOne(hash: nat) returns (ingested: bool)
      requires Valid()
      modifies this
      ensures Valid() && Grown(old(rows), rows, old(next)) && old(next) <= next
      ensures Now() == Entered(old(Now()), hash)
      ensures HasHash(rows, hash) && (ingested <==> IsIngested(rows, hash))
    {
      var found := Lookup(hash);
      if found.Some? {
        ingested := rows[found.value].ingested;
        assert rows[found.value] == Row(hash, ingested);
      } else {
        rows := rows[next := Row(hash, false)];
        assert rows[next].hash == hash;
        next := next + 1;
        ingested := false;
      }
    }

    /** `ingest_files`: files already there are reported if ingested; the others get the next numbers. */
    method IngestFiles(files: seq<nat>) returns (completed: seq<nat>)
      requires Valid()
      modifies this
      ensures Valid() && Grown(old(rows), rows, old(next)) && old(next) <= next
      ensures Now() == AllEntered(old(Now()), files)
      ensures completed == Ingested(files, old(rows))
    {
      completed := [];
      GrownNot(rows, next);
      assert AllEntered(Now(), files[..0]) == Now() && Ingested(files[..0], rows) == [];
      hide *;
      for i := 0 to |files|
        invariant Valid() && Grown(old(rows), rows, old(next)) && old(next) <= next
        invariant Now() == AllEntered(old(Now()), files[..i])
        invariant completed == Ingested(files[..i], old(rows))
      {
        var hash := files[i];
        OneMore(old(Now()), files, i);
        ghost var before, start := rows, next;
        var ingested := IngestOne(hash);
        GrownMore(old(rows), before, rows, old(next), start);
        GrownHashes(old(rows), rows, old(next));
        if ingested {
          completed := completed + [hash];
        }
      }
      assert files[..|files|] == files;
    }

    /** `get_ingest_batch`: the waiting rows with the lowest numbers, up to a limit. */
    method GetIngestBatch(limit: nat) returns (batch: seq<(nat, nat)>)
      requires Valid()
      ensures LowestWaiting(rows, batch) && |batch| <= limit
      ensures |batch| < limit ==> forall n :: Waiting(rows, n) ==> n in Numbers(batch)
    {
      batch := [];
      var left := set n | n in rows && !rows[n].ingested;
      while |batch| < limit && left != {}
        invariant |batch| <= limit && LowestWaiting(rows, batch)
        invariant forall n :: n in left <==> Waiting(rows, n) && n !in Numbers(batch)
        decreases |left|
      {
        var n := Lowest(left);
        BatchGrows(rows, batch, n);
        hide LowestWaiting; hide Numbers;
        batch := batch + [(n, rows[n].hash)];
        left := left - {n};
      }
    }

    /** `finished_ingest`: marks the rows of a batch that are still there. */
    method FinishedIngest(batch: seq<(nat, nat)>)
      requires Valid()
      modifies this`rows
      ensures Valid() && rows == Marked(old(rows), Numbers(batch))
    {
      ghost var before := rows;
      assert rows == Marked(before, Numbers(batch[..0]));
      for i := 0 to |batch|
        invariant Valid() && rows == Marked(before, Numbers(batch[..i]))
      {
        var number := batch[i].0;
        NumbersSnoc(batch[..i], batch[i]);
        assert batch[..i + 1] == batch[..i] + [batch[i]];
        if number in rows {
          rows := rows[number := rows[number].(ingested := true)];
        }
      }
      assert batch[..|batch|] == batch;
    }

    /** `abandon_file`. */
    method AbandonFile(hash: nat)
      requires Valid()
      modifies this`rows
      ensures Valid() && rows == map n | n in old(rows) && old(rows)[n].hash != hash :: old(rows)[n]
    {
      rows := map n | n in rows && rows[n].hash != hash :: rows[n];
    }
  }

  ghost predicate HasHash(rows: Table, hash: nat) {
    exists n :: n in rows && rows[n].hash == hash
  }

  ghost predicate IsIngested(rows: Table, hash: nat) {
    exists n :: n in rows && rows[n] == Row(hash, true)
  }

  /** The old rows are there as they were, and the new ones are waiting under new numbers. */
  ghost predicate Grown(before: Table, rows: Table, next: nat) {
    && (forall n :: n in before ==> n in rows && rows[n] == before[n])
    && (forall n :: n in rows && n !in before ==> next <= n && !rows[n].ingested)
  }

  lemma GrownNot(rows: Table, next: nat)
    ensures Grown(rows, rows, next)
  {
  }

  lemma GrownMore(a: Table, b: Table, c: Table, next: nat, later: nat)
    requires Grown(a, b, next) && Grown(b, c, later) && next <= later
    ensures Grown(a, c, next)
  {
  }

  lemma GrownHashes(before: Table, rows: Table, next: nat)
    requires Grown(before, rows, next)
    ensures forall h :: HasHash(before, h) ==> HasHash(rows, h)
    ensures forall h :: IsIngested(rows, h) <==> IsIngested(before, h)
  {
    forall h ensures IsIngested(rows, h) <==> IsIngested(before, h) {
      if n :| n in before && before[n] == Row(h, true) {
        assert rows[n] == Row(h, true);
      }
    }
    forall h | HasHash(before, h) ensures HasHash(rows, h) {
      var n :| n in before && before[n].hash == h;
      assert rows[n].hash == h;
    }
  }

  lemma OneMore(t: Numbered, files: seq<nat>, i: nat)
    requires i < |files|
    ensures AllEntered(t, files[..i + 1]) == Entered(AllEntered(t, files[..i]), files[i])
    ensures Ingested(files[..i + 1], t.rows)
         == Ingested(files[..i], t.rows) + if IsIngested(t.rows, files[i]) then [files[i]] else []
  {
    assert files[..i + 1][..i] == files[..i];
  }

  /** Every file is in the table afterwards, and nothing else is new. */
  lemma {:induction false} EnteredExactly(t: Numbered, files: seq<nat>)
    requires forall n :: n in t.rows ==> n < t.next
    ensures var u := AllEntered(t, files);
            && t.next <= u.next && (forall n :: n in u.rows ==> n < u.next)
            && (forall n :: n in t.rows ==> n in u.rows && u.rows[n] == t.rows[n])
            && (forall n :: t.next <= n < u.next ==> n in u.rows && u.rows[n].hash in files && !u.rows[n].ingested
                                                     && !HasHash(t.rows, u.rows[n].hash))
            && (forall n :: n in u.rows ==> n in t.rows || t.next <= n)
            && (forall h :: h in files ==> HasHash(u.rows, h))
            && (UniqueHashes(t.rows) ==> UniqueHashes(u.rows))
  {
    if files != [] {
      var k := |files| - 1;
      EnteredExactly(t, files[..k]);
      var m, u := AllEntered(t, files[..k]), AllEntered(t, files);
      if HasHash(t.rows, files[k]) {
        var n :| n in t.rows && t.rows[n].hash == files[k];
        assert m.rows[n].hash == files[k];
      }
      if !HasHash(m.rows, files[k]) { assert u.rows[m.next].hash == files[k]; }
      forall h | HasHash(m.rows, h) ensures HasHash(u.rows, h) {
        var n :| n in m.rows && m.rows[n].hash == h;
        assert u.rows[n].hash == h;
      }
    }
  }

  method Lowest(s: set<nat>) returns (m: nat)
    requires s != {}
    ensures m in s && forall n :: n in s ==> m <= n
  {
    m :| m in s;
    var left := s - {m};
    while left != {}
      invariant left <= s && m in s && forall n :: n in s && n !in left ==> m <= n
      decreases |left|
    {
      var n :| n in left;
      if n < m { m := n; }
      left := left - {n};
    }
  }

  lemma NumbersSnoc(batch: seq<(nat, nat)>, one: (nat, nat))
    ensures Numbers(batch + [one]) == Numbers(batch) + {one.0}
  {
    assert (batch + [one])[|batch|] == one;
    forall n | n in Numbers(batch) ensures n in Numbers(batch + [one]) {
      var i :| 0 <= i < |batch| && batch[i].0 == n;
      assert (batch + [one])[i].0 == n;
    }
  }

  lemma BatchGrows(rows: Table, batch: seq<(nat, nat)>, n: nat)
    requires LowestWaiting(rows, batch) && Waiting(rows, n) && n !in Numbers(batch)
    requires forall m :: Waiting(rows, m) && m !in Numbers(batch) ==> n <= m
    ensures LowestWaiting(rows, batch + [(n, rows[n].hash)])
    ensures Numbers(batch + [(n, rows[n].hash)]) == Numbers(batch) + {n}
  {
    NumbersSnoc(batch, (n, rows[n].hash));
    forall i | 0 <= i < |batch| ensures batch[i].0 < n {
      assert batch[i].0 in Numbers(batch);
    }
  }

  function Marked(rows: Table, numbers: set<nat>): Table {
    map n | n in rows :: if n in numbers then rows[n].(ingested := true) else rows[n]
  }
}
