/**
 The k-way merge that turns "file to trigrams" into "trigram to files"
 (`IdCollector`, src/worker/journal.rs).
 */
module Collector {
  import opened Bytes
  import opened Encoding

  /** A file number and the trigrams its packed deltas stand for, in non-decreasing order. */
  datatype FileTrigrams = FileTrigrams(id: nat, trigrams: seq<nat>)

  /** The ids of the files that hold a trigram, in the order of the files. */
  function Holders(files: seq<FileTrigrams>, t: nat): seq<nat> {
    if files == [] then []
    else
      var last := files[|files| - 1];
      Holders(files[..|files| - 1], t) + if t in last.trigrams then [last.id] else []
  }

  ghost predicate DistinctIds(files: seq<FileTrigrams>) {
    forall i, j :: 0 <= i < j < |files| ==> files[i].id != files[j].id
  }

  ghost predicate ProperTrigrams(files: seq<FileTrigrams>) {
    forall i :: 0 <= i < |files| ==>
      NonDecreasing(files[i].trigrams) && forall t :: t in files[i].trigrams ==> t < TRIGRAM_RANGE
  }

  lemma {:induction false} HoldersCongruent(a: seq<FileTrigrams>, b: seq<FileTrigrams>, t: nat)
    requires |a| == |b|
    requires forall i :: 0 <= i < |a| ==> a[i].id == b[i].id && (t in a[i].trigrams <==> t in b[i].trigrams)
    ensures Holders(a, t) == Holders(b, t)
  {
    if a != [] {
      HoldersCongruent(a[..|a| - 1], b[..|b| - 1], t);
    }
  }

  lemma {:induction false} HoldersEmpty(files: seq<FileTrigrams>, t: nat)
    ensures Holders(files, t) == [] <==> forall i :: 0 <= i < |files| ==> t !in files[i].trigrams
  {
    if files != [] {
      HoldersEmpty(files[..|files| - 1], t);
      var last := files[|files| - 1];
      assert forall i :: 0 <= i < |files| - 1 ==> files[i] == files[..|files| - 1][i];
    }
  }

  lemma {:induction false} HoldersAreFiles(files: seq<FileTrigrams>, t: nat, id: nat)
    ensures id in Holders(files, t) <==> exists i :: 0 <= i < |files| && files[i].id == id && t in files[i].trigrams
  {
    if files != [] {
      var init, n := files[..|files| - 1], |files| - 1;
      HoldersAreFiles(init, t, id);
      assert forall i :: 0 <= i < n ==> init[i] == files[i];
      if t in files[n].trigrams && files[n].id == id {
        assert files[n].id == id && t in files[n].trigrams;
      }
    }
  }

  /** The holders of a trigram come in the order of the files. */
  lemma {:induction false} HoldersDescend(files: seq<FileTrigrams>, t: nat)
    requires forall i, j :: 0 <= i < j < |files| ==> files[i].id > files[j].id
    ensures StrictlyDescending(Holders(files, t))
  {
    if files != [] {
      var init, last := files[..|files| - 1], files[|files| - 1];
      HoldersDescend(init, t);
      var ids := Holders(init, t);
      forall k | 0 <= k < |ids| ensures ids[k] > last.id {
        HoldersAreFiles(init, t, ids[k]);
        assert ids[k] in ids;
      }
    }
  }

  /** A file still being read: its number and the iterator over its packed trigrams. */
  datatype Input = Input(id: nat, stream: StreamDecode)

  function Retain(inputs: seq<Input>, remove: seq<nat>): seq<Input> {
    if inputs == [] then []
    else
      var last := inputs[|inputs| - 1];
      Retain(inputs[..|inputs| - 1], remove) + if last.id in remove then [] else [last]
  }

  function RetainFiles(files: seq<FileTrigrams>, remove: seq<nat>): seq<FileTrigrams> {
    if files == [] then []
    else
      var last := files[|files| - 1];
      RetainFiles(files[..|files| - 1], remove) + if last.id in remove then [] else [last]
  }

  lemma {:induction false} RetainAligned(inputs: seq<Input>, files: seq<FileTrigrams>, remove: seq<nat>)
    requires |inputs| == |files|
    requires forall i :: 0 <= i < |inputs| ==>
               inputs[i].id == files[i].id && inputs[i].stream.Rest() == files[i].trigrams
    ensures var i', f' := Retain(inputs, remove), RetainFiles(files, remove);
            |i'| == |f'| && forall i :: 0 <= i < |i'| ==> i'[i].id == f'[i].id && i'[i].stream.Rest() == f'[i].trigrams
  {
    if inputs != [] {
      RetainAligned(inputs[..|inputs| - 1], files[..|files| - 1], remove);
    }
  }

  lemma {:induction false} RetainIsSubset(inputs: seq<Input>, remove: seq<nat>, k: nat)
    requires k < |Retain(inputs, remove)|
    ensures exists j :: 0 <= j < |inputs| && inputs[j] == Retain(inputs, remove)[k]
  {
    var n := |inputs| - 1;
    if k < |Retain(inputs[..n], remove)| {
      RetainIsSubset(inputs[..n], remove, k);
      var j :| 0 <= j < |inputs[..n]| && inputs[..n][j] == Retain(inputs[..n], remove)[k];
      assert inputs[j] == Retain(inputs, remove)[k];
    } else {
      assert inputs[n] == Retain(inputs, remove)[k];
    }
  }

  lemma {:induction false} RetainDistinctStreams(inputs: seq<Input>, remove: seq<nat>)
    requires forall i, j :: 0 <= i < j < |inputs| ==> inputs[i].stream != inputs[j].stream
    ensures var i' := Retain(inputs, remove);
            forall i, j :: 0 <= i < j < |i'| ==> i'[i].stream != i'[j].stream
  {
    if inputs != [] {
      var n := |inputs| - 1;
      RetainDistinctStreams(inputs[..n], remove);
      var i' := Retain(inputs[..n], remove);
      var all := Retain(inputs, remove);
      forall i, j | 0 <= i < j < |all| ensures all[i].stream != all[j].stream {
        assert all[i] == i'[i];
        RetainIsSubset(inputs[..n], remove, i);
        if j < |i'| {
          assert all[j] == i'[j];
        } else {
          assert all[j] == inputs[n];
        }
      }
    }
  }

  lemma {:induction false} RetainDistinctIds(files: seq<FileTrigrams>, remove: seq<nat>)
    requires DistinctIds(files)
    ensures DistinctIds(RetainFiles(files, remove))
    ensures forall x :: x in RetainFiles(files, remove) ==> x in files
  {
    if files != [] {
      var n := |files| - 1;
      RetainDistinctIds(files[..n], remove);
      var f' := RetainFiles(files[..n], remove);
      forall k | 0 <= k < |f'| ensures f'[k].id != files[n].id {
        assert f'[k] in f';
      }
    }
  }

  lemma {:induction false} RetainKeepsHolders(files: seq<FileTrigrams>, remove: seq<nat>, t: nat)
    requires forall i :: 0 <= i < |files| ==> files[i].id in remove ==> t !in files[i].trigrams
    ensures Holders(RetainFiles(files, remove), t) == Holders(files, t)
  {
    if files != [] {
      var init, last := files[..|files| - 1], files[|files| - 1];
      RetainKeepsHolders(init, remove, t);
      var kept := RetainFiles(init, remove);
      assert (kept + [last])[..|kept|] == kept;
      assert kept + [] == kept;
    }
  }

  class IdCollector {
    var acceptable: nat
    var iterators: seq<Input>
    /** What the iterators still hold. */
    ghost var pending: seq<FileTrigrams>
    /** What they held at first. */
    ghost const Files: seq<FileTrigrams>
    ghost const Repr: set<object>

    /** The iterators are separate objects that hold what `pending` says. */
    ghost predicate Linked()
      reads this, Repr
    {
      && this in Repr && |iterators| == |pending|
      && (forall i :: 0 <= i < |iterators| ==> iterators[i].stream in Repr && iterators[i].stream as object != this)
      && (forall i, j :: 0 <= i < j < |iterators| ==> iterators[i].stream != iterators[j].stream)
      && (forall i :: 0 <= i < |iterators| ==>
            iterators[i].id == pending[i].id && iterators[i].stream.Rest() == pending[i].trigrams)
    }

    ghost predicate Valid()
      reads this, Repr
    {
      Linked() && Represents(pending, Files, acceptable)
    }

    constructor (inputs: seq<Input>, ghost files: seq<FileTrigrams>)
      requires |inputs| == |files| && DistinctIds(files) && ProperTrigrams(files)
      requires forall i :: 0 <= i < |inputs| ==>
                 inputs[i].id == files[i].id && inputs[i].stream.Rest() == files[i].trigrams
      requires forall i, j :: 0 <= i < j < |inputs| ==> inputs[i].stream != inputs[j].stream
      ensures Valid() && acceptable == 0 && Files == files
      ensures Repr == {this} + set i | 0 <= i < |inputs| :: inputs[i].stream
    {
      acceptable, iterators, pending := 0, inputs, files;
      Files := files;
      Repr := {this} + set i | 0 <= i < |inputs| :: inputs[i].stream;
    }

    /**
     The next trigram that any file holds, with the ids of all the files that hold it; nothing
     once every file is exhausted.
     */
    method Next(hits: seq<nat>) returns (trigram: Option<nat>, ids: seq<nat>)
      requires Valid()
      modifies Repr
      ensures Valid() && (trigram.Some? ==> acceptable == trigram.value + 1)
      ensures Upcoming(Files, old(acceptable), trigram, ids)
    {
      var selected, remove;
      selected, ids, remove := Scan(hits);
      ghost var before := pending;
      forall k | 0 <= k < |pending| && pending[k].id in remove ensures pending[k].trigrams == [] {
        var j :| 0 <= j < |pending| && pending[j].id == pending[k].id && pending[j].trigrams == [];
        assert j == k;
      }
      DropExhausted(remove);

      forall u | old(acceptable) <= u && (selected == 0xFFFF_FFFF || u < selected)
        ensures Holders(Files, u) == []
      {
        NoneBelow(before, u, selected);
        assert Holders(before, u) == Holders(Files, u);
      }
      if selected == 0xFFFF_FFFF {
        return None, ids;
      } else {
        acceptable := selected + 1;
        return Some(selected), ids;
      }
    }

    /** One pass over the iterators: the least acceptable value, its holders, and the exhausted files. */
    method Scan(hits: seq<nat>) returns (selected: nat, ids: seq<nat>, remove: seq<nat>)
      requires Valid()
      modifies Repr
      ensures Valid() && acceptable == old(acceptable)
      ensures Scanned(pending, acceptable, selected, ids, remove)
    {
      hide Scanned;
      selected, ids, remove := 0xFFFF_FFFF, hits, [];
      NothingScanned(acceptable, hits);
      var i := 0;
      while i < |iterators|
        invariant 0 <= i <= |iterators|
        invariant acceptable == old(acceptable) && iterators == old(iterators)
        invariant Valid()
        invariant Scanned(pending[..i], acceptable, selected, ids, remove)
      {
        ghost var before := pending;
        var exhausted := Advance(i);
        ghost var f := pending[i];
        assert pending[..i] == before[..i] && pending[..i + 1] == before[..i] + [f];
        if exhausted {
          ScanExhausted(before[..i], f, acceptable, selected, ids, remove);
          remove := remove + [iterators[i].id];
        } else {
          var value := iterators[i].stream.Peek();
          ScanValue(before[..i], f, acceptable, selected, ids, remove);
          if value.value < selected {
            ids := [iterators[i].id];
            selected := value.value;
          } else if value.value == selected {
            ids := ids + [iterators[i].id];
          }
        }
        i := i + 1;
      }
      assert pending[..i] == pending;
    }

    /** Brings one iterator up to the acceptable values. */
    method Advance(i: nat) returns (exhausted: bool)
      requires Valid() && i < |iterators|
      modifies Repr
      ensures Valid() && acceptable == old(acceptable) && iterators == old(iterators)
      ensures |pending| == |old(pending)| && pending == old(pending)[i := pending[i]]
      ensures pending[i].id == iterators[i].id && ProperTrigrams([pending[i]])
      ensures exhausted <==> iterators[i].stream.Rest() == []
      ensures !exhausted ==> acceptable <= iterators[i].stream.Rest()[0]
    {
      ghost var before := pending;
      exhausted := SkipBelow(iterators[i].stream, acceptable);
      ghost var f := FileTrigrams(before[i].id, iterators[i].stream.Rest());
      pending := before[i := f];
      SkippingKeeps(before, Files, acceptable, i, f);
    }

    method DropExhausted(remove: seq<nat>)
      requires Valid()
      requires forall i :: 0 <= i < |pending| && pending[i].id in remove ==> pending[i].trigrams == []
      modifies this
      ensures Valid() && acceptable == old(acceptable)
    {
      if remove != [] {
        RetainAligned(iterators, pending, remove);
        RetainDistinctStreams(iterators, remove);
        RetainDistinctIds(pending, remove);
        RetainRepresents(pending, Files, acceptable, remove);
        forall i | 0 <= i < |Retain(iterators, remove)|
          ensures Retain(iterators, remove)[i].stream in Repr && Retain(iterators, remove)[i].stream as object != this
        {
          RetainIsSubset(iterators, remove, i);
        }
        iterators := Retain(iterators, remove);
        pending := RetainFiles(pending, remove);
      }
    }
  }

  lemma RetainRepresents(pending: seq<FileTrigrams>, files: seq<FileTrigrams>, acceptable: nat, remove: seq<nat>)
    requires Represents(pending, files, acceptable)
    requires forall i :: 0 <= i < |pending| && pending[i].id in remove ==> pending[i].trigrams == []
    requires DistinctIds(RetainFiles(pending, remove))
    requires forall x :: x in RetainFiles(pending, remove) ==> x in pending
    ensures Represents(RetainFiles(pending, remove), files, acceptable)
  {
    var kept := RetainFiles(pending, remove);
    forall t | acceptable <= t ensures Holders(kept, t) == Holders(files, t) {
      RetainKeepsHolders(pending, remove, t);
    }
    forall i | 0 <= i < |kept|
      ensures NonDecreasing(kept[i].trigrams) && forall t :: t in kept[i].trigrams ==> t < TRIGRAM_RANGE
    {
      assert kept[i] in kept;
      var k :| 0 <= k < |pending| && pending[k] == kept[i];
    }
  }

  /** The files still pending hold, from `acceptable` on, what the original files hold. */
  ghost predicate Represents(pending: seq<FileTrigrams>, files: seq<FileTrigrams>, acceptable: nat) {
    && DistinctIds(pending) && ProperTrigrams(pending)
    && (forall t :: acceptable <= t ==> Holders(pending, t) == Holders(files, t))
  }

  lemma SkippingKeeps(pending: seq<FileTrigrams>, files: seq<FileTrigrams>, acceptable: nat, i: nat, f: FileTrigrams)
    requires Represents(pending, files, acceptable) && i < |pending|
    requires f.id == pending[i].id && NonDecreasing(f.trigrams)
    requires forall t :: t in f.trigrams ==> t in pending[i].trigrams
    requires forall t :: acceptable <= t ==> (t in f.trigrams <==> t in pending[i].trigrams)
    ensures Represents(pending[i := f], files, acceptable)
    ensures ProperTrigrams([f])
  {
    forall t | acceptable <= t ensures Holders(pending[i := f], t) == Holders(files, t) {
      HoldersCongruent(pending[i := f], pending, t);
    }
  }

  /** Drops the values of one iterator that are no longer acceptable. */
  method SkipBelow(stream: StreamDecode, acceptable: nat) returns (exhausted: bool)
    modifies stream
    ensures exhausted <==> stream.Rest() == []
    ensures !exhausted ==> acceptable <= stream.Rest()[0]
    ensures forall t :: t in stream.Rest() ==> t in old(stream.Rest())
    ensures forall t :: acceptable <= t ==> (t in stream.Rest() <==> t in old(stream.Rest()))
  {
    while true
      invariant forall t :: t in stream.Rest() ==> t in old(stream.Rest())
      invariant forall t :: acceptable <= t ==> (t in stream.Rest() <==> t in old(stream.Rest()))
      decreases |stream.Rest()|
    {
      var value := stream.Peek();
      if value.None? { return true; }
      if value.value >= acceptable { return false; }
      ghost var rest := stream.Rest();
      assert rest == [rest[0]] + rest[1..];
      stream.SkipOne();
    }
  }

  /** `trigram` is the least trigram from `from` on that any file holds, and `ids` are all its holders. */
  ghost predicate Upcoming(files: seq<FileTrigrams>, from: nat, trigram: Option<nat>, ids: seq<nat>) {
    match trigram
    case None => forall t :: from <= t ==> Holders(files, t) == []
    case Some(t) =>
      && from <= t < TRIGRAM_RANGE
      && ids == Holders(files, t) != []
      && (forall u :: from <= u < t ==> Holders(files, u) == [])
  }

  /** The state of one round over the files looked at so far. */
  ghost predicate Scanned(files: seq<FileTrigrams>, acceptable: nat, selected: nat, ids: seq<nat>, remove: seq<nat>) {
    && ProperTrigrams(files)
    && (forall k :: 0 <= k < |files| && files[k].trigrams != [] ==>
          acceptable <= files[k].trigrams[0] && selected <= files[k].trigrams[0])
    && (forall id :: id in remove <==> exists k :: 0 <= k < |files| && files[k].id == id && files[k].trigrams == [])
    && (if selected == 0xFFFF_FFFF then forall k :: 0 <= k < |files| ==> files[k].trigrams == []
        else acceptable <= selected < TRIGRAM_RANGE && ids == Holders(files, selected) != [])
  }

  lemma NothingScanned(acceptable: nat, ids: seq<nat>)
    ensures Scanned([], acceptable, 0xFFFF_FFFF, ids, [])
  {
  }

  lemma HoldersSnoc(files: seq<FileTrigrams>, f: FileTrigrams, t: nat)
    ensures Holders(files + [f], t) == Holders(files, t) + if t in f.trigrams then [f.id] else []
  {
    assert (files + [f])[..|files|] == files;
  }

  lemma ScanExhausted(files: seq<FileTrigrams>, f: FileTrigrams, acceptable: nat, selected: nat, ids: seq<nat>,
                      remove: seq<nat>)
    requires Scanned(files, acceptable, selected, ids, remove) && f.trigrams == []
    ensures Scanned(files + [f], acceptable, selected, ids, remove + [f.id])
  {
    var all := files + [f];
    HoldersSnoc(files, f, selected);
    assert Holders(files, selected) + [] == Holders(files, selected);
    forall id
      ensures id in remove + [f.id] <==> exists k :: 0 <= k < |all| && all[k].id == id && all[k].trigrams == []
    {
      if id in remove {
        var k :| 0 <= k < |files| && files[k].id == id && files[k].trigrams == [];
        assert all[k].id == id && all[k].trigrams == [];
      }
      assert all[|files|].id == f.id && all[|files|].trigrams == [];
    }
  }

  lemma ScanValue(files: seq<FileTrigrams>, f: FileTrigrams, acceptable: nat, selected: nat, ids: seq<nat>,
                  remove: seq<nat>)
    requires Scanned(files, acceptable, selected, ids, remove) && ProperTrigrams([f])
    requires f.trigrams != [] && acceptable <= f.trigrams[0]
    ensures var v := f.trigrams[0];
            if v < selected then Scanned(files + [f], acceptable, v, [f.id], remove)
            else if v == selected then Scanned(files + [f], acceptable, v, ids + [f.id], remove)
            else Scanned(files + [f], acceptable, selected, ids, remove)
  {
    hide Holders;
    var all, v := files + [f], f.trigrams[0];
    assert [f][0] == f;
    assert v in f.trigrams;
    HoldersSnoc(files, f, v);
    HoldersSnoc(files, f, selected);
    if v < selected {
      NoneBelow(files, v, selected);
    } else if v > selected {
      assert selected !in f.trigrams;
      assert Holders(files, selected) + [] == Holders(files, selected);
    }
    RemoveUnchanged(files, f, remove);
  }

  lemma RemoveUnchanged(files: seq<FileTrigrams>, f: FileTrigrams, remove: seq<nat>)
    requires forall id :: id in remove <==> exists k :: 0 <= k < |files| && files[k].id == id && files[k].trigrams == []
    requires f.trigrams != []
    ensures var all := files + [f];
            forall id :: id in remove <==> exists k :: 0 <= k < |all| && all[k].id == id && all[k].trigrams == []
  {
    var all := files + [f];
    forall id ensures id in remove <==> exists k :: 0 <= k < |all| && all[k].id == id && all[k].trigrams == [] {
      if id in remove {
        var k :| 0 <= k < |files| && files[k].id == id && files[k].trigrams == [];
        assert all[k].id == id && all[k].trigrams == [];
      }
    }
  }

  lemma NoneBelow(files: seq<FileTrigrams>, v: nat, bound: nat)
    requires ProperTrigrams(files)
    requires forall k :: 0 <= k < |files| && files[k].trigrams != [] ==> bound <= files[k].trigrams[0]
    requires v < bound || forall k :: 0 <= k < |files| ==> files[k].trigrams == []
    ensures Holders(files, v) == []
  {
    HoldersEmpty(files, v);
  }

  // ---------------------------------------------------------------- from packed files

  /** A file number and its packed trigrams, as the trigram cache stores them. */
  datatype PackedFile = PackedFile(id: nat, bytes: seq<byte>)
  {
    function Unpack(): FileTrigrams {
      FileTrigrams(id, StreamFrom(0, bytes))
    }
  }

  function UnpackAll(files: seq<PackedFile>): (r: seq<FileTrigrams>)
    ensures |r| == |files| && forall i :: 0 <= i < |files| ==> r[i] == files[i].Unpack()
  {
    seq(|files|, i requires 0 <= i < |files| => files[i].Unpack())
  }

  /** What a caller hands to the merge: distinct file numbers, trigrams within 24 bits. */
  ghost predicate ProperFiles(files: seq<PackedFile>) {
    DistinctIds(UnpackAll(files)) && ProperTrigrams(UnpackAll(files))
  }

  method NewFromVec(files: seq<PackedFile>) returns (collector: IdCollector)
    requires ProperFiles(files)
    ensures collector.Valid() && fresh(collector.Repr)
    ensures collector.acceptable == 0 && collector.Files == UnpackAll(files)
  {
    var inputs: seq<Input> := [];
    for i := 0 to |files|
      invariant |inputs| == i
      invariant forall k :: 0 <= k < i ==> fresh(inputs[k].stream)
      invariant forall k :: 0 <= k < i ==>
                  inputs[k].id == files[k].id && inputs[k].stream.Rest() == files[k].Unpack().trigrams
      invariant forall j, k :: 0 <= j < k < i ==> inputs[j].stream != inputs[k].stream
    {
      var stream := new StreamDecode(files[i].bytes);
      inputs := inputs + [Input(files[i].id, stream)];
    }
    collector := new IdCollector(inputs, UnpackAll(files));
  }

  /** `rows` is the transpose of the files up to (and without) the trigram `bound`. */
  ghost predicate Transposed(files: seq<FileTrigrams>, rows: seq<(nat, seq<nat>)>, bound: nat) {
    && (forall i, j :: 0 <= i < j < |rows| ==> rows[i].0 < rows[j].0)
    && (forall i :: 0 <= i < |rows| ==> rows[i].0 < bound && rows[i].1 == Holders(files, rows[i].0) != [])
    && (forall t: nat :: t < bound && Holders(files, t) != [] ==> HasRow(rows, t))
  }

  ghost predicate HasRow(rows: seq<(nat, seq<nat>)>, t: nat) {
    exists i :: 0 <= i < |rows| && rows[i].0 == t
  }

  lemma HasRowSnoc(rows: seq<(nat, seq<nat>)>, row: (nat, seq<nat>), t: nat)
    requires HasRow(rows, t) || row.0 == t
    ensures HasRow(rows + [row], t)
  {
    var i := if row.0 == t then |rows| else var i :| 0 <= i < |rows| && rows[i].0 == t; i;
    assert (rows + [row])[i].0 == t;
  }

  lemma TransposeStep(files: seq<FileTrigrams>, rows: seq<(nat, seq<nat>)>, from: nat, t: nat, ids: seq<nat>)
    requires Transposed(files, rows, from) && Upcoming(files, from, Some(t), ids)
    ensures Transposed(files, rows + [(t, ids)], t + 1)
  {
    var more := rows + [(t, ids)];
    forall u: nat | u < t + 1 && Holders(files, u) != [] ensures HasRow(more, u) {
      HasRowSnoc(rows, (t, ids), u);
    }
  }

  lemma TransposeEnd(files: seq<FileTrigrams>, rows: seq<(nat, seq<nat>)>, from: nat, ids: seq<nat>)
    requires Transposed(files, rows, from) && Upcoming(files, from, None, ids) && from <= TRIGRAM_RANGE
    ensures Transposed(files, rows, TRIGRAM_RANGE)
  {
  }

  /**
   Run to exhaustion, the collector is the exact transpose: each trigram that some file holds
   comes out once, in increasing order, with the ids of exactly the files that hold it.
   */
  method CollectAll(files: seq<PackedFile>) returns (rows: seq<(nat, seq<nat>)>)
    requires ProperFiles(files)
    ensures Transposed(UnpackAll(files), rows, TRIGRAM_RANGE)
  {
    hide Transposed; hide IdCollector.Valid; hide Holders;
    var collector := NewFromVec(files);
    rows := [];
    ghost var from: nat := 0;
    TransposeStart(UnpackAll(files));
    var trigram, ids := collector.Next([]);
    while trigram.Some?
      invariant collector.Valid() && fresh(collector.Repr) && collector.Files == UnpackAll(files)
      invariant from <= TRIGRAM_RANGE && (trigram.Some? ==> collector.acceptable == trigram.value + 1)
      invariant Upcoming(UnpackAll(files), from, trigram, ids)
      invariant Transposed(UnpackAll(files), rows, from)
      decreases TRIGRAM_RANGE - from, trigram.Some?
    {
      TransposeStep(UnpackAll(files), rows, from, trigram.value, ids);
      rows := rows + [(trigram.value, ids)];
      from := trigram.value + 1;
      trigram, ids := collector.Next(ids);
    }
    TransposeEnd(UnpackAll(files), rows, from, ids);
  }

  lemma TransposeStart(files: seq<FileTrigrams>)
    ensures Transposed(files, [], 0)
  {
  }
}
