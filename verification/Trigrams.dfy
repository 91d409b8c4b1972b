/**
 From the bytes of a file to its packed trigrams (`build_file`, src/worker/trigrams.rs).  The
 bytes come in chunks; however they are cut, the packed file lists exactly their trigrams.
 */
module Trigrams {
  import opened Bytes
  import opened Encoding

  /** Three bytes as a 24 bit number. */
  function Pack(a: byte, b: byte, c: byte): (t: nat)
    ensures t < TRIGRAM_RANGE
  {
    (a as nat) * 0x1_0000 + (b as nat) * 0x100 + c
  }

  function TrigramAt(s: seq<byte>, i: nat): nat
    requires i + 3 <= |s|
  {
    Pack(s[i], s[i + 1], s[i + 2])
  }

  /** The content has this trigram somewhere. */
  ghost predicate HasTrigram(content: seq<byte>, t: nat) {
    exists i: nat :: i + 3 <= |content| && TrigramAt(content, i) == t
  }

  /** The rolling 24 bit window: what is left of it when the next byte has been shifted in. */
  function Roll(trigram: nat, c: byte): nat {
    trigram % 0x1_0000 * 0x100 + c
  }

  function Pair(a: byte, b: byte): nat {
    (a as nat) * 0x100 + b
  }

  lemma RollPacks(trigram: nat, a: byte, b: byte, c: byte)
    requires trigram % 0x1_0000 == Pair(a, b)
    ensures Roll(trigram, c) == Pack(a, b, c) && Roll(trigram, c) % 0x1_0000 == Pair(b, c)
  {
    LowPart(a as nat, Pair(b, c));
  }

  lemma LowPart(high: nat, low: nat)
    requires low < 0x1_0000
    ensures (high * 0x1_0000 + low) % 0x1_0000 == low
  {
  }

  lemma HasTrigramSnoc(content: seq<byte>, c: byte, t: nat)
    ensures HasTrigram(content + [c], t)
       <==> HasTrigram(content, t) || (|content| >= 2 && Pack(content[|content| - 2], content[|content| - 1], c) == t)
  {
    var longer := content + [c];
    if i: nat :| i + 3 <= |content| && TrigramAt(content, i) == t {
      assert TrigramAt(longer, i) == t;
    }
    if |content| >= 2 {
      assert TrigramAt(longer, |content| - 2) == Pack(content[|content| - 2], content[|content| - 1], c);
    }
    if i: nat :| i + 3 <= |longer| && TrigramAt(longer, i) == t {
      if i + 3 <= |content| { assert TrigramAt(content, i) == t; }
    }
  }

  // ---------------------------------------------------------------- chunks

  /** A chunk as received, or the error that came in its place. */
  datatype Chunk = Data(bytes: seq<byte>) | Failed

  /** All the bytes of the chunks, one after the other. */
  function Joined(chunks: seq<Chunk>): seq<byte> {
    if chunks == [] then [] else Joined(chunks[..|chunks| - 1]) + BytesOf(chunks[|chunks| - 1])
  }

  function BytesOf(chunk: Chunk): seq<byte> {
    if chunk.Data? then chunk.bytes else []
  }

  /** An empty chunk ends the reading once more than two bytes are held. */
  predicate StopsAt(chunks: seq<Chunk>, k: nat)
    requires k < |chunks|
  {
    chunks[k] == Data([]) && |Joined(chunks[..k])| > 2
  }

  /** The reading takes in the first `k` chunks: each is data, and none of them ends it. */
  predicate ReadsUpTo(chunks: seq<Chunk>, k: nat)
    requires k <= |chunks|
  {
    forall j :: 0 <= j < k ==> chunks[j].Data? && !StopsAt(chunks, j)
  }

  /** The reading comes upon an error. */
  ghost predicate Breaks(chunks: seq<Chunk>) {
    exists k :: 0 <= k < |chunks| && chunks[k].Failed? && ReadsUpTo(chunks, k)
  }

  /** The reading comes to an end after the first `k` chunks. */
  predicate EndsAfter(chunks: seq<Chunk>, k: nat) {
    k <= |chunks| && ReadsUpTo(chunks, k) && (k < |chunks| ==> StopsAt(chunks, k))
  }

  lemma NotPast(chunks: seq<Chunk>, k: nat, j: nat)
    requires EndsAfter(chunks, k) && j <= |chunks| && ReadsUpTo(chunks, j)
    ensures j <= k
  {
  }

  /** A reading that ends does so in one place, and comes upon no error. */
  lemma EndsOnce(chunks: seq<Chunk>, k: nat)
    requires EndsAfter(chunks, k)
    ensures !Breaks(chunks) && forall j: nat :: EndsAfter(chunks, j) ==> j == k
  {
    forall j: nat | j <= |chunks| && ReadsUpTo(chunks, j) ensures j <= k { NotPast(chunks, k, j); }
    forall j: nat | EndsAfter(chunks, j) ensures k <= j { NotPast(chunks, j, k); }
  }

  /** An error after nothing but chunks with bytes breaks the reading, and only one after nothing but data does. */
  lemma BreaksPlainly(chunks: seq<Chunk>, k: nat)
    requires k < |chunks| && chunks[k].Failed?
    ensures (forall j :: 0 <= j < k ==> chunks[j].Data? && chunks[j].bytes != []) ==> Breaks(chunks)
    ensures (forall j :: 0 <= j < k ==> chunks[j].Data?) ==>
              (Breaks(chunks) <==> forall j :: 0 <= j < k ==> !StopsAt(chunks, j))
    ensures Breaks(chunks) ==>
              exists i :: 0 <= i <= k && chunks[i].Failed? && forall j :: 0 <= j < i ==> chunks[j].Data?
  {
    if i :| 0 <= i < |chunks| && chunks[i].Failed? && ReadsUpTo(chunks, i) {
      assert i <= k;
    }
    assert (forall j :: 0 <= j < k ==> chunks[j].Data? && chunks[j].bytes != []) ==> ReadsUpTo(chunks, k);
  }

  lemma ReadNone(chunks: seq<Chunk>)
    ensures ReadsUpTo(chunks, 0) && Joined(chunks[..0]) == []
  {
  }

  /** Where the reading goes on, ends and breaks. */
  lemma ReadOne(chunks: seq<Chunk>, k: nat)
    requires k <= |chunks| && ReadsUpTo(chunks, k)
    ensures k == |chunks| ==> EndsAfter(chunks, k)
    ensures k < |chunks| && chunks[k].Failed? ==> Breaks(chunks)
    ensures k < |chunks| && chunks[k].Data? && chunks[k].bytes == [] && |Joined(chunks[..k])| > 2 ==>
              EndsAfter(chunks, k)
    ensures k < |chunks| && chunks[k].Data? && (chunks[k].bytes != [] || |Joined(chunks[..k])| <= 2) ==>
              ReadsUpTo(chunks, k + 1) && Joined(chunks[..k + 1]) == Joined(chunks[..k]) + chunks[k].bytes
  {
    if k < |chunks| {
      assert chunks[..k + 1][..k] == chunks[..k];
    }
  }

  // ---------------------------------------------------------------- the mask

  ghost predicate MaskOf(mask: array<bool>, content: seq<byte>)
    reads mask
  {
    mask.Length == TRIGRAM_RANGE && forall t: nat :: t < TRIGRAM_RANGE ==> (mask[t] <==> HasTrigram(content, t))
  }

  /** The window ends in the last two bytes seen. */
  predicate Rolled(trigram: nat, content: seq<byte>)
    requires |content| >= 2
  {
    trigram % 0x1_0000 == Pair(content[|content| - 2], content[|content| - 1])
  }

  /** Rolls the window over the rest of a buffer and marks what passes through it. */
  method Mark(mask: array<bool>, start: nat, buffer: seq<byte>, from: nat, ghost content: seq<byte>)
    returns (trigram: nat)
    requires from <= |buffer| && MaskOf(mask, content)
    requires |content| >= 2 && Rolled(start, content)
    modifies mask
    ensures MaskOf(mask, content + buffer[from..])
    ensures Rolled(trigram, content + buffer[from..])
  {
    trigram := start;
    ghost var seen := content;
    assert content + buffer[from..from] == content;
    for k := from to |buffer|
      invariant seen == content + buffer[from..k]
      invariant MaskOf(mask, seen)
      invariant Rolled(trigram, seen)
    {
      ghost var n := |seen|;
      RollPacks(trigram, seen[n - 2], seen[n - 1], buffer[k]);
      trigram := Roll(trigram, buffer[k]);
      forall t: nat
        ensures HasTrigram(seen + [buffer[k]], t) <==> HasTrigram(seen, t) || t == trigram
      {
        HasTrigramSnoc(seen, buffer[k], t);
      }
      mask[trigram] := true;
      assert buffer[from..k + 1] == buffer[from..k] + [buffer[k]];
      seen := seen + [buffer[k]];
    }
    assert buffer[from..|buffer|] == buffer[from..];
  }

  /** Packs the marked trigrams in ascending order. */
  method PackMask(mask: array<bool>, ghost content: seq<byte>) returns (deltas: seq<byte>)
    requires MaskOf(mask, content)
    ensures PackedTrigrams(deltas, content)
  {
    var output := new StreamEncode();
    for t := 0 to mask.Length
      invariant fresh(output) && output.Valid() && MaskOf(mask, content)
      invariant StrictlyAscending(output.Added)
      invariant forall u: nat :: u in output.Added <==> u < t && HasTrigram(content, u)
      invariant output.lastValue <= t
      invariant forall k :: 0 <= k < |output.Added| ==> output.Added[k] < t
    {
      if mask[t] {
        output.Add(t);
      }
    }
    deltas := output.Finish();
    assert forall u: nat :: HasTrigram(content, u) ==> u < TRIGRAM_RANGE;
  }

  /** The packed file stands for exactly the trigrams of the content, each once, in ascending order. */
  ghost predicate PackedTrigrams(deltas: seq<byte>, content: seq<byte>) {
    var trigrams := StreamFrom(0, deltas);
    && StrictlyAscending(trigrams)
    && (forall t :: t in trigrams ==> t < TRIGRAM_RANGE)
    && (forall t: nat :: t in trigrams <==> HasTrigram(content, t))
  }

  /** The packed file lists the trigrams of what was read up to where the reading ended. */
  ghost predicate FileOf(deltas: seq<byte>, chunks: seq<Chunk>) {
    exists k: nat :: EndsAfter(chunks, k) && PackedTrigrams(deltas, Joined(chunks[..k]))
  }

  lemma ShortFile(content: seq<byte>)
    requires |content| <= 2
    ensures PackedTrigrams([], content) && forall t: nat :: !HasTrigram(content, t)
  {
    assert StreamFrom(0, []) == [];
  }

  /** Marks the trigrams of the first block, which is to hold at least one. */
  method MarkFirst(buffer: seq<byte>) returns (mask: array<bool>, trigram: nat)
    requires |buffer| > 2
    ensures fresh(mask) && MaskOf(mask, buffer)
    ensures Rolled(trigram, buffer)
  {
    mask := new bool[TRIGRAM_RANGE](_ => false);
    trigram := Pair(buffer[0], buffer[1]);
    ShortFile(buffer[..2]);
    assert trigram % 0x1_0000 == trigram;
    assert buffer[..2] + buffer[2..] == buffer;
    hide HasTrigram;
    trigram := Mark(mask, trigram, buffer, 2, buffer[..2]);
  }

  /** `build_file`: nothing is returned when the reading breaks; without empty chunks all the bytes are read. */
  method BuildFile(chunks: seq<Chunk>) returns (file: Option<seq<byte>>)
    ensures file.None? <==> Breaks(chunks)
    ensures file.Some? ==> FileOf(file.value, chunks)
    ensures file.Some? && (forall i :: 0 <= i < |chunks| ==> chunks[i] != Data([])) ==>
              PackedTrigrams(file.value, Joined(chunks))
  {
    var k := 0;
    var buffer: seq<byte> := [];
    ReadNone(chunks);
    hide *;
    while |buffer| <= 2
      invariant k <= |chunks| && ReadsUpTo(chunks, k) && buffer == Joined(chunks[..k])
      decreases |chunks| - k
    {
      ReadOne(chunks, k);
      if k == |chunks| {
        ShortFile(buffer);
        Conclude([], chunks, k);
        return Some([]);
      }
      var received := chunks[k];
      if received.Failed? { return None; }
      buffer, k := buffer + received.bytes, k + 1;
    }
    var mask, trigram := MarkFirst(buffer);
    ghost var content := buffer;
    var finished := false;
    while !finished
      invariant k <= |chunks| && ReadsUpTo(chunks, k) && content == Joined(chunks[..k])
      invariant fresh(mask) && |content| > 2 && MaskOf(mask, content)
      invariant Rolled(trigram, content)
      invariant finished ==> EndsAfter(chunks, k)
      decreases |chunks| - k, !finished
    {
      ReadOne(chunks, k);
      if k == |chunks| {
        finished := true;
      } else {
        var received := chunks[k];
        if received.Failed? { return None; }
        buffer := received.bytes;
        if buffer == [] {
          finished := true;
        } else {
          trigram := Mark(mask, trigram, buffer, 0, content);
          assert buffer[0..] == buffer;
          k, content := k + 1, content + buffer;
        }
      }
    }
    var deltas := PackMask(mask, content);
    Conclude(deltas, chunks, k);
    file := Some(deltas);
  }

  lemma Conclude(deltas: seq<byte>, chunks: seq<Chunk>, k: nat)
    requires EndsAfter(chunks, k) && PackedTrigrams(deltas, Joined(chunks[..k]))
    ensures !Breaks(chunks) && FileOf(deltas, chunks)
    ensures (forall i :: 0 <= i < |chunks| ==> chunks[i] != Data([])) ==> PackedTrigrams(deltas, Joined(chunks))
  {
    EndsOnce(chunks, k);
    hide PackedTrigrams; hide Joined; hide Breaks;
    assert chunks[..|chunks|] == chunks;
  }
}
