/**
 Sets of trigrams in 256 chunks that each choose their own encoding (`TrigramSet` and `Chunk`,
 src/worker/trigrams.rs).  Through every insert and every change of encoding a chunk stands for
 the same plain set; after `Compact` the trigrams come out ascending and pack into a file.
 */
module TrigramSet {
  import opened Bytes
  import opened Encoding
  import opened Sorting

  /** The values of a 16 bit word. */
  const WORD := 0x1_0000
  type word = x: int | 0 <= x < WORD

  /** `Mask` carries the number of set bits, counted in 16 bits. */
  datatype Chunk =
    | Empty
    | Added(items: seq<word>)
    | Mask(count: word, bits: seq<bool>)
    | Removed(items: seq<word>)

  /** Lists shorter than this are kept as lists. */
  const SPARSE := 0x1000

  predicate Leq(a: word, b: word) { a <= b }

  ghost predicate ValidChunk(c: Chunk) {
    && (c.Mask? ==> |c.bits| == WORD)
    && (c.Removed? ==> StrictlyAscending(c.items))
  }

  /** The plain set that a chunk stands for. */
  ghost predicate Has(c: Chunk, x: word)
    requires ValidChunk(c)
  {
    match c
    case Empty => false
    case Added(items) => x in items
    case Mask(_, bits) => bits[x]
    case Removed(items) => x !in items
  }

  function Ones(bits: seq<bool>): nat {
    if bits == [] then 0 else Ones(bits[..|bits| - 1]) + if bits[|bits| - 1] then 1 else 0
  }

  /**
   The state of a chunk at most `k` inserts after it was compacted: its lists are short and the
   count of its mask is the true number of set bits, so that 16 bits hold it as long as `k` is at
   most 4096.
   */
  ghost predicate Budget(c: Chunk, k: nat) {
    match c
    case Empty => true
    case Added(items) => |items| < SPARSE + k
    case Mask(count, bits) => count == Ones(bits) <= WORD - 1 - SPARSE + k
    case Removed(items) => |items| <= SPARSE
  }

  lemma {:induction false} OnesSet(bits: seq<bool>, i: nat)
    requires i < |bits|
    ensures Ones(bits[i := true]) == Ones(bits) + if bits[i] then 0 else 1
    decreases |bits|
  {
    var n := |bits| - 1;
    if i < n {
      OnesSet(bits[..n], i);
      assert bits[i := true][..n] == bits[..n][i := true];
    } else {
      assert bits[i := true][..n] == bits[..n];
    }
  }

  lemma {:induction false} OnesNone(bits: seq<bool>)
    requires forall i :: 0 <= i < |bits| ==> !bits[i]
    ensures Ones(bits) == 0
  {
    if bits != [] {
      OnesNone(bits[..|bits| - 1]);
    }
  }

  // ---------------------------------------------------------------- insert

  method InsertWord(c: Chunk, item: word) returns (c': Chunk)
    requires ValidChunk(c)
    ensures ValidChunk(c') && forall x: word :: Has(c', x) <==> Has(c, x) || x == item
    ensures forall k: nat :: k < SPARSE && Budget(c, k) ==> Budget(c', k + 1)
  {
    match c
    case Empty =>
      c' := Added([item]);
    case Added(items) =>
      c' := Added(items + [item]);
    case Mask(count, bits) =>
      OnesSet(bits, item);
      c' := Mask(if bits[item] then count else (count + 1) % WORD, bits[item := true]);
    case Removed(items) =>
      for index := 0 to |items|
        invariant forall k :: 0 <= k < index ==> items[k] != item
      {
        if items[index] == item {
          RemoveAt(items, index);
          return Removed(items[..index] + items[index + 1..]);
        }
      }
      c' := c;
  }

  lemma RemoveAt(items: seq<word>, index: nat)
    requires index < |items| && StrictlyAscending(items)
    ensures var left := items[..index] + items[index + 1..];
            StrictlyAscending(left) && forall x: word :: x in left <==> x in items && x != items[index]
  {
    var left := items[..index] + items[index + 1..];
    forall x: word ensures x in left <==> x in items && x != items[index] {
      if x in items && x != items[index] {
        var k :| 0 <= k < |items| && items[k] == x;
        assert left[if k < index then k else k - 1] == x;
      }
    }
  }

  // ---------------------------------------------------------------- compact

  /** Sorting and dropping repeats, on words. */
  method SortWords(items: seq<word>) returns (sorted: seq<word>)
    ensures StrictlyAscending(sorted) && forall x: word :: x in sorted <==> x in items
    ensures |sorted| <= |items|
  {
    sorted := SortDedup(items, Leq);
    SortDedupMembers(items, Leq);
    SortDedupAscending(items, Leq);
  }

  /** The mask of a list of distinct items has as many bits as the list has items. */
  method MaskOf(items: seq<word>) returns (bits: seq<bool>)
    requires StrictlyAscending(items)
    ensures |bits| == WORD && Ones(bits) == |items|
    ensures forall x: word :: bits[x] <==> x in items
  {
    bits := seq(WORD, _ => false);
    OnesNone(bits);
    for i := 0 to |items|
      invariant |bits| == WORD && Ones(bits) == i
      invariant forall x: word :: bits[x] <==> x in items[..i]
    {
      assert items[..i + 1] == items[..i] + [items[i]];
      assert items[i] !in items[..i];
      OnesSet(bits, items[i]);
      bits := bits[items[i] := true];
    }
    assert items[..|items|] == items;
  }

  method Zeros(bits: seq<bool>) returns (items: seq<word>)
    requires |bits| == WORD
    ensures StrictlyAscending(items) && |items| + Ones(bits) == WORD
    ensures forall x: word :: x in items <==> !bits[x]
  {
    items := [];
    for i := 0 to WORD
      invariant |items| + Ones(bits[..i]) == i
      invariant StrictlyAscending(items)
      invariant forall x: word :: x in items <==> x < i && !bits[x]
    {
      assert bits[..i + 1][..i] == bits[..i];
      if !bits[i] {
        assert forall k :: 0 <= k < |items| ==> items[k] in items;
        items := items + [i];
      }
    }
    assert bits[..WORD] == bits;
  }

  /** Chooses the encoding for what the chunk holds. */
  method CompactChunk(c: Chunk) returns (c': Chunk)
    requires ValidChunk(c)
    ensures ValidChunk(c') && forall x: word :: Has(c', x) <==> Has(c, x)
    ensures c'.Added? ==> StrictlyAscending(c'.items)
    ensures forall k: nat :: k <= SPARSE && Budget(c, k) ==> Budget(c', 0)
    decreases if c.Added? then 2 else if c.Mask? then 1 else 0
  {
    match c
    case Empty => c' := c;
    case Added(items) =>
      var sorted := SortWords(items);
      if |sorted| >= SPARSE {
        var bits := MaskOf(sorted);
        assert Ones(bits) <= WORD by { OnesBound(bits); }
        var masked := Mask(|sorted| % WORD, bits);
        assert forall k: nat :: k <= SPARSE && Budget(c, k) ==> Budget(masked, k);
        c' := CompactChunk(masked);
      } else {
        c' := Added(sorted);
      }
    case Mask(count, bits) =>
      if count > WORD - 1 - SPARSE {
        var items := Zeros(bits);
        assert forall k: nat :: Budget(c, k) ==> Budget(Removed(items), 0);
        c' := CompactChunk(Removed(items));
      } else {
        c' := c;
      }
    case Removed(_) => c' := c;
  }

  lemma {:induction false} OnesBound(bits: seq<bool>)
    ensures Ones(bits) <= |bits|
  {
    if bits != [] {
      OnesBound(bits[..|bits| - 1]);
    }
  }

  // ---------------------------------------------------------------- iteration

  /** Steps through all words and the list of unset ones side by side. */
  method SkipRemoved(items: seq<word>) returns (out: seq<word>)
    requires StrictlyAscending(items)
    ensures StrictlyAscending(out) && forall x: word :: x in out <==> x !in items
  {
    out := [];
    var skip := 0;
    for next := 0 to WORD
      invariant skip <= |items| && StrictlyAscending(out)
      invariant forall k :: 0 <= k < skip ==> items[k] < next
      invariant skip < |items| ==> next <= items[skip]
      invariant forall x: word :: x in out <==> x < next && x !in items
    {
      if skip < |items| && next == items[skip] {
        skip := skip + 1;
      } else {
        assert next !in items by {
          assert forall k :: skip < k < |items| ==> items[skip] < items[k];
        }
        assert forall k :: 0 <= k < |out| ==> out[k] in out;
        out := out + [next];
      }
    }
  }

  method SetBits(bits: seq<bool>) returns (out: seq<word>)
    requires |bits| == WORD
    ensures StrictlyAscending(out) && forall x: word :: x in out <==> bits[x]
  {
    out := [];
    for i := 0 to WORD
      invariant StrictlyAscending(out)
      invariant forall x: word :: x in out <==> x < i && bits[x]
    {
      if bits[i] {
        assert forall k :: 0 <= k < |out| ==> out[k] in out;
        out := out + [i];
      }
    }
  }

  /** The members of a chunk, ascending when it has been compacted. */
  method Items(c: Chunk) returns (out: seq<word>)
    requires ValidChunk(c)
    ensures forall x: word :: x in out <==> Has(c, x)
    ensures (c.Added? ==> StrictlyAscending(c.items)) ==> StrictlyAscending(out)
  {
    match c
    case Empty => out := [];
    case Added(items) => out := items;
    case Mask(_, bits) => out := SetBits(bits);
    case Removed(items) => out := SkipRemoved(items);
  }

  // ---------------------------------------------------------------- the whole set

  const CHUNKS := 0x100

  class TrigramSet {
    var chunks: array<Chunk>

    ghost predicate Valid()
      reads this, chunks
    {
      chunks.Length == CHUNKS && forall b :: 0 <= b < CHUNKS ==> ValidChunk(chunks[b])
    }

    /** The plain set of trigrams that the chunks stand for. */
    ghost predicate Contains(trigram: nat)
      requires Valid() && trigram < TRIGRAM_RANGE
      reads this, chunks
    {
      Has(chunks[trigram / WORD], trigram % WORD)
    }

    constructor ()
      ensures Valid() && fresh(chunks) && forall t: nat :: t < TRIGRAM_RANGE ==> !Contains(t)
    {
      chunks := new Chunk[CHUNKS](_ => Empty);
    }

    ghost predicate Compacted()
      reads this, chunks
    {
      Valid() && forall b :: 0 <= b < CHUNKS && chunks[b].Added? ==> StrictlyAscending(chunks[b].items)
    }

    method Insert(item: nat)
      requires Valid() && item < TRIGRAM_RANGE
      modifies chunks
      ensures Valid() && forall t: nat :: t < TRIGRAM_RANGE ==> (Contains(t) <==> old(Contains(t)) || t == item)
      ensures forall b :: 0 <= b < CHUNKS && b != item / WORD ==> chunks[b] == old(chunks[b])
      ensures forall k: nat :: k < SPARSE && old(Budget(chunks[item / WORD], k)) ==> Budget(chunks[item / WORD], k + 1)
    {
      var bin := item / WORD;
      var chunk := InsertWord(chunks[bin], item % WORD);
      chunks[bin] := chunk;
      forall t: nat | t < TRIGRAM_RANGE ensures Contains(t) <==> old(Contains(t)) || t == item {
        assert t == t / WORD * WORD + t % WORD && item == item / WORD * WORD + item % WORD;
      }
    }

    method Compact()
      requires Valid()
      modifies chunks
      ensures Compacted() && forall t: nat :: t < TRIGRAM_RANGE ==> (Contains(t) <==> old(Contains(t)))
      ensures forall b, k: nat :: 0 <= b < CHUNKS && k <= SPARSE && old(Budget(chunks[b], k)) ==> Budget(chunks[b], 0)
    {
      for b := 0 to CHUNKS
        invariant Valid()
        invariant forall i :: b <= i < CHUNKS ==> chunks[i] == old(chunks[i])
        invariant forall i :: 0 <= i < b && chunks[i].Added? ==> StrictlyAscending(chunks[i].items)
        invariant forall i, x: word :: 0 <= i < b ==> (Has(chunks[i], x) <==> old(Has(chunks[i], x)))
        invariant forall i, k: nat :: 0 <= i < b && k <= SPARSE && old(Budget(chunks[i], k)) ==> Budget(chunks[i], 0)
      {
        var chunk := CompactChunk(chunks[b]);
        chunks[b] := chunk;
      }
    }

    /** The trigrams, chunk after chunk; ascending once the set has been compacted. */
    method Iter() returns (out: seq<nat>)
      requires Valid()
      ensures forall t: nat :: t in out <==> t < TRIGRAM_RANGE && Contains(t)
      ensures Compacted() ==> StrictlyAscending(out)
    {
      out := [];
      for b := 0 to CHUNKS
        invariant forall t: nat :: t in out <==> t < b * WORD && Contains(t)
        invariant Compacted() ==> StrictlyAscending(out)
      {
        var items := Items(chunks[b]);
        var part := Shifted(b * WORD, items);
        forall t: nat ensures t in out + part <==> t < (b + 1) * WORD && Contains(t) {
          InChunk(t, b);
        }
        if Compacted() {
          AscendingParts(out, part, b * WORD);
        }
        out := out + part;
      }
    }

    /**
     `into_packed_deltas`: the packed file stands for the set.  Nothing comes of a set whose iteration
     goes down somewhere, where the source subtracts a greater trigram; a compacted set's never does.
     */
    method IntoPackedDeltas() returns (buffer: Option<seq<byte>>, ghost listed: seq<nat>)
      requires Valid()
      ensures forall t: nat :: t in listed <==> t < TRIGRAM_RANGE && Contains(t)
      ensures buffer.Some? <==> NonDecreasing(listed)
      ensures buffer.Some? ==>
                && StreamFrom(0, buffer.value) == listed
                && forall t: nat :: t in StreamFrom(0, buffer.value) <==> t < TRIGRAM_RANGE && Contains(t)
      ensures Compacted() ==> buffer.Some? && StrictlyAscending(StreamFrom(0, buffer.value))
    {
      var trigrams := Iter();
      listed := trigrams;
      if !NonDecreasing(trigrams) { return None, listed; }
      var packed := EncodeIntoIncreasing(trigrams, []);
      assert [] + Lebs(Deltas(0, trigrams)) == Lebs(Deltas(0, trigrams));
      IncreasingRoundTrip(0, trigrams);
      buffer := Some(packed);
    }
  }

  function Shifted(base: nat, items: seq<word>): (r: seq<nat>)
    ensures |r| == |items| && forall i :: 0 <= i < |items| ==> r[i] == base + items[i]
  {
    seq(|items|, i requires 0 <= i < |items| => base + items[i])
  }

  lemma InChunk(t: nat, b: nat)
    ensures b * WORD <= t < (b + 1) * WORD <==> t / WORD == b
    ensures t == t / WORD * WORD + t % WORD
  {
  }

  lemma AscendingParts(out: seq<nat>, part: seq<nat>, bound: nat)
    requires StrictlyAscending(out) && StrictlyAscending(part)
    requires forall t :: t in out ==> t < bound
    requires forall t :: t in part ==> bound <= t
    ensures StrictlyAscending(out + part)
  {
    assert forall k :: 0 <= k < |out| ==> out[k] in out;
    assert forall k :: 0 <= k < |part| ==> part[k] in part;
  }
}
