/**
 The plain decoder of increasing lists (`decode_into`, src/worker/encoding.rs).  It takes a zero
 byte for the end of the data, so it reads back just the lists in which no difference is zero.
 */
module DecodeInto {
  import opened Bytes
  import opened Encoding

  /** The values found in `data` after `last`, up to a zero byte in first place or a number cut short. */
  function ValuesAfter(last: nat, data: seq<byte>): seq<nat>
    decreases |data|
  {
    if data == [] || data[0] == 0 then []
    else
      match TryLeb(data)
      case None => []
      case Some((v, used)) => [last + v] + ValuesAfter(last + v, data[used..])
  }

  function BytesUsed(data: seq<byte>): (n: nat)
    ensures n <= |data|
    decreases |data|
  {
    if data == [] || data[0] == 0 then 0
    else
      match TryLeb(data)
      case None => 0
      case Some((_, used)) => used + BytesUsed(data[used..])
  }

  /** The same, added to what is there. */
  function Added(values: seq<nat>, last: nat, data: seq<byte>): seq<nat>
    decreases |data|
  {
    if data == [] || data[0] == 0 then values
    else
      match TryLeb(data)
      case None => values
      case Some((v, used)) => Added(values + [last + v], last + v, data[used..])
  }

  lemma {:induction false} AddedIs(values: seq<nat>, last: nat, data: seq<byte>)
    ensures Added(values, last, data) == values + ValuesAfter(last, data)
    decreases |data|
  {
    if data != [] && data[0] != 0 && TryLeb(data).Some? {
      var (v, used) := TryLeb(data).value;
      AddedIs(values + [last + v], last + v, data[used..]);
      Longer(values, last + v, ValuesAfter(last + v, data[used..]));
    }
  }

  lemma Longer(values: seq<nat>, x: nat, more: seq<nat>)
    ensures (values + [x]) + more == values + ([x] + more)
  {
  }

  method DecodeInto(data: seq<byte>, values: seq<nat>) returns (out: seq<nat>, usedBytes: nat)
    ensures out == values + ValuesAfter(0, data) && usedBytes == BytesUsed(data)
  {
    out, usedBytes := values, 0;
    var index := 0;
    var last := 0;
    assert data[0..] == data;
    AddedIs(values, 0, data);
    while index < |data| && data[index] != 0
      invariant index <= |data| && usedBytes == index
      invariant Added(out, last, data[index..]) == Added(values, 0, data)
      invariant usedBytes + BytesUsed(data[index..]) == BytesUsed(data)
      decreases |data| - index
    {
      hide ValuesAfter;
      var found := TryDecodeValue(data[index..]);
      if found.None? { return; }
      var (value, taken) := found.value;
      DropTwice(data, index, taken);
      index := index + taken;
      usedBytes := usedBytes + taken;
      value := value + last;
      out := out + [value];
      last := value;
    }
  }

  lemma DropTwice(data: seq<byte>, i: nat, n: nat)
    requires i + n <= |data|
    ensures data[i..][n..] == data[i + n..]
  {
  }

  /** Exactly the lists that come back: those that climb at every step, from the first on. */
  lemma {:induction false} ReadsBackIff(last: nat, xs: seq<nat>)
    requires Ascends(last, xs)
    ensures ValuesAfter(last, Lebs(Deltas(last, xs))) == xs
       <==> StrictlyAscending(xs) && (xs != [] ==> last < xs[0])
    decreases |xs|
  {
    if xs != [] {
      var x, rest := xs[0], xs[1..];
      AscendsTail(last, xs);
      ReadsBackIff(x, rest);
      FirstRead(last, xs);
      hide *;
      assert xs == [x] + rest;
      Cons(x, rest, ValuesAfter(x, Lebs(Deltas(x, rest))));
    }
  }

  /** The first value of a list is read unless its difference is zero. */
  lemma FirstRead(last: nat, xs: seq<nat>)
    requires Ascends(last, xs) && xs != [] && Ascends(xs[0], xs[1..])
    ensures last <= xs[0]
    ensures ValuesAfter(last, Lebs(Deltas(last, xs)))
         == if last == xs[0] then [] else [xs[0]] + ValuesAfter(xs[0], Lebs(Deltas(xs[0], xs[1..])))
  {
    var x := xs[0];
    var data, more := Lebs(Deltas(last, xs)), Lebs(Deltas(x, xs[1..]));
    assert data == Leb(x - last) + more;
    if last < x {
      LebRoundTrip(x - last, more);
      FirstByte(x - last);
      assert data[|Leb(x - last)|..] == more;
    }
  }

  lemma Cons(x: nat, rest: seq<nat>, other: seq<nat>)
    ensures StrictlyAscending([x] + rest) <==> StrictlyAscending(rest) && (rest != [] ==> x < rest[0])
    ensures [x] + other == [x] + rest <==> other == rest
  {
    var xs := [x] + rest;
    assert xs[1..] == rest && ([x] + other)[1..] == other;
    assert forall i, j :: 0 <= i < j < |rest| ==> rest[i] == xs[i + 1] && rest[j] == xs[j + 1];
    if StrictlyAscending(xs) && rest != [] {
      assert xs[0] < xs[1];
    }
  }

  lemma FirstByte(v: nat)
    requires v > 0
    ensures Leb(v)[0] != 0
  {
  }
}
