/**
 The integer codecs of the index (src/worker/encoding.rs): unsigned LEB128 (section 7.6 of
 DWARF 5), lists of increasing numbers as differences, lists of decreasing numbers as gaps.

 The bit operations of the source are written as arithmetic: masking with 0x7f is `% 128`,
 shifting right by 7 is `/ 128`, or-ing a 7 bit group into place is an addition at a fresh
 power of two.  Numbers are unbounded here; `LebFitsU64` says why that changes nothing for
 the 64 bit values that the source encodes.
 */
module Encoding {
  import opened Bytes

  // ---------------------------------------------------------------- one number

  /** The encoding of one number: seven bits a byte, low group first, high bit set on all but the last. */
  function Leb(v: nat): (bytes: seq<byte>)
    ensures 0 < |bytes|
  {
    if v < 128 then [v] else [128 + v % 128] + Leb(v / 128)
  }

  /** How many values fit in `n` groups. */
  function Capacity(n: nat): nat {
    if n == 0 then 1 else 128 * Capacity(n - 1)
  }

  lemma {:induction false} LebLength(v: nat, n: nat)
    requires 0 < n && v < Capacity(n)
    ensures |Leb(v)| <= n
  {
    if 128 <= v {
      assert n != 1 by { assert Capacity(1) == 128 * Capacity(0); }
      LebLength(v / 128, n - 1);
    }
  }

  /** A 64 bit value takes at most ten bytes, so no decoder shifts by more than 63 and no bit is lost. */
  lemma LebFitsU64(v: nat)
    requires v < 0x1_0000_0000_0000_0000
    ensures |Leb(v)| <= 10
  {
    assert Capacity(5) == 0x8_0000_0000 by { assert Capacity(3) == 0x20_0000; }
    assert Capacity(8) == 0x100_0000_0000_0000 by { assert Capacity(6) == 128 * Capacity(5); }
    assert Capacity(10) == 0x4000 * Capacity(8) by { assert Capacity(9) == 128 * Capacity(8); }
    LebLength(v, 10);
  }

  method EncodeValueInto(value: nat, buffer: seq<byte>) returns (out: seq<byte>)
    ensures out == buffer + Leb(value)
  {
    out := buffer;
    if value == 0 {
      out := out + [0x00];
      return;
    }
    var rest := value;
    while rest > 0
      invariant if rest > 0 then out + Leb(rest) == buffer + Leb(value) else out == buffer + Leb(value)
    {
      var fragment := rest % 128;
      ghost var before, group := out, rest;
      rest := rest / 128;
      if rest > 0 {
        fragment := fragment + 128;
      }
      out := out + [fragment];
      assert rest > 0 ==> out + Leb(rest) == before + Leb(group);
    }
  }

  /** What `try_decode_value` finds: the value and the bytes it used, or nothing for a cut or overlong group. */
  function TryLeb(data: seq<byte>): (r: Option<(nat, nat)>)
    ensures r.Some? ==> 0 < r.value.1 <= |data|
  {
    if data == [] then None
    else if data[0] < 128 then Some((data[0], 1))
    else if |data| == 1 || data[1] == 0 then None
    else
      match TryLeb(data[1..])
      case None => None
      case Some((v, used)) => Some((data[0] - 128 + 128 * v, used + 1))
  }

  /** What `decode_value` finds: a cut or overlong group ends the number early. */
  function DecodeOne(data: seq<byte>): (r: (nat, seq<byte>))
    requires data != []
    ensures |r.1| < |data|
  {
    if data[0] < 128 then (data[0], data[1..])
    else if |data| == 1 || data[1] == 0 then (data[0] - 128, data[1..])
    else var (v, rest) := DecodeOne(data[1..]); (data[0] - 128 + 128 * v, rest)
  }

  /** What `StreamDecode::decode_raw_next` finds: only the end of the data ends the number early. */
  function RawNext(data: seq<byte>): (r: (nat, seq<byte>))
    requires data != []
    ensures |r.1| < |data|
  {
    if data[0] < 128 then (data[0], data[1..])
    else if |data| == 1 then (data[0] - 128, [])
    else var (v, rest) := RawNext(data[1..]); (data[0] - 128 + 128 * v, rest)
  }

  /** `v << n` */
  function Shl(v: nat, n: nat): nat {
    if n == 0 then v else 2 * Shl(v, n - 1)
  }

  /** Shifting a group and what stands above it is shifting each to its own place. */
  lemma {:induction false} ShiftIn(group: nat, v: nat, n: nat)
    ensures Shl(group + 128 * v, n) == Shl(group, n) + Shl(v, n + 7)
  {
    if n == 0 {
      assert Shl(v, 1) == 2 * v;
      assert Shl(v, 2) == 2 * Shl(v, 1);
      assert Shl(v, 3) == 2 * Shl(v, 2);
      assert Shl(v, 4) == 2 * Shl(v, 3);
      assert Shl(v, 5) == 2 * Shl(v, 4);
      assert Shl(v, 6) == 2 * Shl(v, 5);
    } else {
      ShiftIn(group, v, n - 1);
    }
  }

  /** What is found when `low` has been read, in `used` bytes, before the number in `r`. */
  function Extend(low: nat, shift: nat, used: nat, r: Option<(nat, nat)>): Option<(nat, nat)> {
    match r
    case None => None
    case Some((v, more)) => Some((low + Shl(v, shift), used + more))
  }

  lemma ExtendStart(r: Option<(nat, nat)>)
    ensures Extend(0, 0, 0, r) == r
  {
  }

  lemma ExtendStep(low: nat, shift: nat, used: nat, data: seq<byte>)
    requires data != [] && data[0] >= 128
    ensures |data| == 1 || data[1] == 0 ==> Extend(low, shift, used, TryLeb(data)) == None
    ensures |data| > 1 && data[1] != 0 ==>
              Extend(low, shift, used, TryLeb(data))
              == Extend(low + Shl(data[0] % 128, shift), shift + 7, used + 1, TryLeb(data[1..]))
  {
    if |data| > 1 && data[1] != 0 && TryLeb(data[1..]).Some? {
      ShiftIn(data[0] - 128, TryLeb(data[1..]).value.0, shift);
    }
  }

  lemma ExtendEnd(low: nat, shift: nat, used: nat, data: seq<byte>)
    requires data != [] && data[0] < 128
    ensures Extend(low, shift, used, TryLeb(data)) == Some((low + Shl(data[0] % 128, shift), used + 1))
  {
  }

  method TryDecodeValue(input: seq<byte>) returns (r: Option<(nat, nat)>)
    ensures r == TryLeb(input)
  {
    if input == [] { return None; }
    var data := input;
    var value: nat := data[0] % 128;
    var offset := 7;
    var bytesUsed := 1;
    ghost var low: nat, shift: nat := 0, 0;
    ExtendStart(TryLeb(input));
    assert Shl(data[0] % 128, 0) == data[0] % 128;
    hide *;
    while data[0] >= 128
      invariant 1 <= bytesUsed <= |input| && data == input[bytesUsed - 1..]
      invariant offset == shift + 7 && value == low + Shl(data[0] % 128, shift)
      invariant TryLeb(input) == Extend(low, shift, bytesUsed - 1, TryLeb(data))
      decreases |data|
    {
      ExtendStep(low, shift, bytesUsed - 1, data);
      data := data[1..];
      bytesUsed := bytesUsed + 1;
      if data == [] || data[0] == 0 {
        return None;
      }
      low, shift := value, offset;
      value := value + Shl(data[0] % 128, offset);
      offset := offset + 7;
    }
    ExtendEnd(low, shift, bytesUsed - 1, data);
    return Some((value, bytesUsed));
  }

  method DecodeValue(input: seq<byte>) returns (value: nat, rest: seq<byte>)
    requires input != []
    ensures (value, rest) == DecodeOne(input)
  {
    var data := input;
    value := data[0] % 128;
    var offset := 7;
    ghost var low: nat, shift: nat := 0, 0;
    while data[0] >= 128
      invariant data != [] && |data| <= |input|
      invariant offset == shift + 7 && value == low + Shl(data[0] % 128, shift)
      invariant DecodeOne(input) == (low + Shl(DecodeOne(data).0, shift), DecodeOne(data).1)
      decreases |data|
    {
      ghost var head := data[0];
      data := data[1..];
      if data == [] || data[0] == 0 {
        return value, data;
      }
      ShiftIn(head - 128, DecodeOne(data).0, shift);
      low, shift := value, offset;
      value := value + Shl(data[0] % 128, offset);
      offset := offset + 7;
    }
    return value, data[1..];
  }

  /** All three decoders read back what was encoded, whatever follows it. */
  lemma {:induction false} LebRoundTrip(v: nat, rest: seq<byte>)
    ensures TryLeb(Leb(v) + rest) == Some((v, |Leb(v)|))
    ensures DecodeOne(Leb(v) + rest) == (v, rest)
    ensures RawNext(Leb(v) + rest) == (v, rest)
  {
    if 128 <= v {
      LebRoundTrip(v / 128, rest);
      var data := Leb(v) + rest;
      assert data[1..] == Leb(v / 128) + rest;
      LebNoTrailingZero(v / 128);
    } else {
      assert (Leb(v) + rest)[1..] == rest;
    }
  }

  lemma LebNoTrailingZero(v: nat)
    requires 0 < v
    ensures Leb(v)[0] != 0
  {
  }

  /** A number cut short is never taken for a whole one. */
  lemma {:induction false} LebPrefixIncomplete(v: nat, k: nat)
    requires k < |Leb(v)|
    ensures TryLeb(Leb(v)[..k]) == None
  {
    if 128 <= v && 0 < k {
      LebPrefixIncomplete(v / 128, k - 1);
      assert Leb(v)[..k][1..] == Leb(v / 128)[..k - 1];
    }
  }

  // ---------------------------------------------------------------- lists of numbers

  function Lebs(vs: seq<nat>): seq<byte> {
    if vs == [] then [] else Leb(vs[0]) + Lebs(vs[1..])
  }

  lemma {:induction false} LebsConcat(a: seq<nat>, b: seq<nat>)
    ensures Lebs(a + b) == Lebs(a) + Lebs(b)
  {
    if a == [] {
      assert a + b == b;
    } else {
      LebsConcat(a[1..], b);
      assert (a + b)[1..] == a[1..] + b;
    }
  }

  // ---------------------------------------------------------------- increasing lists

  /** `xs` may follow `last` in a non-decreasing list. */
  ghost predicate Ascends(last: int, xs: seq<int>) {
    NonDecreasing(xs) && forall i :: 0 <= i < |xs| ==> last <= xs[i]
  }

  /** The differences stored for a non-decreasing list that follows `last`. */
  function Deltas(last: nat, xs: seq<nat>): seq<nat>
    requires Ascends(last, xs)
    decreases |xs|
  {
    if xs == [] then [] else [xs[0] - last] + Deltas(xs[0], xs[1..])
  }

  method EncodeIntoIncreasing(indices: seq<nat>, buffer: seq<byte>) returns (out: seq<byte>)
    requires NonDecreasing(indices)
    ensures Ascends(0, indices) && out == buffer + Lebs(Deltas(0, indices))
  {
    out := buffer;
    if indices == [] { return; }
    out := EncodeValueInto(indices[0], out);
    if |indices| == 1 {
      assert Deltas(0, indices) == [indices[0]];
      assert Lebs([indices[0]]) == Leb(indices[0]) + Lebs([]);
      return;
    }
    var i := 1;
    EncodedFirst(indices, buffer);
    while i < |indices|
      invariant 1 <= i <= |indices| && Encoded(indices, i, buffer, out)
    {
      EncodedNext(indices, i, buffer, out);
      hide *;
      var d := indices[i] - indices[i - 1];
      out := EncodeValueInto(d, out);
      i := i + 1;
    }
    assert Deltas(indices[i - 1], indices[i..]) == [];
  }

  /** The first `i` values are in `out`, past what was in the buffer. */
  ghost predicate Encoded(indices: seq<nat>, i: nat, buffer: seq<byte>, out: seq<byte>) {
    && 1 <= i <= |indices| && Ascends(0, indices) && Ascends(indices[i - 1], indices[i..])
    && out + Lebs(Deltas(indices[i - 1], indices[i..])) == buffer + Lebs(Deltas(0, indices))
  }

  lemma EncodedFirst(indices: seq<nat>, buffer: seq<byte>)
    requires NonDecreasing(indices) && indices != []
    ensures Encoded(indices, 1, buffer, buffer + Leb(indices[0]))
  {
    var more := Lebs(Deltas(indices[0], indices[1..]));
    assert (buffer + Leb(indices[0])) + more == buffer + (Leb(indices[0]) + more);
  }

  lemma EncodedNext(indices: seq<nat>, i: nat, buffer: seq<byte>, out: seq<byte>)
    requires Encoded(indices, i, buffer, out) && i < |indices|
    ensures indices[i - 1] <= indices[i] && Encoded(indices, i + 1, buffer, out + Leb(indices[i] - indices[i - 1]))
  {
    EncodeStep(out, indices[i - 1], indices[i..]);
    assert indices[i..][1..] == indices[i + 1..];
  }

  lemma EncodeStep(before: seq<byte>, last: nat, xs: seq<nat>)
    requires xs != [] && Ascends(last, xs)
    ensures Ascends(xs[0], xs[1..])
    ensures before + Lebs(Deltas(last, xs)) == before + Leb(xs[0] - last) + Lebs(Deltas(xs[0], xs[1..]))
  {
  }

  /** The values a `StreamDecode` over `data` still has to yield when it stands at `base`. */
  function StreamFrom(base: nat, data: seq<byte>): (values: seq<nat>)
    ensures Ascends(base, values)
    decreases |data|
  {
    if data == [] then []
    else var (delta, rest) := RawNext(data); [base + delta] + StreamFrom(base + delta, rest)
  }

  lemma {:induction false} IncreasingRoundTrip(last: nat, xs: seq<nat>)
    requires Ascends(last, xs)
    ensures StreamFrom(last, Lebs(Deltas(last, xs))) == xs
    decreases |xs|
  {
    if xs != [] {
      IncreasingRoundTrip(xs[0], xs[1..]);
      LebRoundTrip(xs[0] - last, Lebs(Deltas(xs[0], xs[1..])));
    }
  }

  function LastOr(last: nat, xs: seq<nat>): nat {
    if xs == [] then last else xs[|xs| - 1]
  }

  lemma AscendsSnoc(last: nat, xs: seq<nat>, x: nat)
    requires Ascends(last, xs) && LastOr(last, xs) <= x
    ensures Ascends(last, xs + [x])
  {
    var all := xs + [x];
    forall i, j | 0 <= i < j < |all|
      ensures all[i] <= all[j]
    {
      assert all[i] == xs[i] && xs[i] <= xs[|xs| - 1];
    }
    assert xs != [] ==> last <= xs[|xs| - 1];
  }

  lemma AscendsTail(last: nat, xs: seq<nat>)
    requires Ascends(last, xs) && xs != []
    ensures Ascends(xs[0], xs[1..])
  {
  }

  lemma {:induction false} DeltasSnoc(last: nat, xs: seq<nat>, x: nat)
    requires Ascends(last, xs) && LastOr(last, xs) <= x && Ascends(last, xs + [x])
    ensures Deltas(last, xs + [x]) == Deltas(last, xs) + [x - LastOr(last, xs)]
    decreases |xs|
  {
    if xs == [] {
      assert xs + [x] == [x];
      assert Deltas(last, [x]) == [x - last] + Deltas(x, [x][1..]);
    } else {
      var tail := xs[1..];
      AscendsTail(last, xs);
      AscendsTail(last, xs + [x]);
      assert (xs + [x])[1..] == tail + [x];
      assert LastOr(xs[0], tail) == LastOr(last, xs);
      DeltasSnoc(xs[0], tail, x);
      assert Deltas(last, xs + [x]) == [xs[0] - last] + Deltas(xs[0], tail + [x]);
      assert Deltas(last, xs) == [xs[0] - last] + Deltas(xs[0], tail);
    }
  }

  /** An iterator over an increasing list (`StreamDecode`). */
  class StreamDecode {
    var bytes: seq<byte>
    var nextValue: Option<nat>

    /** The values still to come, the current one first. */
    ghost function Rest(): (values: seq<nat>)
      reads this
      ensures NonDecreasing(values)
    {
      if nextValue.None? then [] else [nextValue.value] + StreamFrom(nextValue.value, bytes)
    }

    constructor (data: seq<byte>)
      ensures Rest() == StreamFrom(0, data)
    {
      if data == [] {
        bytes, nextValue := [], None;
      } else {
        var value, rest := DecodeRawNext(data);
        bytes, nextValue := rest, Some(value);
      }
    }

    static method DecodeRawNext(input: seq<byte>) returns (value: nat, rest: seq<byte>)
      requires input != []
      ensures (value, rest) == RawNext(input)
    {
      var data := input;
      value := data[0] % 128;
      var continued := data[0] >= 128;
      data := data[1..];
      var offset := 7;
      ghost var low: nat, shift: nat, at: seq<byte> := 0, 0, input;
      while data != [] && continued
        invariant at != [] && |at| <= |input| && data == at[1..] && continued == (at[0] >= 128)
        invariant offset == shift + 7 && value == low + Shl(at[0] % 128, shift)
        invariant RawNext(input) == (low + Shl(RawNext(at).0, shift), RawNext(at).1)
        decreases |data|
      {
        ShiftIn(at[0] - 128, RawNext(data).0, shift);
        low, shift, at := value, offset, data;
        value := value + Shl(data[0] % 128, offset);
        continued := data[0] >= 128;
        data := data[1..];
        offset := offset + 7;
      }
      rest := data;
    }

    method Peek() returns (value: Option<nat>)
      ensures value == if Rest() == [] then None else Some(Rest()[0])
    {
      value := nextValue;
    }

    method SkipOne()
      modifies this
      ensures Rest() == if old(Rest()) == [] then [] else old(Rest())[1..]
    {
      if nextValue.Some? {
        if bytes == [] {
          nextValue := None;
        } else {
          var delta, remaining := DecodeRawNext(bytes);
          bytes := remaining;
          nextValue := Some(nextValue.value + delta);
        }
      }
    }

    method Next() returns (value: Option<nat>)
      modifies this
      ensures value == if old(Rest()) == [] then None else Some(old(Rest())[0])
      ensures Rest() == if old(Rest()) == [] then [] else old(Rest())[1..]
    {
      value := nextValue;
      SkipOne();
    }
  }

  /** An accumulator for an increasing list (`StreamEncode`). */
  class StreamEncode {
    var buffer: seq<byte>
    var lastValue: nat
    ghost var Added: seq<nat>

    ghost predicate Valid()
      reads this
    {
      Ascends(0, Added) && buffer == Lebs(Deltas(0, Added)) && lastValue == LastOr(0, Added)
    }

    constructor ()
      ensures Valid() && Added == [] && lastValue == 0
    {
      buffer, lastValue, Added := [], 0, [];
    }

    method Add(value: nat)
      requires Valid() && lastValue <= value
      modifies this
      ensures Valid() && Added == old(Added) + [value] && lastValue == value
    {
      var delta := value - lastValue;
      AscendsSnoc(0, Added, value);
      DeltasSnoc(0, Added, value);
      LebsConcat(Deltas(0, Added), [delta]);
      assert Lebs([delta]) == Leb(delta) + Lebs([]);
      buffer := EncodeValueInto(delta, buffer);
      lastValue := value;
      Added := Added + [value];
    }

    /** The finished buffer decodes to what was added, and is what `EncodeIntoIncreasing` writes. */
    method Finish() returns (out: seq<byte>)
      requires Valid()
      ensures StreamFrom(0, out) == Added
      ensures Ascends(0, Added) && out == Lebs(Deltas(0, Added))
    {
      IncreasingRoundTrip(0, Added);
      out := buffer;
    }
  }

  // ---------------------------------------------------------------- decreasing lists

  /** `xs` may follow `last` in a strictly descending list. */
  ghost predicate Descends(last: int, xs: seq<int>) {
    StrictlyDescending(xs) && forall i :: 0 <= i < |xs| ==> xs[i] < last
  }

  /** The gaps stored for a strictly descending list that follows `last`. */
  function Gaps(last: nat, xs: seq<nat>): seq<nat>
    requires Descends(last, xs)
    decreases |xs|
  {
    if xs == [] then [] else [last - xs[0] - 1] + Gaps(xs[0], xs[1..])
  }

  class DecreasingEncoder {
    var lastValue: nat
    var buffer: seq<byte>

    constructor (first: nat, initial: seq<byte>)
      ensures lastValue == first && buffer == initial
    {
      lastValue, buffer := first, initial;
    }

    method Write(values: seq<nat>)
      requires Descends(lastValue, values)
      modifies this
      ensures buffer == old(buffer) + Lebs(Gaps(old(lastValue), values))
    {
      var i := 0;
      assert values[0..] == values;
      while i < |values|
        invariant i <= |values|
        invariant Descends(lastValue, values[i..])
        invariant buffer + Lebs(Gaps(lastValue, values[i..])) == old(buffer) + Lebs(Gaps(old(lastValue), values))
      {
        assert values[i..][1..] == values[i + 1..];
        ghost var before := buffer;
        assert Gaps(lastValue, values[i..]) == [lastValue - values[i] - 1] + Gaps(values[i], values[i + 1..]);
        assert before + Lebs(Gaps(lastValue, values[i..]))
            == before + Leb(lastValue - values[i] - 1) + Lebs(Gaps(values[i], values[i + 1..]));
        Push(values[i]);
        i := i + 1;
      }
      assert Gaps(lastValue, values[i..]) == [];
    }

    method Push(value: nat)
      requires value < lastValue
      modifies this
      ensures buffer == old(buffer) + Leb(old(lastValue) - value - 1)
      ensures lastValue == value
    {
      var delta := lastValue - value - 1;
      buffer := EncodeValueInto(delta, buffer);
      lastValue := value;
    }
  }

  /** The ids that a block with this first id and these gap bytes stands for. */
  function DecodeDecreasing(value: int, data: seq<byte>): (values: seq<int>)
    ensures 0 < |values| && values[0] == value
    decreases |data|
  {
    if data == [] then [value]
    else var (delta, rest) := DecodeOne(data); [value] + DecodeDecreasing(value - (delta + 1), rest)
  }

  method DecodeDecreasingInto(input: seq<byte>, first: int, values: seq<int>) returns (out: seq<int>)
    ensures out == values + DecodeDecreasing(first, input)
  {
    var data, value := input, first;
    out := values + [value];
    ghost var before := values;
    while data != []
      invariant out == before + [value]
      invariant before + DecodeDecreasing(value, data) == values + DecodeDecreasing(first, input)
      decreases |data|
    {
      var delta;
      ghost var at := data;
      delta, data := DecodeValue(data);
      assert before + ([value] + DecodeDecreasing(value - (delta + 1), data))
          == out + DecodeDecreasing(value - (delta + 1), data);
      value := value - (delta + 1);
      before := out;
      out := out + [value];
    }
  }

  lemma {:induction false} DecreasingRoundTrip(last: nat, xs: seq<nat>)
    requires Descends(last, xs)
    ensures DecodeDecreasing(last, Lebs(Gaps(last, xs))) == [last] + xs
    decreases |xs|
  {
    if xs != [] {
      DecreasingRoundTrip(xs[0], xs[1..]);
      LebRoundTrip(last - xs[0] - 1, Lebs(Gaps(xs[0], xs[1..])));
    }
  }
}
