/**
 Searching for data inside base64 text (`base64_encode`, src/query/yara.rs).  Base64 is that of
 RFC 4648, section 4, over any alphabet.  The fragment made for data at one of three alignments is
 a contiguous part of the base64 text of anything that holds the data at that alignment, and it is
 all of the text that the data alone determines.
 */
module Base64 {
  import opened Bytes

  /** The padding character `=`. */
  const PAD: byte := 61

  ghost predicate ValidAlphabet(alphabet: seq<byte>) {
    |alphabet| == 64 && PAD !in alphabet
  }

  function At(data: seq<byte>, i: nat): nat {
    if i < |data| then data[i] else 0
  }

  /** The `k`-th group of six bits; bits past the end are zero. */
  function Sextet(data: seq<byte>, k: nat): (v: nat)
    ensures v < 64
  {
    var i := k / 4 * 3;
    if k % 4 == 0 then At(data, i) / 4
    else if k % 4 == 1 then At(data, i) % 4 * 16 + At(data, i + 1) / 16
    else if k % 4 == 2 then At(data, i + 1) % 16 * 4 + At(data, i + 2) / 64
    else At(data, i + 2) % 64
  }

  function Chars(alphabet: seq<byte>, data: seq<byte>, n: nat): seq<byte>
    requires |alphabet| == 64
  {
    seq(n, k requires 0 <= k < n => alphabet[Sextet(data, k)])
  }

  /** Base64 with padding: three bytes become four characters. */
  function Encode(alphabet: seq<byte>, data: seq<byte>): (text: seq<byte>)
    requires |alphabet| == 64
    decreases |data|
  {
    if data == [] then []
    else if |data| == 1 then Chars(alphabet, data, 2) + [PAD, PAD]
    else if |data| == 2 then Chars(alphabet, data, 3) + [PAD]
    else Chars(alphabet, data[..3], 4) + Encode(alphabet, data[3..])
  }

  /** The characters that carry data, before the padding. */
  function Significant(n: nat): nat {
    n / 3 * 4 + if n % 3 == 0 then 0 else n % 3 + 1
  }

  lemma SextetDrop(data: seq<byte>, k: nat)
    requires |data| >= 3
    ensures k >= 4 ==> Sextet(data, k) == Sextet(data[3..], k - 4)
    ensures k < 4 ==> Sextet(data, k) == Sextet(data[..3], k)
  {
    if k >= 4 {
      assert k / 4 * 3 == (k - 4) / 4 * 3 + 3 && k % 4 == (k - 4) % 4;
    }
  }

  /** Every significant character is the alphabet's entry for its six bits, and the rest is padding. */
  lemma {:induction false} EncodeAt(alphabet: seq<byte>, data: seq<byte>)
    requires |alphabet| == 64
    ensures |Encode(alphabet, data)| == (|data| + 2) / 3 * 4 >= Significant(|data|)
    ensures forall k :: 0 <= k < Significant(|data|) ==> Encode(alphabet, data)[k] == alphabet[Sextet(data, k)]
    ensures forall k :: Significant(|data|) <= k < |Encode(alphabet, data)| ==> Encode(alphabet, data)[k] == PAD
    decreases |data|
  {
    if |data| >= 3 {
      var rest := data[3..];
      EncodeAt(alphabet, rest);
      assert Significant(|data|) == Significant(|rest|) + 4;
      forall k: nat ensures k >= 4 ==> Sextet(data, k) == Sextet(rest, k - 4)
                    ensures k < 4 ==> Sextet(data, k) == Sextet(data[..3], k) {
        SextetDrop(data, k);
      }
    }
  }

  // ---------------------------------------------------------------- the fragment

  function Skipped(permute: nat): nat
    requires permute <= 2
  {
    if permute == 0 then 0 else permute + 1
  }

  /** How many bits and characters the alignments work out to. */
  lemma Counting(before: nat, n: nat, permute: nat)
    requires permute <= 2 && before % 3 == permute && n >= 1
    ensures before / 3 * 4 + Skipped(permute) == (8 * before + 5) / 6
    ensures before / 3 * 4 + (8 * (permute + n)) / 6 == (8 * (before + n)) / 6
    ensures Skipped(permute) <= (8 * (permute + n)) / 6 <= Significant(permute + n)
    ensures (8 * (permute + n)) / 6 == Significant(permute + n) - if (permute + n) % 3 == 0 then 0 else 1
  {
    var q := before / 3;
    assert before == 3 * q + permute;
  }

  /** Six bits that lie within the data are the same wherever the data stands at this alignment. */
  lemma SameSextet(zeros: seq<byte>, prefix: seq<byte>, data: seq<byte>, suffix: seq<byte>, k: nat)
    requires |zeros| == |prefix| % 3 && data != []
    requires Skipped(|zeros|) <= k < (8 * (|zeros| + |data|)) / 6
    ensures Sextet(zeros + data, k) == Sextet(prefix + data + suffix, |prefix| / 3 * 4 + k)
  {
    var q, near, far := |prefix| / 3, zeros + data, prefix + data + suffix;
    var i, z := k / 4 * 3, |zeros|;
    Uses(k, z, |data|);
    Moved(q, k);
    forall j: nat | z <= j < |near| ensures At(near, j) == At(far, 3 * q + j) {
      SameByte(zeros, prefix, data, suffix, j);
    }
    hide *;
    SextetFrom(near, k, i);
    SextetFrom(far, q * 4 + k, 3 * q + i);
  }

  lemma SameByte(zeros: seq<byte>, prefix: seq<byte>, data: seq<byte>, suffix: seq<byte>, j: nat)
    requires |zeros| == |prefix| % 3 && |zeros| <= j < |zeros| + |data|
    ensures At(zeros + data, j) == At(prefix + data + suffix, 3 * (|prefix| / 3) + j)
  {
    var near, far, at := zeros + data, prefix + data + suffix, 3 * (|prefix| / 3) + j;
    assert at - |prefix| == j - |zeros|;
    assert near[j] == data[j - |zeros|];
    assert far[at] == data[at - |prefix|];
  }

  /** Which bytes a group of six bits within the data takes its bits from. */
  lemma Uses(k: nat, z: nat, n: nat)
    requires z <= 2 && n >= 1 && Skipped(z) <= k < (8 * (z + n)) / 6
    ensures var i := k / 4 * 3;
            && (k % 4 == 0 ==> z <= i < z + n)
            && (k % 4 == 1 ==> z <= i && i + 1 < z + n)
            && (k % 4 == 2 ==> z <= i + 1 && i + 2 < z + n)
            && (k % 4 == 3 ==> z <= i + 2 < z + n)
  {
    var m := k / 4;
    assert k == 4 * m + k % 4;
  }

  lemma Moved(q: nat, k: nat)
    ensures (q * 4 + k) / 4 * 3 == 3 * q + k / 4 * 3 && (q * 4 + k) % 4 == k % 4
  {
  }

  lemma SextetFrom(data: seq<byte>, k: nat, i: nat)
    requires i == k / 4 * 3
    ensures Sextet(data, k)
         == if k % 4 == 0 then At(data, i) / 4
            else if k % 4 == 1 then At(data, i) % 4 * 16 + At(data, i + 1) / 16
            else if k % 4 == 2 then At(data, i + 1) % 16 * 4 + At(data, i + 2) / 64
            else At(data, i + 2) % 64
  {
  }

  /** Takes off the padding and, when there was any, the last character, which holds fill bits. */
  method TrimPadding(alphabet: seq<byte>, buffer: seq<byte>) returns (output: seq<byte>)
    requires ValidAlphabet(alphabet)
    ensures (8 * |buffer|) / 6 <= |Encode(alphabet, buffer)| && output == Encode(alphabet, buffer)[..(8 * |buffer|) / 6]
  {
    ghost var n := |buffer|;
    output := Encode(alphabet, buffer);
    ghost var text := output;
    EncodeAt(alphabet, buffer);
    assert (8 * n) / 6 == Significant(n) - if n % 3 == 0 then 0 else 1;
    assert n % 3 == 0 ==> |text| == Significant(n);
    hide Encode; hide Sextet;
    if output != [] && output[|output| - 1] == PAD {
      while output != [] && output[|output| - 1] == PAD
        invariant Significant(n) <= |output| <= |text| && output == text[..|output|]
        decreases |output|
      {
        output := output[..|output| - 1];
      }
      output := output[..|output| - 1];
    }
  }

  /** The trimmed text of zeros and data is, past the zeros, a part of any text with the data at that alignment. */
  lemma FragmentInside(alphabet: seq<byte>, zeros: seq<byte>, prefix: seq<byte>, data: seq<byte>, suffix: seq<byte>)
    requires |alphabet| == 64 && |zeros| == |prefix| % 3 && (data == [] ==> zeros == [])
    ensures Skipped(|zeros|) <= (8 * (|zeros| + |data|)) / 6 <= |Encode(alphabet, zeros + data)|
    ensures Inside(Encode(alphabet, zeros + data)[Skipped(|zeros|)..(8 * (|zeros| + |data|)) / 6],
                   prefix, data, suffix, alphabet)
  {
    var near, far := Encode(alphabet, zeros + data), Encode(alphabet, prefix + data + suffix);
    var first, last := Skipped(|zeros|), (8 * (|zeros| + |data|)) / 6;
    var shift := |prefix| / 3 * 4;
    Spans(alphabet, zeros, prefix, data, suffix);
    forall k | first <= k < last ensures near[k] == far[shift + k] {
      SameChar(alphabet, zeros, prefix, data, suffix, k);
    }
    hide Encode;
    SameSlice(near, far, first, last, shift);
  }

  /** Where the fragment lies in both texts. */
  lemma Spans(alphabet: seq<byte>, zeros: seq<byte>, prefix: seq<byte>, data: seq<byte>, suffix: seq<byte>)
    requires |alphabet| == 64 && |zeros| == |prefix| % 3 && (data == [] ==> zeros == [])
    ensures var first, last, shift := Skipped(|zeros|), (8 * (|zeros| + |data|)) / 6, |prefix| / 3 * 4;
            && first <= last <= |Encode(alphabet, zeros + data)|
            && shift + last <= |Encode(alphabet, prefix + data + suffix)|
            && shift + first == (8 * |prefix| + 5) / 6 && shift + last == (8 * (|prefix| + |data|)) / 6
  {
    EncodeAt(alphabet, zeros + data);
    EncodeAt(alphabet, prefix + data + suffix);
    hide Encode; hide Sextet;
    Reaches(|prefix| + |data|, |suffix|);
    if data != [] {
      Counting(|prefix|, |data|, |zeros|);
    }
  }

  lemma SameChar(alphabet: seq<byte>, zeros: seq<byte>, prefix: seq<byte>, data: seq<byte>, suffix: seq<byte>, k: nat)
    requires |alphabet| == 64 && |zeros| == |prefix| % 3
    requires Skipped(|zeros|) <= k < (8 * (|zeros| + |data|)) / 6 && (data == [] ==> zeros == [])
    ensures k < |Encode(alphabet, zeros + data)|
    ensures |prefix| / 3 * 4 + k < |Encode(alphabet, prefix + data + suffix)|
    ensures Encode(alphabet, zeros + data)[k] == Encode(alphabet, prefix + data + suffix)[|prefix| / 3 * 4 + k]
  {
    Counting(|prefix|, |data|, |zeros|);
    EncodeAt(alphabet, zeros + data);
    EncodeAt(alphabet, prefix + data + suffix);
    Reaches(|prefix| + |data|, |suffix|);
    SameSextet(zeros, prefix, data, suffix, k);
    hide Encode; hide Sextet;
  }

  lemma SameSlice(near: seq<byte>, far: seq<byte>, first: nat, last: nat, shift: nat)
    requires first <= last <= |near| && shift + last <= |far|
    requires forall k :: first <= k < last ==> near[k] == far[shift + k]
    ensures near[first..last] == far[shift + first..shift + last]
  {
  }

  lemma Reaches(n: nat, more: nat)
    ensures (8 * n) / 6 <= Significant(n + more)
  {
    var m := n + more;
    assert (8 * n) / 6 <= (8 * m) / 6;
    assert m == 3 * (m / 3) + m % 3;
  }

  /** The alignments are 0, 1 and 2; any other number is taken for 2. */
  function Alignment(permute: nat): (z: nat)
    ensures z <= 2
  {
    if permute < 2 then permute else 2
  }

  /** `base64_encode`; nothing is its panic, which empty data at a shifted alignment leads to, and nothing else. */
  method Base64Encode(permute: nat, data: seq<byte>, alphabet: seq<byte>) returns (fragment: Option<seq<byte>>)
    requires ValidAlphabet(alphabet)
    ensures fragment.None? <==> data == [] && permute > 0
    ensures fragment.Some? ==>
              forall prefix, suffix | |prefix| % 3 == Alignment(permute) ::
                Inside(fragment.value, prefix, data, suffix, alphabet)
  {
    var buffer: seq<byte> := match permute case 0 => [] case 1 => [0] case _ => [0, 0];
    ghost var zeros := buffer;
    buffer := buffer + data;
    var output := TrimPadding(alphabet, buffer);
    var start := match permute case 0 => 0 case 1 => 2 case _ => 3;
    if start > |output| { return None; }
    assert start == Skipped(|zeros|) && data == [] ==> zeros == [];
    forall prefix: seq<byte>, suffix: seq<byte> | |prefix| % 3 == Alignment(permute)
      ensures Inside(output[start..], prefix, data, suffix, alphabet)
    {
      FragmentInside(alphabet, zeros, prefix, data, suffix);
      assert output[start..] == Encode(alphabet, buffer)[start..(8 * |buffer|) / 6];
    }
    fragment := Some(output[start..]);
  }

  /** The fragment is the part of the text between the first and the last bit of the data. */
  ghost predicate Inside(fragment: seq<byte>, prefix: seq<byte>, data: seq<byte>, suffix: seq<byte>,
                         alphabet: seq<byte>)
    requires |alphabet| == 64
  {
    var text := Encode(alphabet, prefix + data + suffix);
    var first, last := (8 * |prefix| + 5) / 6, (8 * (|prefix| + |data|)) / 6;
    first <= last <= |text| && fragment == text[first..last]
  }
}
