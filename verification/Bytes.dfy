/** Machine-level vocabulary shared by the index modules. */
module Bytes {

  /** One octet of a file or of a buffer. */
  type byte = b: int | 0 <= b < 256

  datatype Option<+T> = None | Some(value: T)

  /** Every trigram is a 24 bit number. */
  const TRIGRAM_RANGE := 0x100_0000

  ghost predicate StrictlyDescending(ids: seq<int>) {
    forall i, j :: 0 <= i < j < |ids| ==> ids[i] > ids[j]
  }

  ghost predicate StrictlyAscending(xs: seq<int>) {
    forall i, j :: 0 <= i < j < |xs| ==> xs[i] < xs[j]
  }

  predicate NonDecreasing(xs: seq<int>) {
    forall i, j :: 0 <= i < j < |xs| ==> xs[i] <= xs[j]
  }
}
