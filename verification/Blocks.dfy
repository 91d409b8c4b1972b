/** One block of the journal: the newest ids of one trigram, and how far back its previous block lies. */
module Blocks {
  import opened Bytes
  import opened Encoding
  import opened Cobs

  datatype Block = Block(address: nat, previousOffset: Option<nat>, firstId: nat, deltas: seq<byte>)
  {
    function Previous(): Option<int> {
      match previousOffset
      case None => None
      case Some(offset) => Some(address - offset)
    }

    method DecodeInto(output: seq<int>) returns (out: seq<int>)
      ensures out == output + Ids()
    {
      out := DecodeDecreasingInto(deltas, firstId, output);
    }

    function Ids(): seq<int> {
      DecodeDecreasing(firstId, deltas)
    }
  }

  /** Non-empty and strictly descending: the ids that one block may hold. */
  ghost predicate BlockIds(ids: seq<nat>) {
    ids != [] && Descends(ids[0], ids[1..])
  }

  lemma BlockIdsAreDescending(ids: seq<nat>)
    ensures BlockIds(ids) <==> ids != [] && StrictlyDescending(ids)
  {
    if BlockIds(ids) {
      forall i, j | 0 <= i < j < |ids| ensures ids[i] > ids[j] {
        assert ids[j] == ids[1..][j - 1];
        if i > 0 { assert ids[i] == ids[1..][i - 1]; }
      }
    }
  }

  /** What a block holds before it is stuffed. */
  function Payload(offset: nat, ids: seq<nat>): seq<byte>
    requires BlockIds(ids)
  {
    Leb(offset) + (Leb(ids[0]) + Lebs(Gaps(ids[0], ids[1..])))
  }

  /** The bytes of a block in the file. */
  function BlockBytes(offset: nat, ids: seq<nat>): (bytes: seq<byte>)
    requires BlockIds(ids)
    ensures 0 < |bytes| && bytes[|bytes| - 1] == 0
    ensures forall i :: 0 <= i < |bytes| - 1 ==> bytes[i] != 0
  {
    Stuff([], Payload(offset, ids)) + [0]
  }

  method EncodeBlockData(oldAddress: Option<nat>, newAddress: nat, fileIds: seq<nat>) returns (out: seq<byte>)
    requires BlockIds(fileIds)
    requires oldAddress.Some? ==> oldAddress.value < newAddress
    ensures out == BlockBytes(if oldAddress.Some? then newAddress - oldAddress.value else 0, fileIds)
  {
    var addressOffset := match oldAddress
      case Some(address) => newAddress - address
      case None => 0;
    var buffer := EncodeValueInto(addressOffset, []);
    buffer := EncodeValueInto(fileIds[0], buffer);
    var encoder := new DecreasingEncoder(fileIds[0], buffer);
    encoder.Write(fileIds[1..]);
    assert encoder.buffer == Payload(addressOffset, fileIds);
    out := Stuff([], encoder.buffer) + [0];
  }

  /** The block that a stretch of bytes ending in its sentinel stands for. */
  function LoadBlock(address: nat, bytes: seq<byte>): Option<Block> {
    match Unstuff(bytes)
    case None => None
    case Some(data) =>
      if data == [] then None
      else
        var (offset, rest) := DecodeOne(data);
        if rest == [] then None
        else
          var (firstId, deltas) := DecodeOne(rest);
          Some(Block(address, if offset > 0 then Some(offset) else None, firstId, deltas))
  }

  method LoadBlockData(address: nat, bytes: seq<byte>) returns (r: Option<Block>)
    ensures r == LoadBlock(address, bytes)
  {
    var unstuffed := Unstuff(bytes);
    if unstuffed.None? { return None; }
    var data := unstuffed.value;
    if data == [] { return None; }
    var offset, firstId, deltas;
    offset, data := DecodeValue(data);
    if data == [] { return None; }
    firstId, deltas := DecodeValue(data);
    return Some(Block(address, if offset > 0 then Some(offset) else None, firstId, deltas));
  }

  /** Loading an encoded block gives back its link and its ids. */
  lemma BlockRoundTrip(address: nat, offset: nat, ids: seq<nat>)
    requires BlockIds(ids)
    ensures var block := LoadBlock(address, BlockBytes(offset, ids));
            && block.Some?
            && block.value.address == address
            && block.value.previousOffset == (if offset > 0 then Some(offset) else None)
            && block.value.Ids() == ids
  {
    var payload := Payload(offset, ids);
    StuffRoundTrip([], payload);
    assert [] + payload == payload;
    LebRoundTrip(offset, Leb(ids[0]) + Lebs(Gaps(ids[0], ids[1..])));
    LebRoundTrip(ids[0], Lebs(Gaps(ids[0], ids[1..])));
    DecreasingRoundTrip(ids[0], ids[1..]);
    assert [ids[0]] + ids[1..] == ids;
  }

  // ---------------------------------------------------------------- blocks in a file

  /** The bytes from `from` up to and including the next zero (`BufRead::read_until`). */
  function ReadUntilZero(data: seq<byte>, from: nat): seq<byte>
    decreases |data| - from
  {
    if |data| <= from then []
    else if data[from] == 0 then [0]
    else [data[from]] + ReadUntilZero(data, from + 1)
  }

  /** `bytes` stands in the file at `from`. */
  predicate StandsAt(data: seq<byte>, from: nat, bytes: seq<byte>) {
    from + |bytes| <= |data| && data[from..from + |bytes|] == bytes
  }

  lemma {:induction false} ReadWhatStands(data: seq<byte>, from: nat, bytes: seq<byte>)
    requires StandsAt(data, from, bytes) && bytes != [] && bytes[|bytes| - 1] == 0
    requires forall i :: 0 <= i < |bytes| - 1 ==> bytes[i] != 0
    ensures ReadUntilZero(data, from) == bytes
    decreases |bytes|
  {
    assert data[from] == bytes[0];
    if |bytes| > 1 {
      assert data[from + 1..from + |bytes|] == bytes[1..];
      ReadWhatStands(data, from + 1, bytes[1..]);
    }
  }

  /** A block that stands in a file is read back from its address, link and ids. */
  lemma StandingBlockLoads(data: seq<byte>, address: nat, offset: nat, ids: seq<nat>)
    requires BlockIds(ids) && StandsAt(data, address, BlockBytes(offset, ids))
    ensures var block := LoadBlock(address, ReadUntilZero(data, address));
            && block.Some? && block.value.Ids() == ids
            && block.value.Previous() == (if offset > 0 then Some(address - offset) else None)
  {
    ReadWhatStands(data, address, BlockBytes(offset, ids));
    BlockRoundTrip(address, offset, ids);
  }
}
