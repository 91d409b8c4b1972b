/**
 Reading a posting list in pieces (`CobsReader`, `BlockReader`, `TrigramCursor` and
 `_trigram_reader`, src/worker/journal.rs): a query reads each block chunk by chunk, decodes
 what it can and keeps the rest for the next chunk.  However the reads are cut, the reader
 sends the same ids that a reader of whole blocks would.
 */
module Cursor {
  import opened Bytes
  import opened Encoding
  import opened Cobs
  import opened Blocks
  import opened JournalLog

  const READ_SIZE := 0x2000

  /** What a read at an address of a file gives: nothing exactly at the end of the file, otherwise some bytes. */
  predicate Chunk(data: seq<byte>, address: nat, least: nat, chunk: seq<byte>) {
    if |data| <= address then chunk == []
    else
      && 0 < |chunk| <= READ_SIZE && address + |chunk| <= |data|
      && chunk == data[address..address + |chunk|]
      && (least <= |chunk| || address + |chunk| == |data|)
  }

  /**
   A pooled handle on the data file.  `data` is what the file held when the handle was opened.  Batches
   may append to the file while it is being read, and a defrag may put another file in its place; the
   handle stays on the old one, which then no longer changes.
   */
  class PooledFile {
    const data: seq<byte>

    constructor (data: seq<byte>)
      ensures this.data == data
    {
      this.data := data;
    }

    /**
     A read from whatever the file has grown to by now: as many bytes as the operating system
     pleases, but at least `least` when the file has them.
     */
    method ReadAt(address: nat, least: nat) returns (chunk: seq<byte>)
      requires 0 < least <= READ_SIZE
      ensures exists grown :: data <= grown && Chunk(grown, address, least, chunk)
    {
      var grown: seq<byte> :| data <= grown;
      if |grown| <= address {
        assert Chunk(grown, address, least, []);
        return [];
      }
      var available := if |grown| - address < READ_SIZE then |grown| - address else READ_SIZE;
      var enough := if least < available then least else available;
      var quantity: nat :| enough <= quantity <= available;
      chunk := grown[address..address + quantity];
      assert Chunk(grown, address, least, chunk);
    }
  }

  // ---------------------------------------------------------------- the bytes of one block

  function Framed(payload: seq<byte>): seq<byte> {
    Stuff([], payload) + [0]
  }

  /** The decoder after the first `fed` bytes of a block. */
  function DecoderAt(payload: seq<byte>, fed: nat): State
    requires fed <= |Stuff([], payload)|
  {
    Run(Idle, Framed(payload)[..fed]).state
  }

  /** What the decoder has yet to put out after the first `fed` bytes of a block. */
  function UnseenAt(payload: seq<byte>, fed: nat): seq<byte>
    requires fed <= |Stuff([], payload)|
  {
    Run(DecoderAt(payload, fed), Framed(payload)[fed..]).out
  }

  /** The decoder stands in the block, `fed` bytes from its start. */
  ghost predicate Inside(payload: seq<byte>, fed: nat, decoder: State) {
    fed <= |Stuff([], payload)| && fed < |Framed(payload)| && decoder == DecoderAt(payload, fed)
  }

  ghost function UnseenIf(finished: bool, payload: seq<byte>, fed: nat): seq<byte> {
    if finished || |Stuff([], payload)| < fed then [] else UnseenAt(payload, fed)
  }

  lemma UnseenAtStart(payload: seq<byte>)
    ensures DecoderAt(payload, 0) == Idle && UnseenAt(payload, 0) == payload
  {
    assert Framed(payload)[..0] == [] && Framed(payload)[0..] == Framed(payload);
    FeedInPieces(payload, 0, []);
    assert Stuff([], payload) + [0] + [] == Framed(payload);
  }

  /** A chunk that ends before the block does. */
  lemma FeedInside(payload: seq<byte>, fed: nat, q: nat)
    requires fed + q <= |Stuff([], payload)|
    ensures var r := Run(DecoderAt(payload, fed), Framed(payload)[fed..fed + q]);
            && !r.corrupt && !r.finished && DecoderAt(payload, fed + q) == r.state
            && UnseenAt(payload, fed) == r.out + UnseenAt(payload, fed + q)
  {
    hide Run; hide Stuff;
    var framed := Framed(payload);
    assert Stuff([], payload) + [0] + [] == framed;
    FeedInPieces(payload, fed, []);
    FeedInPieces(payload, fed + q, []);
    RunConcat(Idle, framed[..fed], framed[fed..fed + q]);
    assert framed[..fed] + framed[fed..fed + q] == framed[..fed + q];
    RunConcat(DecoderAt(payload, fed), framed[fed..fed + q], framed[fed + q..]);
    assert framed[fed..fed + q] + framed[fed + q..] == framed[fed..];
  }

  /** A chunk that holds the end of the block, and perhaps what follows it in the file. */
  lemma FeedPastEnd(payload: seq<byte>, fed: nat, tail: seq<byte>)
    requires fed <= |Stuff([], payload)|
    ensures var r := Run(DecoderAt(payload, fed), Framed(payload)[fed..] + tail);
            !r.corrupt && r.finished && r.out == UnseenAt(payload, fed)
  {
    hide Run; hide Stuff;
    assert Stuff([], payload) + [0] + [] == Framed(payload);
    FeedInPieces(payload, fed, []);
    RunConcat(DecoderAt(payload, fed), Framed(payload)[fed..], tail);
  }

  /** Either way, for a chunk of a file in which the block stands. */
  lemma FeedChunkOf(data: seq<byte>, base: nat, payload: seq<byte>, fed: nat, chunk: seq<byte>)
    requires StandsAt(data, base, Framed(payload)) && fed <= |Stuff([], payload)|
    requires base + fed + |chunk| <= |data| && chunk == data[base + fed..base + fed + |chunk|]
    ensures var r := Run(DecoderAt(payload, fed), chunk);
            && !r.corrupt
            && (if fed + |chunk| <= |Stuff([], payload)| then
                  && !r.finished && DecoderAt(payload, fed + |chunk|) == r.state
                  && UnseenAt(payload, fed) == r.out + UnseenAt(payload, fed + |chunk|)
                else r.finished && r.out == UnseenAt(payload, fed))
  {
    hide Run; hide Stuff; hide DecoderAt; hide UnseenAt;
    var framed := Framed(payload);
    if fed + |chunk| <= |Stuff([], payload)| {
      FeedInside(payload, fed, |chunk|);
      SliceWithin(data, base, framed, fed, chunk);
    } else {
      FeedPastEnd(payload, fed, chunk[|framed| - fed..]);
      SliceBeyond(data, base, framed, fed, chunk);
    }
  }

  /** What one read does to the bytes put out and the bytes yet unseen. */
  lemma ReadStep(data: seq<byte>, base: nat, payload: seq<byte>, fed: nat, chunk: seq<byte>, output: seq<byte>)
    requires StandsAt(data, base, Framed(payload)) && fed <= |Stuff([], payload)|
    requires base + fed + |chunk| <= |data| && chunk == data[base + fed..base + fed + |chunk|]
    ensures var r := Run(DecoderAt(payload, fed), chunk);
            && !r.corrupt
            && (r.finished ==> output + r.out + [] == output + UnseenAt(payload, fed))
            && (!r.finished ==>
                  && fed + |chunk| <= |Stuff([], payload)| && base + fed + |chunk| < |data|
                  && r.state == DecoderAt(payload, fed + |chunk|)
                  && output + r.out + UnseenAt(payload, fed + |chunk|) == output + UnseenAt(payload, fed))
  {
    assert |Framed(payload)| == |Stuff([], payload)| + 1 && base + |Framed(payload)| <= |data|;
    hide Run; hide Stuff; hide DecoderAt; hide UnseenAt; hide StandsAt; hide Framed;
    FeedChunkOf(data, base, payload, fed, chunk);
    var r := Run(DecoderAt(payload, fed), chunk);
    if r.finished {
      NothingAppended(output + r.out);
    } else {
      Associate(output, r.out, UnseenAt(payload, fed + |chunk|));
    }
  }

  lemma Associate(a: seq<byte>, b: seq<byte>, c: seq<byte>)
    ensures a + b + c == a + (b + c)
  {
  }

  lemma NothingAppended(a: seq<byte>)
    ensures a + [] == a
  {
  }

  lemma SliceWithin(data: seq<byte>, base: nat, framed: seq<byte>, fed: nat, chunk: seq<byte>)
    requires base + |framed| <= |data| && data[base..base + |framed|] == framed && fed + |chunk| <= |framed|
    requires chunk == data[base + fed..base + fed + |chunk|]
    ensures chunk == framed[fed..fed + |chunk|]
  {
    forall i | 0 <= i < |chunk| ensures chunk[i] == framed[fed + i] {
      assert framed[fed + i] == data[base..base + |framed|][fed + i];
    }
  }

  lemma SliceBeyond(data: seq<byte>, base: nat, framed: seq<byte>, fed: nat, chunk: seq<byte>)
    requires base + |framed| <= |data| && data[base..base + |framed|] == framed && fed <= |framed| <= fed + |chunk|
    requires base + fed + |chunk| <= |data| && chunk == data[base + fed..base + fed + |chunk|]
    ensures chunk == framed[fed..] + chunk[|framed| - fed..]
  {
    SliceWithin(data, base, framed, fed, chunk[..|framed| - fed]);
  }

  /** Up to 254 bytes past the first of a block, every byte fed puts one byte out. */
  lemma {:induction false} OutCount(s: State, bytes: seq<byte>)
    requires !s.Idle? && |bytes| <= (if s.GrabChain? then s.left else 254)
    requires NoZero(bytes)
    ensures |Run(s, bytes).out| == |bytes|
    decreases |bytes|
  {
    if bytes != [] {
      OutCount(Feed(s, bytes[0]).0, bytes[1..]);
    }
  }

  /** The bytes that a block's two header numbers can take once stuffed. */
  const HEADER_ROOM := 21

  /** A first chunk of that size holds the header of a block. */
  lemma HeaderInside(payload: seq<byte>, fed: nat)
    requires HEADER_ROOM <= fed <= |Stuff([], payload)|
    ensures |UnseenAt(payload, fed)| + HEADER_ROOM - 1 <= |payload|
  {
    var bytes := Framed(payload)[..HEADER_ROOM];
    assert NoZero(bytes) by { assert forall i :: 0 <= i < HEADER_ROOM ==> bytes[i] == Stuff([], payload)[i]; }
    OutCount(Feed(Idle, bytes[0]).0, bytes[1..]);
    assert |Run(Idle, bytes).out| == HEADER_ROOM - 1;
    UnseenAtStart(payload);
    hide Run; hide Stuff; hide UnseenAt;
    FeedInside(payload, 0, HEADER_ROOM);
    FeedInside(payload, HEADER_ROOM, fed - HEADER_ROOM);
    assert Framed(payload)[0..0 + HEADER_ROOM] == bytes;
  }

  /** Feeds a chunk into the decoder, up to the end of the block. */
  method FeedChunk(start: State, chunk: seq<byte>, output: seq<byte>)
    returns (decoder: State, finished: bool, corrupt: bool, out: seq<byte>)
    ensures var r := Run(start, chunk);
            decoder == r.state && finished == r.finished && corrupt == r.corrupt && out == output + r.out
  {
    decoder, finished, corrupt, out := start, false, false, output;
    var i := 0;
    while i < |chunk|
      invariant 0 <= i <= |chunk| && !finished && !corrupt
      invariant var r, rest := Run(start, chunk), Run(decoder, chunk[i..]);
                && r.state == rest.state && r.finished == rest.finished && r.corrupt == rest.corrupt
                && output + r.out == out + rest.out
    {
      var (next, event) := Feed(decoder, chunk[i]);
      ghost var rest := Run(next, chunk[i..][1..]);
      decoder := next;
      match event {
        case DataComplete => finished := true; return;
        case Corrupt => corrupt := true; return;
        case DataContinue(b) =>
          assert out + ([b] + rest.out) == out + [b] + rest.out;
          out := out + [b];
        case _ =>
      }
      i := i + 1;
      assert chunk[i - 1..][1..] == chunk[i..];
    }
  }

  lemma StandsGrown(data: seq<byte>, grown: seq<byte>, from: nat, bytes: seq<byte>)
    requires StandsAt(data, from, bytes) && data <= grown
    ensures StandsAt(grown, from, bytes)
  {
    assert grown[..|data|] == data;
    assert data[from..from + |bytes|] == grown[..|data|][from..from + |bytes|] == grown[from..from + |bytes|];
  }

  /** Reads the bytes of one block. */
  class CobsReader {
    var address: nat
    var decoder: State
    var finished: bool
    const pool: PooledFile
    ghost const base: nat
    ghost const payload: seq<byte>
    ghost var fed: nat

    ghost predicate Valid()
      reads this
    {
      && StandsAt(pool.data, base, Framed(payload))
      && (!finished ==> address == base + fed && Inside(payload, fed, decoder))
    }

    /** What is yet to be put out. */
    ghost function Unseen(): seq<byte>
      reads this
    {
      UnseenIf(finished, payload, fed)
    }

    /** How many bytes of the block may still be read. */
    ghost function BytesLeft(): nat
      reads this
    {
      if finished || |Framed(payload)| < fed then 0 else |Framed(payload)| - fed
    }

    constructor (address: nat, pool: PooledFile, ghost payload: seq<byte>)
      requires StandsAt(pool.data, address, Framed(payload))
      ensures Valid() && !finished && fed == 0 && Unseen() == payload
      ensures this.pool == pool && this.address == address && this.payload == payload
    {
      UnseenAtStart(payload);
      this.address, decoder, finished := address, Idle, false;
      this.pool := pool;
      this.base, this.payload, fed := address, payload, 0;
    }

    /** One read: `more` is false once the block is at its end. */
    method Read(output: seq<byte>, least: nat) returns (ok: bool, more: bool, out: seq<byte>)
      requires Valid() && 0 < least <= READ_SIZE
      modifies this
      ensures ok && Valid() && more == !old(finished)
      ensures !more ==> out == output && finished
      ensures more ==> out + Unseen() == output + old(Unseen()) && BytesLeft() < old(BytesLeft())
      ensures more && !finished ==> old(fed) + least <= fed
    {
      if finished { return true, false, output; }
      hide Framed; hide Inside; hide UnseenIf; hide StandsAt;
      var quantity;
      quantity, decoder, finished, ok, out := Pull(pool, address, least, decoder, output, base, payload, fed);
      if !ok { return false, false, output; }
      address := address + quantity;
      fed := fed + quantity;
      more := true;
    }

    /** Reads a chunk of bytes and feeds it to the decoder. */
    static method Pull(pool: PooledFile, address: nat, least: nat, start: State, output: seq<byte>,
                       ghost base: nat, ghost payload: seq<byte>, ghost fed: nat)
      returns (quantity: nat, decoder: State, finished: bool, ok: bool, out: seq<byte>)
      requires StandsAt(pool.data, base, Framed(payload))
      requires address == base + fed && Inside(payload, fed, start) && 0 < least <= READ_SIZE
      ensures ok && 0 < quantity && fed < |Framed(payload)|
      ensures !finished ==>
                least <= quantity && Inside(payload, fed + quantity, decoder) && fed + quantity < |Framed(payload)|
      ensures out + UnseenIf(finished, payload, fed + quantity) == output + UnseenIf(false, payload, fed)
    {
      assert address < |pool.data| by { assert fed < |Framed(payload)|; }
      hide Framed; hide Stuff; hide DecoderAt; hide UnseenAt; hide Run; hide StandsAt;
      var chunk := pool.ReadAt(address, least);
      ghost var grown :| pool.data <= grown && Chunk(grown, address, least, chunk);
      StandsGrown(pool.data, grown, base, Framed(payload));
      ReadStep(grown, base, payload, fed, chunk, output);
      quantity := |chunk|;
      var corrupt;
      decoder, finished, corrupt, out := FeedChunk(start, chunk, output);
      ok := !corrupt;
    }
  }

  // ---------------------------------------------------------------- the ids of one block

  /**
   The buffer holds the front of a stream of numbers, `unseen` is still to come.  A number that
   is whole in the buffer is the next of the stream; a number that is not is left alone.
   */
  lemma TakeOne(gaps: seq<nat>, buffer: seq<byte>, unseen: seq<byte>)
    requires buffer + unseen == Lebs(gaps)
    ensures TryLeb(buffer).Some? ==>
              && gaps != [] && TryLeb(buffer).value.0 == gaps[0]
              && buffer[TryLeb(buffer).value.1..] + unseen == Lebs(gaps[1..])
    ensures TryLeb(buffer).None? && unseen == [] ==> gaps == [] && buffer == []
  {
    assert TryLeb([]) == None && Lebs([]) == [];
    assert gaps != [] ==> Lebs(gaps) == Leb(gaps[0]) + Lebs(gaps[1..]);
    hide Leb; hide TryLeb; hide Lebs; hide DecodeOne; hide RawNext;
    if gaps != [] {
      var head := Leb(gaps[0]);
      if |buffer| < |head| {
        LebPrefixIncomplete(gaps[0], |buffer|);
        assert buffer == (buffer + unseen)[..|buffer|] == head[..|buffer|];
      } else {
        var rest := buffer[|head|..];
        assert head == (buffer + unseen)[..|head|] == buffer[..|head|];
        assert buffer == head + rest;
        LebRoundTrip(gaps[0], rest);
        assert rest + unseen == (buffer + unseen)[|head|..] == Lebs(gaps[1..]);
      }
    }
  }

  /** The next id that a buffer gives. */
  lemma TakeOneId(last: nat, left: seq<nat>, buffer: seq<byte>, unseen: seq<byte>)
    requires Descends(last, left) && buffer + unseen == Lebs(Gaps(last, left))
    ensures TryLeb(buffer).Some? ==>
              && left != [] && TryLeb(buffer).value.0 + 1 == last - left[0] && Descends(left[0], left[1..])
              && buffer[TryLeb(buffer).value.1..] + unseen == Lebs(Gaps(left[0], left[1..]))
    ensures TryLeb(buffer).None? && unseen == [] ==> left == []
  {
    hide Lebs; hide TryLeb;
    TakeOne(Gaps(last, left), buffer, unseen);
  }

  /** Turns the bytes of a block into its ids. */
  class BlockReader {
    const cobsReader: CobsReader
    var buffer: seq<byte>
    var lastValue: nat
    /** The ids of the block still to be put out. */
    ghost var left: seq<nat>

    ghost predicate Valid()
      reads this, cobsReader
    {
      && cobsReader.Valid() && Descends(lastValue, left)
      && buffer + cobsReader.Unseen() == Lebs(Gaps(lastValue, left))
      && TryLeb(buffer) == None
    }

    constructor (cobsReader: CobsReader, buffer: seq<byte>, lastValue: nat, ghost left: seq<nat>)
      requires cobsReader.Valid() && Descends(lastValue, left) && TryLeb(buffer) == None
      requires buffer + cobsReader.Unseen() == Lebs(Gaps(lastValue, left))
      ensures Valid() && this.left == left && this.cobsReader == cobsReader
    {
      this.cobsReader := cobsReader;
      this.buffer, this.lastValue, this.left := buffer, lastValue, left;
    }

    /** Opens the block at an address: its first ids, and the address of the block before it. */
    static method Read(pool: PooledFile, address: nat, output: seq<nat>, ghost offset: nat, ghost ids: seq<nat>)
      returns (r: Option<(BlockReader, int)>, out: seq<nat>)
      requires BlockIds(ids) && StandsAt(pool.data, address, BlockBytes(offset, ids))
      requires offset < 0x1_0000_0000_0000_0000 && ids[0] < 0x1_0000_0000_0000_0000
      ensures r.Some? && fresh(r.value.0) && fresh(r.value.0.cobsReader) && r.value.0.Valid()
      ensures r.value.0.cobsReader.pool == pool
      ensures r.value.1 == if offset == 0 then 0 else address - offset
      ensures out + r.value.0.left == output + ids
    {
      hide Leb; hide Lebs; hide Gaps; hide TryLeb; hide UnseenAt; hide Stuff; hide DecoderAt; hide StandsAt;
      hide BlockBytes;
      var ok, cobsReader, buffer := FirstChunk(pool, address, offset, ids);
      if !ok { return None, output; }
      var header := TryDecodeValue(buffer);
      if header.None? { return None, output; }
      var (off, offsetLen) := header.value;
      var first := TryDecodeValue(buffer[offsetLen..]);
      if first.None? { return None, output; }
      var (firstId, idLen) := first.value;
      var newAddress := if off == 0 then off else address - off;
      out := output + [firstId];
      assert out + ids[1..] == output + ids;
      var lastValue;
      ghost var left;
      lastValue, buffer, out, left := ReadBytes(offsetLen + idLen, firstId, buffer, out, ids[1..], cobsReader.Unseen());
      var reader := new BlockReader(cobsReader, buffer, lastValue, left);
      r := Some((reader, newAddress));
    }

    /** The first chunk of a block, which holds the two numbers of its header. */
    static method FirstChunk(pool: PooledFile, address: nat, ghost offset: nat, ghost ids: seq<nat>)
      returns (ok: bool, cobsReader: CobsReader, buffer: seq<byte>)
      requires BlockIds(ids) && StandsAt(pool.data, address, BlockBytes(offset, ids))
      requires offset < 0x1_0000_0000_0000_0000 && ids[0] < 0x1_0000_0000_0000_0000
      ensures ok && fresh(cobsReader) && cobsReader.Valid() && cobsReader.pool == pool
      ensures HoldsHeader(offset, ids, buffer, cobsReader.Unseen())
    {
      assert BlockBytes(offset, ids) == Framed(Payload(offset, ids));
      assert [] + Payload(offset, ids) == Payload(offset, ids);
      hide StandsAt; hide Framed; hide BlockBytes; hide Payload; hide HoldsHeader; hide Inside; hide UnseenIf;
      cobsReader := new CobsReader(address, pool, Payload(offset, ids));
      var more;
      ok, more, buffer := cobsReader.Read([], HEADER_ROOM);
      FirstChunkHoldsHeader(offset, ids, cobsReader.fed, cobsReader.finished, cobsReader.decoder, buffer);
    }

    /** Decodes the whole numbers in the buffer and moves the rest to its front. */
    static method ReadBytes(start: nat, last: nat, bytes: seq<byte>, output: seq<nat>, ghost ids: seq<nat>,
                            ghost unseen: seq<byte>)
      returns (lastValue: nat, buffer: seq<byte>, out: seq<nat>, ghost left: seq<nat>)
      requires start <= |bytes| && Descends(last, ids)
      requires bytes[start..] + unseen == Lebs(Gaps(last, ids))
      ensures out + left == output + ids && Descends(lastValue, left)
      ensures buffer + unseen == Lebs(Gaps(lastValue, left)) && TryLeb(buffer) == None
    {
      hide Leb; hide TryLeb; hide Lebs; hide Gaps; hide Descends;
      var cursor := start;
      lastValue, buffer, out, left := last, bytes, output, ids;
      var next := TryDecodeValue(buffer[cursor..]);
      while next.Some?
        invariant cursor <= |buffer| && next == TryLeb(buffer[cursor..])
        invariant out + left == output + ids && Descends(lastValue, left)
        invariant buffer[cursor..] + unseen == Lebs(Gaps(lastValue, left))
        decreases |left|
      {
        TakeOneId(lastValue, left, buffer[cursor..], unseen);
        var (value, bytesRead) := next.value;
        lastValue := lastValue - (value + 1);
        assert out + left == (out + [lastValue]) + left[1..];
        out := out + [lastValue];
        left := left[1..];
        assert buffer[cursor..][bytesRead..] == buffer[cursor + bytesRead..];
        cursor := cursor + bytesRead;
        next := TryDecodeValue(buffer[cursor..]);
      }
      buffer := if cursor < |buffer| then buffer[cursor..] else [];
    }

    /** One more chunk of the block: false when there is none, and then all ids are out. */
    method ReadMore(output: seq<nat>) returns (more: bool, out: seq<nat>)
      requires Valid()
      modifies this, cobsReader
      ensures Valid() && out + left == output + old(left)
      ensures more == !old(cobsReader.finished) && (more ==> cobsReader.BytesLeft() < old(cobsReader.BytesLeft()))
      ensures !more ==> left == [] && out == output
    {
      hide Leb; hide TryLeb; hide Lebs; hide Gaps; hide UnseenAt; hide DecoderAt; hide Stuff; hide StandsAt;
      hide Descends;
      TakeOneId(lastValue, left, buffer, cobsReader.Unseen());
      var ok, bytes;
      ok, more, bytes := cobsReader.Read(buffer, 1);
      if !more { return false, output; }
      assert bytes[0..] == bytes;
      lastValue, buffer, out, left := ReadBytes(0, lastValue, bytes, output, left, cobsReader.Unseen());
    }
  }

  /** The two numbers of a header, whatever follows them. */
  lemma HeaderDecodes(offset: nat, id: nat, rest: seq<byte>)
    ensures var buffer := Leb(offset) + (Leb(id) + rest);
            && TryLeb(buffer) == Some((offset, |Leb(offset)|))
            && TryLeb(buffer[|Leb(offset)|..]) == Some((id, |Leb(id)|))
  {
    hide Leb; hide TryLeb; hide DecodeOne; hide RawNext;
    LebRoundTrip(offset, Leb(id) + rest);
    LebRoundTrip(id, rest);
    assert (Leb(offset) + (Leb(id) + rest))[|Leb(offset)|..] == Leb(id) + rest;
  }

  lemma CutAfterHeader(a: seq<byte>, b: seq<byte>, c: seq<byte>, buffer: seq<byte>, unseen: seq<byte>)
    requires buffer + unseen == a + (b + c) && |a| + |b| <= |buffer|
    ensures buffer == a + (b + buffer[|a| + |b|..])
    ensures buffer[|a| + |b|..] + unseen == c
  {
    var rest := buffer[|a| + |b|..];
    assert forall i :: 0 <= i < |buffer| ==> buffer[i] == (buffer + unseen)[i];
    assert (buffer + unseen)[|a| + |b|..] == rest + unseen;
    assert (a + (b + c))[|a| + |b|..] == c;
  }

  /** The two numbers of the header are whole in the buffer, and the gaps of the block follow. */
  ghost predicate HoldsHeader(offset: nat, ids: seq<nat>, buffer: seq<byte>, unseen: seq<byte>)
    requires BlockIds(ids)
  {
    var a, b := |Leb(offset)|, |Leb(ids[0])|;
    && a + b <= |buffer| && TryLeb(buffer) == Some((offset, a)) && TryLeb(buffer[a..]) == Some((ids[0], b))
    && buffer[a + b..] + unseen == Lebs(Gaps(ids[0], ids[1..]))
  }

  /** A first chunk of sufficient size, or one that ends the block, holds the header. */
  lemma FirstChunkHoldsHeader(offset: nat, ids: seq<nat>, fed: nat, finished: bool, decoder: State, buffer: seq<byte>)
    requires BlockIds(ids)
    requires offset < 0x1_0000_0000_0000_0000 && ids[0] < 0x1_0000_0000_0000_0000
    requires !finished ==> HEADER_ROOM <= fed && Inside(Payload(offset, ids), fed, decoder)
    requires buffer + UnseenIf(finished, Payload(offset, ids), fed) == Payload(offset, ids)
    ensures HoldsHeader(offset, ids, buffer, UnseenIf(finished, Payload(offset, ids), fed))
  {
    hide Leb; hide Lebs; hide Gaps; hide UnseenAt; hide Stuff; hide TryLeb; hide DecoderAt; hide Framed;
    LebFitsU64(offset);
    LebFitsU64(ids[0]);
    if !finished {
      HeaderInside(Payload(offset, ids), fed);
    }
    CutAfterHeader(Leb(offset), Leb(ids[0]), Lebs(Gaps(ids[0], ids[1..])), buffer,
        UnseenIf(finished, Payload(offset, ids), fed));
    HeaderDecodes(offset, ids[0], buffer[|Leb(offset)| + |Leb(ids[0])|..]);
  }

  // ---------------------------------------------------------------- the whole chain of a trigram

  /** Addresses and ids are 64 bit numbers. */
  ghost predicate Fits64(log: seq<Entry>) {
    forall i :: 0 <= i < |log| ==>
      log[i].address < 0x1_0000_0000_0000_0000 && forall id :: id in log[i].ids ==> id < 0x1_0000_0000_0000_0000
  }

  /** The address that starts a trigram's chain in a log, zero for none. */
  function StartOf(log: seq<Entry>, t: nat): nat {
    RowFor(log, t).address
  }

  /** The newest block of a trigram, found in the log. */
  lemma {:induction false} Newest(data: seq<byte>, log: seq<Entry>, t: nat) returns (k: nat)
    requires Laid(data, log) && LastAddress(log, t).Some?
    ensures k < |log| && log[k].trigram == t && LastAddress(log, t) == Some(log[k].address)
    ensures Postings(log, t) == log[k].ids + Postings(log[..k], t)
    ensures Laid(data, log[..k]) && BlockIds(log[k].ids) && StandsAt(data, log[k].address, EntryBytes(log[..k], log[k]))
    ensures StartOf(log[..k], t)
         == if LinkOffset(log[..k], log[k]) == 0 then 0 else log[k].address - LinkOffset(log[..k], log[k])
  {
    var n := |log| - 1;
    if log[n].trigram == t {
      k := n;
      if LastAddress(log[..n], t).Some? {
        LastAddressBounds(data, log[..n], t);
      }
    } else {
      k := Newest(data, log[..n], t);
      assert log[..n][..k] == log[..k];
    }
  }

  class TrigramCursor {
    var values: seq<nat>
    var finished: bool
    const pool: PooledFile
    var nextAddress: nat
    var blockReader: BlockReader?
    ghost const trigram: nat
    /** The part of the log whose blocks are yet to be opened. */
    ghost var unopened: seq<Entry>

    ghost function Readers(): set<object>
      reads `blockReader
    {
      if blockReader == null then {} else {blockReader, blockReader.cobsReader}
    }

    ghost predicate Valid()
      reads `finished, `nextAddress, `blockReader, `unopened, Readers()
    {
      && Laid(pool.data, unopened) && Fits64(unopened) && nextAddress == StartOf(unopened, trigram)
      && (blockReader != null ==> blockReader.Valid() && blockReader.cobsReader.pool == pool)
      && (finished ==> blockReader == null && nextAddress == 0)
    }

    /** The ids not yet decoded. */
    ghost function Remaining(): seq<nat>
      reads `blockReader, `unopened, Readers()
    {
      (if blockReader == null then [] else blockReader.left) + Postings(unopened, trigram)
    }

    ghost function BytesLeft(): nat
      reads `blockReader, Readers()
    {
      if blockReader == null then 0 else 1 + blockReader.cobsReader.BytesLeft()
    }

    constructor (pool: PooledFile, address: nat, ghost log: seq<Entry>, ghost t: nat)
      requires Laid(pool.data, log) && Fits64(log) && address == StartOf(log, t)
      ensures Valid() && values == [] && Remaining() == Postings(log, t) && Readers() == {} && unopened == log
              && !finished
    {
      this.pool := pool;
      values, finished, nextAddress, blockReader := [], false, address, null;
      trigram, unopened := t, log;
    }

    /** Decodes the next chunk: of the open block, else of the next block of the chain. */
    method LoadBatch() returns (ok: bool)
      requires Valid() && !finished
      modifies this, Readers()
      ensures ok && Valid() && values + Remaining() == old(values) + old(Remaining())
      ensures Readers() <= old(Readers()) || fresh(Readers())
      ensures finished ==> Remaining() == []
      ensures |unopened| < old(|unopened|)
           || (unopened == old(unopened)
               && (BytesLeft() < old(BytesLeft()) || (BytesLeft() == old(BytesLeft()) && finished)))
    {
      hide BlockReader.Valid; hide Laid; hide LastAddress; hide Postings;
      ghost var all := values + Remaining();
      if blockReader != null {
        ghost var older := Postings(unopened, trigram);
        ghost var left := blockReader.left;
        var more;
        more, values := blockReader.ReadMore(values);
        ShiftId(old(values), left, values, blockReader.left, older);
        if more { return true; }
        blockReader := null;
      }
      if nextAddress > 0 {
        var reader, next;
        ghost var older;
        ok, reader, next, values, older := OpenNext(pool, nextAddress, values, unopened, trigram);
        if !ok { return false; }
        blockReader, nextAddress, unopened := reader, next, older;
        NothingBefore(Postings(old(unopened), trigram));
        return true;
      }
      NothingUnopened(pool.data, unopened, trigram);
      finished := true;
      return true;
    }

    /** Opens the next block of the chain. */
    static method OpenNext(pool: PooledFile, address: nat, values: seq<nat>, ghost log: seq<Entry>, ghost t: nat)
      returns (ok: bool, reader: BlockReader, next: nat, values': seq<nat>, ghost older: seq<Entry>)
      requires Laid(pool.data, log) && Fits64(log) && address == StartOf(log, t) > 0
      ensures ok && fresh(reader) && fresh(reader.cobsReader) && reader.Valid() && reader.cobsReader.pool == pool
      ensures Laid(pool.data, older) && Fits64(older) && next == StartOf(older, t) && |older| < |log|
      ensures values' + (reader.left + Postings(older, t)) == values + Postings(log, t)
    {
      ghost var k, offset := NextBlock(pool.data, log, t);
      ghost var ids := log[k].ids;
      older := log[..k];
      hide BlockReader.Valid; hide Laid; hide StartOf; hide Postings; hide StandsAt; hide BlockBytes; hide Fits64;
      var found;
      found, values' := BlockReader.Read(pool, address, values, offset, ids);
      reader, next := found.value.0, found.value.1;
      ShiftId(values, ids, values', reader.left, Postings(older, t));
      return true, reader, next, values', older;
    }

    method Next() returns (value: Option<nat>)
      modifies `values
      ensures if old(values) == [] then value.None? && values == []
              else value == Some(old(values)[0]) && values == old(values)[1..]
    {
      if values == [] { return None; }
      value := Some(values[0]);
      values := values[1..];
    }
  }

  lemma NothingBefore(a: seq<nat>)
    ensures [] + a == a
  {
  }

  lemma NothingUnopened(data: seq<byte>, log: seq<Entry>, t: nat)
    requires Laid(data, log) && StartOf(log, t) == 0
    ensures Postings(log, t) == []
  {
    NoAddressNoPostings(log, t);
    if LastAddress(log, t).Some? {
      LastAddressBounds(data, log, t);
    }
  }

  /** What opening the next block of a chain needs to know. */
  lemma NextBlock(data: seq<byte>, log: seq<Entry>, t: nat) returns (k: nat, offset: nat)
    requires Laid(data, log) && Fits64(log) && StartOf(log, t) > 0
    ensures k < |log| && Laid(data, log[..k]) && Fits64(log[..k])
    ensures BlockIds(log[k].ids) && StandsAt(data, StartOf(log, t), BlockBytes(offset, log[k].ids))
    ensures offset < 0x1_0000_0000_0000_0000 && log[k].ids[0] < 0x1_0000_0000_0000_0000
    ensures StartOf(log[..k], t) == (if offset == 0 then 0 else StartOf(log, t) - offset)
    ensures Postings(log, t) == log[k].ids + Postings(log[..k], t)
  {
    k := Newest(data, log, t);
    offset := LinkOffset(log[..k], log[k]);
    hide BlockBytes; hide Laid; hide StandsAt; hide Postings;
    assert log[k].ids[0] in log[k].ids;
  }

  lemma ShiftId(output: seq<nat>, left: seq<nat>, output': seq<nat>, left': seq<nat>, older: seq<nat>)
    requires output' + left' == output + left
    ensures output' + (left' + older) == output + (left + older)
  {
    assert output' + (left' + older) == (output' + left') + older;
    assert output + (left + older) == (output + left) + older;
  }

  /** What a receiver gets that leaves after `leaves` ids, or stays. */
  function Taken(list: seq<nat>, leaves: Option<nat>): seq<nat> {
    if leaves.Some? && leaves.value < |list| then list[..leaves.value] else list
  }

  /**
   Reading a trigram's ids from its tail address: however the system cuts the reads, and whatever is
   appended to the file meanwhile, all the ids of the posting list are sent, in order, each once, for
   as long as somebody receives them.
   */
  method TrigramReader(pool: PooledFile, start: nat, leaves: Option<nat>, ghost log: seq<Entry>, ghost t: nat)
    returns (ok: bool, sent: seq<nat>)
    requires Laid(pool.data, log) && Fits64(log) && start == StartOf(log, t) > 0
    ensures ok && sent == Taken(Postings(log, t), leaves)
  {
    hide *;
    var cursor := new TrigramCursor(pool, start, log, t);
    sent := [];
    NothingBefore(Postings(log, t));
    while !cursor.finished
      invariant cursor.Valid() && fresh(cursor) && fresh(cursor.Readers()) && cursor.values == []
      invariant sent + cursor.Remaining() == Postings(log, t)
      invariant leaves.Some? ==> |sent| <= leaves.value
      invariant cursor.finished ==> cursor.Remaining() == []
      decreases |cursor.unopened|, cursor.BytesLeft(), !cursor.finished
    {
      var gone;
      ok, gone, sent := Round(cursor, sent, leaves);
      if !ok { return false, sent; }
      if gone {
        TakenSome(Postings(log, t), leaves, sent);
        return true, sent;
      }
    }
    TakenAll(Postings(log, t), leaves, sent);
    ok := true;
  }

  lemma TakenSome(list: seq<nat>, leaves: Option<nat>, sent: seq<nat>)
    requires leaves.Some? && |sent| == leaves.value < |list| && sent <= list
    ensures sent == Taken(list, leaves)
  {
  }

  lemma TakenAll(list: seq<nat>, leaves: Option<nat>, sent: seq<nat>)
    requires sent + [] == list && (leaves.Some? ==> |sent| <= leaves.value)
    ensures sent == Taken(list, leaves)
  {
  }

  /** Loads one chunk and sends what it gave. */
  method Round(cursor: TrigramCursor, output: seq<nat>, leaves: Option<nat>)
    returns (ok: bool, gone: bool, sent: seq<nat>)
    requires cursor.Valid() && !cursor.finished && cursor.values == []
    requires leaves.Some? ==> |output| <= leaves.value
    modifies cursor, cursor.Readers()
    ensures ok
    ensures gone ==>
              && leaves.Some? && |sent| == leaves.value < |output + old(cursor.Remaining())|
              && sent <= output + old(cursor.Remaining())
    ensures !gone ==>
              && cursor.Valid() && cursor.values == []
              && sent + cursor.Remaining() == output + old(cursor.Remaining())
              && (leaves.Some? ==> |sent| <= leaves.value)
              && (cursor.finished ==> cursor.Remaining() == [])
    ensures cursor.Readers() <= old(cursor.Readers()) || fresh(cursor.Readers())
    ensures |cursor.unopened| < old(|cursor.unopened|)
         || (cursor.unopened == old(cursor.unopened)
             && (cursor.BytesLeft() < old(cursor.BytesLeft())
                 || (cursor.BytesLeft() == old(cursor.BytesLeft()) && cursor.finished)))
  {
    hide TrigramCursor.Valid; hide TrigramCursor.Remaining; hide TrigramCursor.BytesLeft;
    ghost var remaining := cursor.Remaining();
    ok := cursor.LoadBatch();
    if !ok { return false, false, output; }
    NothingBefore(remaining);
    ghost var loaded := cursor.values;
    gone, sent := SendAll(cursor, output, leaves);
    Reassociate(output, loaded, cursor.Remaining());
    if gone { PrefixOfMore(sent, output + loaded, cursor.Remaining()); }
  }

  lemma Reassociate(a: seq<nat>, b: seq<nat>, c: seq<nat>)
    ensures (a + b) + c == a + (b + c)
  {
  }

  lemma PrefixOfMore(sent: seq<nat>, list: seq<nat>, more: seq<nat>)
    requires sent <= list && |sent| < |list|
    ensures sent <= list + more && |sent| < |list + more|
  {
  }

  /** Sends what the cursor has decoded, for as long as somebody receives it. */
  method SendAll(cursor: TrigramCursor, output: seq<nat>, leaves: Option<nat>) returns (gone: bool, sent: seq<nat>)
    requires leaves.Some? ==> |output| <= leaves.value
    modifies cursor`values
    ensures gone ==>
              && leaves.Some? && |sent| == leaves.value < |output + old(cursor.values)|
              && sent <= output + old(cursor.values)
    ensures !gone ==>
              sent == output + old(cursor.values) && cursor.values == [] && (leaves.Some? ==> |sent| <= leaves.value)
  {
    sent := output;
    var value := cursor.Next();
    while value.Some?
      invariant sent + (if value.Some? then [value.value] else []) + cursor.values == output + old(cursor.values)
      invariant value.None? ==> cursor.values == []
      invariant leaves.Some? ==> |sent| <= leaves.value
      decreases |cursor.values|, value.Some?
    {
      if leaves == Some(|sent|) {
        PrefixOfMore(sent, sent + [value.value], cursor.values);
        return true, sent;
      }
      sent := sent + [value.value];
      value := cursor.Next();
    }
    gone := false;
  }
}
