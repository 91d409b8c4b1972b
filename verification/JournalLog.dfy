/**
 What the files of a journal mean.  A journal is a log of blocks in file order; a trigram's
 posting list is the concatenation of its blocks, newest first.  `Laid` ties a log to the
 bytes of a data file, `TailMatches` ties it to the tail table, and `ChainReads` says that
 following the chain of block links from the tail yields the posting list.
 */
module JournalLog {
  import opened Bytes
  import opened Blocks

  /** The magic number 0xd42e1880, low byte first. */
  const HEADER: seq<byte> := [0x80, 0x18, 0x2e, 0xd4]

  datatype Entry = Entry(trigram: nat, address: nat, ids: seq<nat>)

  /** The ids recorded for a trigram, newest block first. */
  function Postings(log: seq<Entry>, t: nat): seq<nat> {
    if log == [] then []
    else
      var older := Postings(log[..|log| - 1], t);
      var last := log[|log| - 1];
      if last.trigram == t then last.ids + older else older
  }

  /** The address of the newest block of a trigram. */
  function LastAddress(log: seq<Entry>, t: nat): Option<nat> {
    if log == [] then None
    else if log[|log| - 1].trigram == t then Some(log[|log| - 1].address)
    else LastAddress(log[..|log| - 1], t)
  }

  function LinkOffset(log: seq<Entry>, e: Entry): nat {
    match LastAddress(log, e.trigram)
    case None => 0
    case Some(a) => if a < e.address then e.address - a else 0
  }

  /** The bytes that `e` takes in the file when it follows `log`. */
  function EntryBytes(log: seq<Entry>, e: Entry): seq<byte>
    requires BlockIds(e.ids)
  {
    BlockBytes(LinkOffset(log, e), e.ids)
  }

  /** Every entry is a proper block of a proper trigram. */
  ghost predicate ProperEntries(log: seq<Entry>) {
    forall i :: 0 <= i < |log| ==> BlockIds(log[i].ids) && log[i].trigram < TRIGRAM_RANGE
  }

  /** The first position past the log's last block. */
  function LogEnd(log: seq<Entry>): nat
    requires ProperEntries(log)
  {
    if log == [] then |HEADER|
    else var e := log[|log| - 1]; e.address + |EntryBytes(log[..|log| - 1], e)|
  }

  /** The log's blocks stand in `data` in order, one past the other, after the header. */
  ghost predicate Laid(data: seq<byte>, log: seq<Entry>) {
    ProperEntries(log) &&
    if log == [] then StandsAt(data, 0, HEADER)
    else
      var older, e := log[..|log| - 1], log[|log| - 1];
      Laid(data, older) && LogEnd(older) <= e.address && StandsAt(data, e.address, EntryBytes(older, e))
  }

  lemma {:induction false} LogEndBounds(data: seq<byte>, log: seq<Entry>)
    requires Laid(data, log)
    ensures |HEADER| <= LogEnd(log) <= |data|
    ensures StandsAt(data, 0, HEADER)
  {
    if log != [] {
      LogEndBounds(data, log[..|log| - 1]);
    }
  }

  lemma {:induction false} LastAddressBounds(data: seq<byte>, log: seq<Entry>, t: nat)
    requires Laid(data, log) && LastAddress(log, t).Some?
    ensures |HEADER| <= LastAddress(log, t).value < LogEnd(log)
  {
    var older, e := log[..|log| - 1], log[|log| - 1];
    LogEndBounds(data, older);
    if e.trigram != t {
      LastAddressBounds(data, older, t);
    }
  }

  /** Only the bytes before the end of the log matter: what follows may be lost or be anything. */
  lemma {:induction false} LaidByPrefix(data: seq<byte>, data': seq<byte>, log: seq<Entry>)
    requires Laid(data, log) && LogEnd(log) <= |data'| && data[..LogEnd(log)] == data'[..LogEnd(log)]
    ensures Laid(data', log)
  {
    LogEndBounds(data, log);
    if log == [] {
      SamePrefix(data, data', LogEnd(log), 0, HEADER);
    } else {
      var older, e := log[..|log| - 1], log[|log| - 1];
      LogEndBounds(data, older);
      SamePrefix(data, data', LogEnd(log), e.address, EntryBytes(older, e));
      assert data[..LogEnd(older)] == data'[..LogEnd(older)] by {
        assert data[..LogEnd(log)][..LogEnd(older)] == data[..LogEnd(older)];
        assert data'[..LogEnd(log)][..LogEnd(older)] == data'[..LogEnd(older)];
      }
      LaidByPrefix(data, data', older);
    }
  }

  lemma SamePrefix(data: seq<byte>, data': seq<byte>, end: nat, at: nat, bytes: seq<byte>)
    requires end <= |data| && end <= |data'| && data[..end] == data'[..end]
    requires StandsAt(data, at, bytes) && at + |bytes| <= end
    ensures StandsAt(data', at, bytes)
  {
    assert data[..end][at..at + |bytes|] == data[at..at + |bytes|];
    assert data'[..end][at..at + |bytes|] == data'[at..at + |bytes|];
  }

  // ---------------------------------------------------------------- following a chain

  /** The ids along the chain of blocks that starts at `address`, or nothing when a block is broken. */
  function ReadChain(data: seq<byte>, address: Option<nat>): Option<seq<int>>
    decreases match address case None => 0 case Some(a) => a + 1
  {
    match address
    case None => Some([])
    case Some(a) =>
      match LoadBlock(a, ReadUntilZero(data, a))
      case None => None
      case Some(block) =>
        match block.Previous()
        case None => Some(block.Ids())
        case Some(previous) =>
          if previous < 0 || a <= previous then None
          else
            match ReadChain(data, Some(previous))
            case None => None
            case Some(older) => Some(block.Ids() + older)
  }

  lemma ReadChainStep(data: seq<byte>, a: nat)
    requires ReadChain(data, Some(a)).Some?
    ensures var block := LoadBlock(a, ReadUntilZero(data, a));
            && block.Some?
            && match block.value.Previous()
               case None => ReadChain(data, Some(a)).value == block.value.Ids()
               case Some(p) =>
                 && 0 <= p < a && ReadChain(data, Some(p)).Some?
                 && ReadChain(data, Some(a)).value == block.value.Ids() + ReadChain(data, Some(p)).value
  {
  }

  /** A block that follows `older`, as a reader of the file finds it. */
  lemma NewestBlock(data: seq<byte>, older: seq<Entry>, e: Entry)
    requires BlockIds(e.ids) && StandsAt(data, e.address, EntryBytes(older, e))
    requires LastAddress(older, e.trigram).Some? ==> LastAddress(older, e.trigram).value < e.address
    ensures var block := LoadBlock(e.address, ReadUntilZero(data, e.address));
            && block.Some? && block.value.Ids() == e.ids
            && block.value.Previous() == LastAddress(older, e.trigram)
  {
    StandingBlockLoads(data, e.address, LinkOffset(older, e), e.ids);
  }

  /** The walk from the tail of a trigram yields exactly its posting list. */
  lemma {:induction false} ChainReads(data: seq<byte>, log: seq<Entry>, t: nat)
    requires Laid(data, log)
    ensures ReadChain(data, LastAddress(log, t)) == Some(Postings(log, t))
  {
    if log != [] {
      var older, e := log[..|log| - 1], log[|log| - 1];
      ChainReads(data, older, t);
      if e.trigram == t {
        if LastAddress(older, t).Some? {
          LastAddressBounds(data, older, t);
        }
        NewestBlock(data, older, e);
        if LastAddress(older, t).None? {
          NoAddressNoPostings(older, t);
          assert e.ids + [] == e.ids;
        }
      }
    }
  }

  lemma {:induction false} NoAddressNoPostings(log: seq<Entry>, t: nat)
    ensures LastAddress(log, t).None? ==> Postings(log, t) == []
    ensures ProperEntries(log) && LastAddress(log, t).Some? ==> Postings(log, t) != []
  {
    if log != [] {
      NoAddressNoPostings(log[..|log| - 1], t);
    }
  }

  // ---------------------------------------------------------------- the tail table

  /** A row of the tail file: an address, zero for none, and the length of the posting list. */
  datatype Row = Row(address: nat, size: nat)
  {
    function Address(): Option<nat> {
      if address == 0 then None else Some(address)
    }
  }

  function RowFor(log: seq<Entry>, t: nat): Row {
    Row(match LastAddress(log, t) case None => 0 case Some(a) => a, |Postings(log, t)|)
  }

  /** The rows of a tail file as far as they are there, and the number that ends a whole one. */
  datatype Tail = Tail(rows: seq<Row>, generation: Option<nat>)

  ghost predicate TailMatches(tail: Tail, log: seq<Entry>) {
    |tail.rows| == TRIGRAM_RANGE && forall t :: 0 <= t < TRIGRAM_RANGE ==> tail.rows[t] == RowFor(log, t)
  }

  /** The address in a row is the address of the trigram's newest block. */
  lemma RowAddress(data: seq<byte>, log: seq<Entry>, t: nat)
    requires Laid(data, log)
    ensures RowFor(log, t).Address() == LastAddress(log, t)
  {
    if LastAddress(log, t).Some? {
      LastAddressBounds(data, log, t);
    }
  }

  /** The greatest address in the tail is that of the last block, which therefore is live. */
  lemma GreatestAddress(data: seq<byte>, log: seq<Entry>)
    requires Laid(data, log)
    ensures log != [] ==>
              var e := log[|log| - 1];
              && e.trigram < TRIGRAM_RANGE && RowFor(log, e.trigram).address == e.address
              && forall t: nat :: RowFor(log, t).address <= e.address
    ensures log == [] ==> forall t: nat :: RowFor(log, t).address == 0
  {
    if log != [] {
      var older, e := log[..|log| - 1], log[|log| - 1];
      forall t: nat ensures RowFor(log, t).address <= e.address {
        if e.trigram != t && LastAddress(older, t).Some? {
          LastAddressBounds(data, older, t);
        }
      }
    }
  }

  // ---------------------------------------------------------------- posting lists as the meaning

  /** Two logs that record the same posting list for every trigram. */
  ghost predicate SamePostings(a: seq<Entry>, b: seq<Entry>) {
    forall t: nat :: Postings(a, t) == Postings(b, t)
  }

  ghost predicate AllDescending(log: seq<Entry>) {
    forall t: nat :: StrictlyDescending(Postings(log, t))
  }

  lemma SnocEntry(log: seq<Entry>, e: Entry, t: nat)
    ensures Postings(log + [e], t) == if e.trigram == t then e.ids + Postings(log, t) else Postings(log, t)
    ensures LastAddress(log + [e], t) == if e.trigram == t then Some(e.address) else LastAddress(log, t)
  {
    assert (log + [e])[..|log|] == log;
  }

  /** A block written at or after the end of the log extends the log. */
  lemma LaidSnoc(data: seq<byte>, log: seq<Entry>, e: Entry)
    requires Laid(data, log) && BlockIds(e.ids) && e.trigram < TRIGRAM_RANGE
    requires LogEnd(log) <= e.address && StandsAt(data, e.address, EntryBytes(log, e))
    ensures Laid(data, log + [e])
    ensures LogEnd(log + [e]) == e.address + |EntryBytes(log, e)|
  {
    assert (log + [e])[..|log|] == log;
  }
}
