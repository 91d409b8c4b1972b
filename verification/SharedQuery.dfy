/**
 A query at work while the journal it reads is being written (`query`, src/worker/journal.rs).  Under
 the lock it opens the data file and reads the tail rows of its trigrams; from then on batches append
 to that file and defrags put another in its place, at any time between its own steps.  Its answer is
 that of the log which was committed when it read the tail.
 */
module SharedQuery {
  import opened Bytes
  import opened JournalLog
  import opened JournalDisk
  import opened Journal
  import opened Cursor
  import opened TrigramQuery
  import opened QueryNetwork
  import opened QueryProgress

  /**
   `handle` is what the file that the query has opened holds now; `shared` says that it still is the
   journal's data file.  `rows` are the tail rows that the query has read.
   */
  datatype World = World(disk: Disk, shared: bool, handle: seq<byte>, rows: map<nat, Row>, query: State)

  /** A change of the journal's files, or a step of some actor of the query. */
  datatype Event = Changes(next: Disk) | Acts(actor: Actor)

  // ---------------------------------------------------------------- the changes that writers make

  /** The renaming of a defragmented data file into place. */
  predicate Replaces(d: Disk, d': Disk) {
    d.dotData.Some? && d' == DataInstalled(d)
  }

  /** Writers append to the data file, or put another in its place. */
  predicate Moves(d: Disk, d': Disk) {
    d.data <= d'.data || Replaces(d, d')
  }

  ghost predicate AllMove(states: seq<Disk>) {
    forall k :: 0 <= k < |states| - 1 ==> Moves(states[k], states[k + 1])
  }

  /** Every state that a batch takes the files through is a move from the one before it. */
  lemma BatchMoves(d: Disk, before: seq<Disk>, after: seq<Disk>, now: seq<byte>)
    requires Growing(d.data, before, after, now)
    ensures AllMove([d] + after[|before|..])
  {
    var states := [d] + after[|before|..];
    forall k | 0 <= k < |states| - 1 ensures states[k].data <= states[k + 1].data {
      assert states[k + 1] == after[|before| + k];
      if k > 0 { assert states[k] == after[|before| + k - 1]; }
    }
  }

  /** And so is every state that a defrag takes them through. */
  lemma DefragMoves(d: Disk, newData: seq<byte>, tail: Tail)
    ensures AllMove([d] + DefragSteps(d, newData, tail))
  {
    var states := [d] + DefragSteps(d, newData, tail);
    forall k | 0 <= k < |states| - 1 ensures Moves(states[k], states[k + 1]) {
      if k == 2 { assert Replaces(states[2], states[3]); }
    }
  }

  /**
   A query may take its snapshot in any state that is not inside the two renames done under the lock:
   the main files then hold the log from before the defrag or the one from after it.
   */
  lemma DefragStands(d: Disk, newData: seq<byte>, tail: Tail, log: seq<Entry>, cur: seq<Entry>)
    requires Standing(d, log) && Laid(newData, cur) && TailMatches(tail, cur) && tail.generation.Some?
    ensures var steps := DefragSteps(d, newData, tail);
            Standing(steps[0], log) && Standing(steps[1], log) && Standing(steps[3], cur)
  {
    InstalledIsCommitted(d, newData, tail, cur);
  }

  // ---------------------------------------------------------------- what the query reads

  /** The row of a trigram; trigrams have 24 bits. */
  function RowAt(tail: Tail, t: nat): Row {
    if t < |tail.rows| then tail.rows[t] else Row(0, 0)
  }

  /** What a reader of the open file finds for a trigram: nothing more once it meets a broken block. */
  function ListIn(handle: seq<byte>, row: Row): seq<int> {
    match ReadChain(handle, row.Address())
    case None => []
    case Some(ids) => ids
  }

  /** The query has just opened the data file and read its tail rows. */
  ghost function Snapshot(query: Query, d: Disk, start: State): World
    requires d.tail.Some?
  {
    World(d, true, d.data, map t | t in UsedTrigrams(query.expressions) :: RowAt(d.tail.value, t), start)
  }

  /** One event, or nothing when it cannot happen now. */
  ghost function WorldStep(query: Query, w: World, e: Event): Option<World> {
    match e
    case Changes(next) =>
      if Replaces(w.disk, next) then Some(w.(disk := next, shared := false))
      else if w.disk.data <= next.data then Some(w.(disk := next, handle := if w.shared then next.data else w.handle))
      else None
    case Acts(a) =>
      if !Shaped(query, w.query) then None
      else
        match SharedAct(query, w, a)
        case None => None
        case Some(s) => Some(w.(query := s))
  }

  /** A step of the network in which readers read the open file. */
  ghost function SharedAct(query: Query, w: World, a: Actor): Option<State>
    requires Shaped(query, w.query)
  {
    match a
    case Read(t) =>
      if t !in w.query.readers || w.query.readers[t].closed || t !in w.rows then None
      else
        var sent, all := w.query.readers[t].sent, ListIn(w.handle, w.rows[t]);
        if |sent| >= |all| then Some(w.query.(readers := w.query.readers[t := Reader(sent, true)]))
        else if all[|sent|] < 0 then None
        else Some(w.query.(readers := w.query.readers[t := Reader(sent + [all[|sent|]], false)]))
    case _ => Act(query, [], w.query, a)
  }

  ghost function WorldRun(query: Query, w: World, events: seq<Event>): Option<World>
    decreases |events|
  {
    if events == [] then Some(w)
    else
      match WorldStep(query, w, events[0])
      case None => None
      case Some(w') => WorldRun(query, w', events[1..])
  }

  // ---------------------------------------------------------------- the snapshot holds

  /** The open file and the rows read still hold the log of the snapshot. */
  ghost predicate Snapped(query: Query, w: World, log: seq<Entry>) {
    && Laid(w.handle, log) && (w.shared ==> w.handle == w.disk.data)
    && w.rows.Keys == UsedTrigrams(query.expressions)
    && forall t :: t in w.rows ==> w.rows[t] == RowFor(log, t)
  }

  lemma SnapshotHolds(query: Query, d: Disk, log: seq<Entry>, start: State)
    requires Standing(d, log)
    ensures Snapped(query, Snapshot(query, d, start), log)
  {
    forall t: nat | t >= TRIGRAM_RANGE ensures RowFor(log, t) == Row(0, 0) {
      NoForeignPostings(log, t);
      NoAddressNoPostings(log, t);
    }
  }

  /** Whatever is appended to the file, it reads as before. */
  lemma GrownLaid(data: seq<byte>, grown: seq<byte>, log: seq<Entry>)
    requires Laid(data, log) && data <= grown
    ensures Laid(grown, log)
  {
    LogEndBounds(data, log);
    assert grown[..|data|] == data;
    assert data[..LogEnd(log)] == grown[..|data|][..LogEnd(log)] == grown[..LogEnd(log)];
    LaidByPrefix(data, grown, log);
  }

  lemma ListIsPostings(handle: seq<byte>, log: seq<Entry>, t: nat)
    requires Laid(handle, log)
    ensures ListIn(handle, RowFor(log, t)) == Postings(log, t)
  {
    RowAddress(handle, log, t);
    ChainReads(handle, log, t);
  }

  /** A step of the network over the open file is a step over the log of the snapshot. */
  lemma SharedIsAct(query: Query, w: World, log: seq<Entry>, a: Actor)
    requires Snapped(query, w, log) && Shaped(query, w.query)
    ensures SharedAct(query, w, a) == Act(query, log, w.query, a)
  {
    if a.Read? && a.trigram in w.rows {
      ListIsPostings(w.handle, log, a.trigram);
    }
    hide Laid; hide RowFor; hide ListIn; hide Postings; hide Connected; hide Seen; hide Moved; hide Offer;
  }

  lemma StepKeepsSnapshot(query: Query, w: World, log: seq<Entry>, e: Event)
    requires Snapped(query, w, log) && WorldStep(query, w, e).Some?
    ensures Snapped(query, WorldStep(query, w, e).value, log)
  {
    if e.Changes? && w.shared && !Replaces(w.disk, e.next) {
      GrownLaid(w.handle, e.next.data, log);
    }
    hide Laid; hide RowFor; hide SharedAct; hide Shaped;
  }

  /** The steps of the query among the events. */
  function ActorsOf(events: seq<Event>): seq<Actor> {
    if events == [] then []
    else (if events[0].Acts? then [events[0].actor] else []) + ActorsOf(events[1..])
  }

  /** However writers come in between, the query runs as it would on the log of the snapshot. */
  lemma {:induction false} RunProjects(query: Query, rank: map<nat, nat>, log: seq<Entry>, w: World, events: seq<Event>)
    requires Snapped(query, w, log) && Inv(query, rank, log, w.query) && WorldRun(query, w, events).Some?
    ensures Run(query, rank, log, w.query, ActorsOf(events)) == Some(WorldRun(query, w, events).value.query)
    ensures Snapped(query, WorldRun(query, w, events).value, log)
    decreases |events|
  {
    if events != [] {
      var e, rest := events[0], events[1..];
      var w' := WorldStep(query, w, e).value;
      StepProjects(query, rank, log, w, e, rest);
      hide Snapped; hide Inv; hide WorldStep; hide Run;
      RunProjects(query, rank, log, w', rest);
    }
  }

  /** One event: a step of the query is one on the log, and a change of the files is none. */
  lemma StepProjects(query: Query, rank: map<nat, nat>, log: seq<Entry>, w: World, e: Event, rest: seq<Event>)
    requires Snapped(query, w, log) && Inv(query, rank, log, w.query) && WorldStep(query, w, e).Some?
    ensures var w' := WorldStep(query, w, e).value;
            && Snapped(query, w', log) && Inv(query, rank, log, w'.query)
            && Run(query, rank, log, w.query, (if e.Acts? then [e.actor] else []) + ActorsOf(rest))
               == Run(query, rank, log, w'.query, ActorsOf(rest))
  {
    assert Shaped(query, w.query);
    StepKeepsSnapshot(query, w, log, e);
    hide Snapped; hide Inv; hide Shaped; hide SharedAct; hide Act;
    if e.Acts? {
      SharedIsAct(query, w, log, e.actor);
      ActKeeps(query, rank, log, w.query, e.actor);
      assert ([e.actor] + ActorsOf(rest))[1..] == ActorsOf(rest);
    } else {
      assert [] + ActorsOf(rest) == ActorsOf(rest);
    }
  }

  /** A query is over, after these events since its snapshot of the files. */
  ghost predicate EndsIn(query: Query, d: Disk, events: seq<Event>, end: World)
    requires d.tail.Some? && Registered(query, query.root)
  {
    WorldRun(query, Snapshot(query, d, Start(query).value), events) == Some(end) && end.query.finished
  }

  /** A query that ends returns, newest first, exactly the ids of the formula in the log of its snapshot. */
  lemma SharedExact(query: Query, rank: map<nat, nat>, d: Disk, log: seq<Entry>, events: seq<Event>, end: World)
    requires Sound(query.expressions, rank) && Registered(query, query.root)
    requires Standing(d, log) && AllDescending(log) && EndsIn(query, d, events, end)
    ensures StrictlyDescending(end.query.output)
    ensures forall x: nat :: x in end.query.output <==> Holds(query.expressions, rank, HasId(log, x), query.root)
  {
    var start := Started(query, rank, log);
    SnapshotHolds(query, d, log, start);
    RunProjects(query, rank, log, Snapshot(query, d, start), events);
    hide *;
    QueryExact(query, rank, log, ActorsOf(events), end.query);
  }

  /** And whatever writers do, a query can always be carried on to its end. */
  lemma SharedCanFinish(query: Query, rank: map<nat, nat>, log: seq<Entry>, w: World)
    returns (events: seq<Event>, end: World)
    requires Snapped(query, w, log) && Inv(query, rank, log, w.query)
    ensures WorldRun(query, w, events) == Some(end) && end.query.finished
  {
    var schedule := CanFinish(query, rank, log, w.query);
    events := Alone(schedule);
    end := RunLifts(query, rank, log, w, schedule);
  }

  function Alone(schedule: seq<Actor>): (r: seq<Event>)
    ensures |r| == |schedule|
  {
    seq(|schedule|, i requires 0 <= i < |schedule| => Acts(schedule[i]))
  }

  lemma {:induction false} RunLifts(query: Query, rank: map<nat, nat>, log: seq<Entry>, w: World, schedule: seq<Actor>)
    returns (end: World)
    requires Snapped(query, w, log) && Inv(query, rank, log, w.query) && Run(query, rank, log, w.query, schedule).Some?
    ensures WorldRun(query, w, Alone(schedule)) == Some(end)
            && end.query == Run(query, rank, log, w.query, schedule).value
    decreases |schedule|
  {
    if schedule == [] {
      end := w;
    } else {
      AloneCons(schedule);
      hide *;
      ActHappens(query, rank, log, w, schedule);
      var w' := WorldStep(query, w, Acts(schedule[0])).value;
      end := RunLifts(query, rank, log, w', schedule[1..]);
      RunCons(query, w, Acts(schedule[0]), Alone(schedule[1..]), w');
    }
  }

  lemma AloneCons(schedule: seq<Actor>)
    requires schedule != []
    ensures Alone(schedule) == [Acts(schedule[0])] + Alone(schedule[1..])
  {
  }

  lemma RunCons(query: Query, w: World, e: Event, rest: seq<Event>, w': World)
    requires WorldStep(query, w, e) == Some(w')
    ensures WorldRun(query, w, [e] + rest) == WorldRun(query, w', rest)
  {
    hide WorldStep;
    assert ([e] + rest)[1..] == rest;
  }

  /** The first step of a schedule that runs on the log of the snapshot. */
  lemma ActHappens(query: Query, rank: map<nat, nat>, log: seq<Entry>, w: World, schedule: seq<Actor>)
    requires Snapped(query, w, log) && Inv(query, rank, log, w.query) && schedule != []
    requires Run(query, rank, log, w.query, schedule).Some?
    ensures var next := WorldStep(query, w, Acts(schedule[0]));
            && next.Some? && Snapped(query, next.value, log) && Inv(query, rank, log, next.value.query)
            && Run(query, rank, log, w.query, schedule) == Run(query, rank, log, next.value.query, schedule[1..])
  {
    var a := schedule[0];
    assert Shaped(query, w.query);
    hide Shaped; hide Snapped; hide WorkerInv; hide ReaderInv; hide Stream; hide Sent; hide SharedAct; hide Act;
    SharedIsAct(query, w, log, a);
    ActKeeps(query, rank, log, w.query, a);
    StepKeepsSnapshot(query, w, log, Acts(a));
  }

  // ---------------------------------------------------------------- readers, chunk by chunk

  const U64 := 0x1_0000_0000_0000_0000

  ghost predicate SmallIds(log: seq<Entry>) {
    forall t: nat, i :: 0 <= i < |Postings(log, t)| ==> Postings(log, t)[i] < U64
  }

  /** Addresses and ids of a journal are 64 bit numbers when its file is that short and its lists hold such ids. */
  lemma {:induction false} JournalFits(data: seq<byte>, log: seq<Entry>)
    requires Laid(data, log) && |data| <= U64 && SmallIds(log)
    ensures Fits64(log)
    decreases |log|
  {
    if log != [] {
      var n := |log| - 1;
      LogEndBounds(data, log);
      LastPostings(log, log[n]);
      JournalFits(data, log[..n]);
      assert log[n].address < |data|;
      hide Laid; hide Postings; hide SmallIds;
      assert log == log[..n] + [log[n]];
    }
  }

  lemma LastPostings(log: seq<Entry>, e: Entry)
    requires log != [] && SmallIds(log) && e == log[|log| - 1]
    ensures SmallIds(log[..|log| - 1]) && forall id :: id in e.ids ==> id < U64
  {
    var older := log[..|log| - 1];
    forall t: nat, i | 0 <= i < |Postings(older, t)| ensures Postings(older, t)[i] < U64 {
      var skipped := if e.trigram == t then |e.ids| else 0;
      assert Postings(log, t)[skipped + i] == Postings(older, t)[i];
    }
    forall id | id in e.ids ensures id < U64 {
      var i :| 0 <= i < |e.ids| && e.ids[i] == id;
      assert Postings(log, e.trigram)[i] == id;
    }
  }

  /**
   What the reader of one trigram sends, working through the open file chunk by chunk while the file
   grows: the list that its steps in the network take one by one, as far as anybody receives it.
   */
  method ReadRow(d: Disk, t: nat, leaves: Option<nat>, ghost log: seq<Entry>) returns (ok: bool, sent: seq<nat>)
    requires Standing(d, log) && t < TRIGRAM_RANGE && |d.data| <= U64 && SmallIds(log)
    ensures ok && ListIn(d.data, RowAt(d.tail.value, t)) == Postings(log, t)
    ensures sent == Taken(Postings(log, t), leaves)
  {
    JournalFits(d.data, log);
    ListIsPostings(d.data, log, t);
    var row := d.tail.value.rows[t];
    if row.address == 0 {
      NothingUnopened(d.data, log, t);
      return true, [];
    }
    var pool := new PooledFile(d.data);
    ok, sent := TrigramReader(pool, row.address, leaves, log, t);
  }
}
