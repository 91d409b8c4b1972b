/**
 The feeder that moves files from the table into the journal (`_ingest_feeder`,
 src/worker/manager.rs), with files being inserted and abandoned at any time.
 */
module IngestFeeder {
  import opened Bytes
  import opened Encoding
  import opened Collector
  import J = JournalRuns
  import opened Trigrams
  import opened Ingest

  /** Where the feeder stands: between rounds, with a batch chosen, or with it written but not marked. */
  datatype Phase = Idle | Chosen(batch: seq<(nat, nat)>) | Written(batch: seq<(nat, nat)>)

  /** `Write` carries what could be loaded, by number; `Refuse` is a journal that is shutting down. */
  datatype Event =
    | Insert(files: seq<nat>)
    | Abandon(hash: nat)
    | Choose(limit: nat)
    | Write(loaded: map<nat, seq<byte>>)
    | Refuse
    | Finish
    | Crash

  /** A batch that was written, and what of it could be loaded. */
  datatype Handed = Handed(batch: seq<(nat, nat)>, loaded: map<nat, seq<byte>>)

  /** The ids that the journal has been given. */
  ghost function WrittenIds(history: seq<seq<PackedFile>>): set<nat> {
    set k, f | 0 <= k < |history| && f in history[k] :: f.id
  }

  ghost predicate AllBelow(ids: set<nat>, bound: set<nat>) {
    forall w, n :: w in ids && n in bound ==> w < n
  }

  ghost function WaitingNumbers(rows: Table): set<nat> {
    set n | n in rows && !rows[n].ingested
  }

  /** The packed file stands for ascending trigrams in range, as `BuildFile` leaves it. */
  ghost predicate GoodPack(bytes: seq<byte>) {
    forall t :: t in StreamFrom(0, bytes) ==> t < TRIGRAM_RANGE
  }

  ghost predicate GoodLoads(loaded: map<nat, seq<byte>>) {
    forall n :: n in loaded ==> GoodPack(loaded[n])
  }

  /** The batches as the journal was given them. */
  function Batches(writes: seq<Handed>): (r: seq<seq<PackedFile>>)
    ensures |r| == |writes|
  {
    seq(|writes|, i requires 0 <= i < |writes| => Loaded(writes[i].batch, writes[i].loaded))
  }

  ghost predicate InBatchAt(writes: seq<Handed>, k: nat, n: nat) {
    k < |writes| && n in Numbers(writes[k].batch)
  }

  /** The numbers of every batch that was written, loaded or not. */
  ghost function Given(writes: seq<Handed>): set<nat> {
    set k, n | 0 <= k < |writes| && n in Numbers(writes[k].batch) :: n
  }

  /** Each batch is in order and lies above all before it. */
  ghost predicate Rising(writes: seq<Handed>) {
    && (forall k :: 0 <= k < |writes| ==> InOrder(writes[k].batch) && GoodLoads(writes[k].loaded))
    && (forall i: nat, j: nat, a, b :: i < j && InBatchAt(writes, i, a) && InBatchAt(writes, j, b) ==> a < b)
  }

  /**
   What holds between any two steps: batches rise, what waits lies above them all but for a batch
   that is written and not yet marked, and whatever is marked was in some batch.
   */
  ghost predicate Tracked(rows: Table, next: nat, phase: Phase, writes: seq<Handed>) {
    && Rising(writes)
    && (forall g :: g in Given(writes) ==> g < next)
    && (forall n :: n in rows && rows[n].ingested ==> n in Given(writes))
    && (!phase.Idle? ==>
          && InOrder(phase.batch) && After(rows, Numbers(phase.batch))
          && forall m :: m in Numbers(phase.batch) ==> m < next)
    && (!phase.Written? ==> AllBelow(Given(writes), WaitingNumbers(rows)))
    && (phase.Chosen? ==> AllBelow(Given(writes), Numbers(phase.batch)))
    && (phase.Written? ==>
          && AllBelow(Given(writes), WaitingNumbers(rows) - Numbers(phase.batch))
          && writes != [] && writes[|writes| - 1].batch == phase.batch)
  }

  lemma StillBelow(ids: set<nat>, bound: set<nat>, bound': set<nat>, next: nat)
    requires AllBelow(ids, bound) && (forall w :: w in ids ==> w < next)
    requires forall n :: n in bound' ==> n in bound || next <= n
    ensures AllBelow(ids, bound')
  {
  }

  lemma WaitingBelow(rows: Table, next: nat, phase: Phase, writes: seq<Handed>, rows': Table)
    requires Tracked(rows, next, phase, writes)
    requires forall n :: Waiting(rows', n) ==> Waiting(rows, n) || next <= n
    ensures phase.Written? ==> AllBelow(Given(writes), WaitingNumbers(rows') - Numbers(phase.batch))
    ensures !phase.Written? ==> AllBelow(Given(writes), WaitingNumbers(rows'))
    ensures !phase.Idle? ==> After(rows', Numbers(phase.batch))
  {
    forall n | n in WaitingNumbers(rows') ensures n in WaitingNumbers(rows) || next <= n {
      assert Waiting(rows', n);
    }
    var ids := Given(writes);
    if phase.Written? {
      StillBelow(ids, WaitingNumbers(rows) - Numbers(phase.batch), WaitingNumbers(rows') - Numbers(phase.batch), next);
    } else {
      StillBelow(ids, WaitingNumbers(rows), WaitingNumbers(rows'), next);
    }
  }

  /** New rows get numbers above everything written and everything chosen. */
  lemma InsertSafe(rows: Table, next: nat, phase: Phase, writes: seq<Handed>, rows': Table, next': nat)
    requires Tracked(rows, next, phase, writes) && Grown(rows, rows', next) && next <= next'
    ensures Tracked(rows', next', phase, writes)
  {
    forall n | Waiting(rows', n) ensures Waiting(rows, n) || next <= n {
      assert n in rows ==> rows'[n] == rows[n];
    }
    WaitingBelow(rows, next, phase, writes, rows');
    hide Rising; hide Given; hide AllBelow; hide WaitingNumbers; hide Numbers; hide InOrder; hide After;
    forall n | n in rows' && rows'[n].ingested ensures n in Given(writes) {
      assert n in rows && rows[n] == rows'[n];
    }
  }

  /** Taking rows away leaves fewer waiting and fewer marked. */
  lemma FewerSafe(rows: Table, next: nat, phase: Phase, writes: seq<Handed>, rows': Table)
    requires Tracked(rows, next, phase, writes)
    requires forall n :: n in rows' ==> n in rows && rows'[n] == rows[n]
    ensures Tracked(rows', next, phase, writes)
  {
    assert forall n :: Waiting(rows', n) ==> Waiting(rows, n);
    WaitingBelow(rows, next, phase, writes, rows');
    hide Rising; hide Given; hide AllBelow; hide WaitingNumbers; hide Numbers; hide InOrder; hide After;
  }

  lemma ChooseSafe(rows: Table, next: nat, writes: seq<Handed>, batch: seq<(nat, nat)>)
    requires Tracked(rows, next, Idle, writes) && LowestWaiting(rows, batch) && forall n :: n in rows ==> n < next
    ensures Tracked(rows, next, Chosen(batch), writes)
  {
    forall m | m in Numbers(batch) ensures m in WaitingNumbers(rows) {
      var i :| 0 <= i < |batch| && batch[i].0 == m;
      assert Waiting(rows, m);
    }
  }

  /** The files of a batch that could be loaded. */
  function Loaded(batch: seq<(nat, nat)>, loaded: map<nat, seq<byte>>): seq<PackedFile> {
    if batch == [] then []
    else
      var n, more := batch[0].0, Loaded(batch[1..], loaded);
      if n in loaded then [PackedFile(n, loaded[n])] + more else more
  }

  lemma {:induction false} LoadedFacts(batch: seq<(nat, nat)>, loaded: map<nat, seq<byte>>)
    requires InOrder(batch) && GoodLoads(loaded)
    ensures var files := Loaded(batch, loaded);
            && (forall f :: f in files <==> f.id in Numbers(batch) && f.id in loaded && f.bytes == loaded[f.id])
            && (forall i, j :: 0 <= i < j < |files| ==> files[i].id < files[j].id)
  {
    if batch != [] {
      var rest := batch[1..];
      LoadedFacts(rest, loaded);
      assert batch == [batch[0]] + rest;
      FirstNumber(batch);
      var more := Loaded(rest, loaded);
      forall k | 0 <= k < |more| ensures batch[0].0 < more[k].id {
        assert more[k] in more;
      }
    }
  }

  lemma FirstNumber(batch: seq<(nat, nat)>)
    requires batch != [] && InOrder(batch)
    ensures Numbers(batch) == {batch[0].0} + Numbers(batch[1..])
    ensures forall n :: n in Numbers(batch[1..]) ==> batch[0].0 < n
  {
    var rest := batch[1..];
    forall n | n in Numbers(rest) ensures n in Numbers(batch) && batch[0].0 < n {
      var i :| 0 <= i < |rest| && rest[i].0 == n;
      assert batch[i + 1].0 == n;
    }
    forall n | n in Numbers(batch) ensures n == batch[0].0 || n in Numbers(rest) {
      var i :| 0 <= i < |batch| && batch[i].0 == n;
      if i > 0 { assert rest[i - 1].0 == n; }
    }
  }

  lemma LoadedProper(batch: seq<(nat, nat)>, loaded: map<nat, seq<byte>>)
    requires InOrder(batch) && GoodLoads(loaded)
    ensures ProperFiles(Loaded(batch, loaded))
  {
    LoadedFacts(batch, loaded);
    var files := Loaded(batch, loaded);
    forall i | 0 <= i < |files|
      ensures NonDecreasing(files[i].Unpack().trigrams)
      ensures forall t :: t in files[i].Unpack().trigrams ==> t < TRIGRAM_RANGE
    {
      assert files[i] in files;
      assert GoodPack(loaded[files[i].id]);
    }
  }

  /** Writing a chosen batch, whatever of it could be loaded. */
  lemma WriteSafe(rows: Table, next: nat, batch: seq<(nat, nat)>, writes: seq<Handed>, loaded: map<nat, seq<byte>>)
    requires Tracked(rows, next, Chosen(batch), writes) && GoodLoads(loaded)
    ensures Tracked(rows, next, Written(batch), writes + [Handed(batch, loaded)])
  {
    var longer := writes + [Handed(batch, loaded)];
    GivenSnoc(writes, Handed(batch, loaded));
    RisingSnoc(writes, batch, loaded);
    hide Rising; hide Given; hide InOrder; hide GoodLoads; hide Numbers;
    forall w, n | w in Given(longer) && n in WaitingNumbers(rows) - Numbers(batch) ensures w < n {
      if w in Numbers(batch) { AfterBatch(rows, Numbers(batch), w, n); }
    }
  }

  lemma GivenSnoc(writes: seq<Handed>, one: Handed)
    ensures Given(writes + [one]) == Given(writes) + Numbers(one.batch)
  {
    var longer := writes + [one];
    assert longer[|writes|] == one;
    forall n | n in Given(writes) ensures n in Given(longer) {
      var k :| 0 <= k < |writes| && n in Numbers(writes[k].batch);
      assert longer[k] == writes[k];
    }
  }

  lemma RisingSnoc(writes: seq<Handed>, batch: seq<(nat, nat)>, loaded: map<nat, seq<byte>>)
    requires Rising(writes) && InOrder(batch) && GoodLoads(loaded) && AllBelow(Given(writes), Numbers(batch))
    ensures Rising(writes + [Handed(batch, loaded)])
  {
    hide InOrder; hide GoodLoads; hide Numbers;
    var longer := writes + [Handed(batch, loaded)];
    forall i: nat, j: nat, a, b | i < j && InBatchAt(longer, i, a) && InBatchAt(longer, j, b) ensures a < b {
      assert InBatchAt(writes, i, a) && longer[i] == writes[i];
      if j < |writes| {
        assert InBatchAt(writes, j, b);
      } else {
        assert a in Given(writes) && b in Numbers(batch);
      }
    }
  }

  lemma AfterBatch(rows: Table, numbers: set<nat>, m: nat, n: nat)
    requires After(rows, numbers) && m in numbers && n in WaitingNumbers(rows) - numbers
    ensures m < n
  {
    assert Waiting(rows, n);
  }

  lemma FinishSafe(rows: Table, next: nat, batch: seq<(nat, nat)>, writes: seq<Handed>)
    requires Tracked(rows, next, Written(batch), writes)
    ensures Tracked(Marked(rows, Numbers(batch)), next, Idle, writes)
  {
    var rows' := Marked(rows, Numbers(batch));
    forall n | n in WaitingNumbers(rows') ensures n in WaitingNumbers(rows) - Numbers(batch) {
    }
    var k := |writes| - 1;
    forall n | n in rows' && rows'[n].ingested ensures n in Given(writes) {
      if n in Numbers(batch) { assert n in Numbers(writes[k].batch); }
    }
    hide Rising;
  }

  // ---------------------------------------------------------------- what the journal is given

  /** Rising batches are a history as the journal asks for it. */
  lemma RisingHistory(writes: seq<Handed>)
    requires Rising(writes)
    ensures J.ProperHistory(Batches(writes)) && J.AscendingHistory(Batches(writes))
  {
    var history := Batches(writes);
    forall k | 0 <= k < |history| ensures ProperFiles(history[k]) {
      LoadedProper(writes[k].batch, writes[k].loaded);
    }
    forall i, j, f: PackedFile, g: PackedFile | 0 <= i < j < |history| && f in history[i] && g in history[j]
      ensures f.id < g.id
    {
      LoadedFacts(writes[i].batch, writes[i].loaded);
      LoadedFacts(writes[j].batch, writes[j].loaded);
      assert InBatchAt(writes, i, f.id) && InBatchAt(writes, j, g.id);
    }
  }

  /** A number of a batch reached the journal exactly when its trigrams could be loaded then. */
  lemma WrittenExactly(writes: seq<Handed>, k: nat, n: nat)
    requires Rising(writes) && InBatchAt(writes, k, n)
    ensures n in WrittenIds(Batches(writes)) <==> n in writes[k].loaded
  {
    var history := Batches(writes);
    LoadedFacts(writes[k].batch, writes[k].loaded);
    if n in writes[k].loaded {
      assert PackedFile(n, writes[k].loaded[n]) in history[k];
    }
    if n in WrittenIds(history) {
      var j, f: PackedFile :| 0 <= j < |history| && f in history[j] && f.id == n;
      LoadedFacts(writes[j].batch, writes[j].loaded);
      assert InBatchAt(writes, j, n);
      assert j == k;
    }
  }

  lemma WrittenWhere(writes: seq<Handed>, n: nat) returns (k: nat)
    requires Rising(writes) && n in WrittenIds(Batches(writes))
    ensures InBatchAt(writes, k, n) && n in writes[k].loaded
  {
    var history := Batches(writes);
    var j, f: PackedFile :| 0 <= j < |history| && f in history[j] && f.id == n;
    LoadedFacts(writes[j].batch, writes[j].loaded);
    k := j;
  }

  /** Every row marked as ingested is in the journal. */
  ghost predicate MarkedIsWritten(rows: Table, writes: seq<Handed>) {
    forall n :: n in rows && rows[n].ingested ==> n in WrittenIds(Batches(writes))
  }

  /** No row now marked was in a batch that could not load it. */
  ghost predicate AllLoaded(rows: Table, writes: seq<Handed>) {
    forall k: nat, n :: InBatchAt(writes, k, n) && n in rows && rows[n].ingested ==> n in writes[k].loaded
  }

  /** Exactly when everything marked is in the journal: when no load of a batch failed for a row still there. */
  lemma MarkedIsWrittenIff(rows: Table, next: nat, phase: Phase, writes: seq<Handed>)
    requires Tracked(rows, next, phase, writes)
    ensures MarkedIsWritten(rows, writes) <==> AllLoaded(rows, writes)
  {
    assert Rising(writes);
    hide Rising; hide Batches; hide WrittenIds; hide Numbers;
    forall k: nat, n | InBatchAt(writes, k, n)
      ensures n in WrittenIds(Batches(writes)) <==> n in writes[k].loaded
    {
      WrittenExactly(writes, k, n);
    }
    forall n | n in rows && rows[n].ingested ensures exists k: nat :: InBatchAt(writes, k, n) {
      assert n in Given(writes);
      var k :| 0 <= k < |writes| && n in Numbers(writes[k].batch);
      assert InBatchAt(writes, k, n);
    }
  }

  // ---------------------------------------------------------------- runs of the feeder

  /** What the trigram cache holds, packed by `BuildFile` from the content of each file, can be written. */
  lemma PackedLoads(loaded: map<nat, seq<byte>>, content: map<nat, seq<byte>>)
    requires forall n :: n in loaded ==> n in content && PackedTrigrams(loaded[n], content[n])
    ensures GoodLoads(loaded)
  {
  }

  /** Every write is followed by its finish before any crash. */
  predicate Orderly(events: seq<Event>, written: bool)
    decreases |events|
  {
    events == []
    || (match events[0]
        case Write(_) => Orderly(events[1..], true)
        case Finish => Orderly(events[1..], false)
        case Crash => !written && Orderly(events[1..], false)
        case _ => Orderly(events[1..], written))
  }

  ghost predicate GoodEvents(events: seq<Event>) {
    forall i :: 0 <= i < |events| && events[i].Write? ==> GoodLoads(events[i].loaded)
  }

  // ---------------------------------------------------------------- one step

  /** The table and the feeder between two steps. */
  datatype State = State(files: Numbered, phase: Phase, writes: seq<Handed>)

  /** What holds of every state of a run. */
  ghost predicate Kept(s: State) {
    && Tracked(s.files.rows, s.files.next, s.phase, s.writes)
    && UniqueHashes(s.files.rows) && forall n :: n in s.files.rows ==> n < s.files.next
  }

  /** What an idle feeder may do with the waiting rows: take those with the lowest numbers, as many as it may. */
  ghost predicate Takes(rows: Table, limit: nat, phase: Phase) {
    match phase
    case Idle => limit == 0 || WaitingNumbers(rows) == {}
    case Chosen(batch) =>
      && batch != [] && LowestWaiting(rows, batch) && |batch| <= limit
      && (|batch| < limit ==> WaitingNumbers(rows) <= Numbers(batch))
    case Written(_) => false
  }

  /** What each event does; events that do not fit the phase do nothing. */
  ghost predicate Steps(s: State, event: Event, t: State) {
    match event
    case Insert(files) => t == s.(files := AllEntered(s.files, files))
    case Abandon(hash) =>
      t == s.(files := s.files.(rows := map n | n in s.files.rows && s.files.rows[n].hash != hash :: s.files.rows[n]))
    case Choose(limit) =>
      if s.phase.Idle? then t == s.(phase := t.phase) && Takes(s.files.rows, limit, t.phase) else t == s
    case Write(loaded) =>
      t == if s.phase.Chosen?
           then s.(phase := Written(s.phase.batch), writes := s.writes + [Handed(s.phase.batch, loaded)]) else s
    case Refuse => t == if s.phase.Chosen? then s.(phase := Idle) else s
    case Finish =>
      t == if s.phase.Written?
           then s.(files := s.files.(rows := Marked(s.files.rows, Numbers(s.phase.batch))), phase := Idle) else s
    case Crash => t == s.(phase := Idle)
  }

  lemma TakesFound(rows: Table, limit: nat, batch: seq<(nat, nat)>)
    requires LowestWaiting(rows, batch) && |batch| <= limit
    requires |batch| < limit ==> forall n :: Waiting(rows, n) ==> n in Numbers(batch)
    ensures Takes(rows, limit, if batch == [] then Idle else Chosen(batch))
  {
    forall n | n in WaitingNumbers(rows) ensures Waiting(rows, n) {}
  }

  class Feeder {
    const table: FileTable
    var phase: Phase
    /** The batches that the journal was given: not part of the feeder, but of what is said about it. */
    var writes: seq<Handed>

    ghost predicate Valid()
      reads this, table
    {
      table.Valid() && Tracked(table.rows, table.next, phase, writes)
    }

    lemma ValidIsKept()
      ensures Valid() <==> Kept(Now())
    {
    }

    constructor ()
      ensures Valid() && fresh(table) && Now() == State(Numbered(map[], 1), Idle, [])
    {
      table := new FileTable();
      phase := Idle;
      writes := [];
    }

    ghost function Now(): State
      reads this, table
    {
      State(table.Now(), phase, writes)
    }

    /** One step of the feeder or of a command on the table. */
    method Step(event: Event)
      requires Valid() && (event.Write? ==> GoodLoads(event.loaded))
      requires event.Crash? ==> !phase.Written?
      modifies this, table
      ensures Valid() && Steps(old(Now()), event, Now())
      ensures phase.Written? ==> event.Write? || (old(phase).Written? && !event.Finish?)
      ensures writes == if event.Write? && old(phase).Chosen?
                        then old(writes) + [Handed(old(phase).batch, event.loaded)]
                        else old(writes)
    {
      hide Tracked;
      match event
      case Insert(files) =>
        ghost var rows, next := table.rows, table.next;
        var _ := table.IngestFiles(files);
        InsertSafe(rows, next, phase, writes, table.rows, table.next);
      case Abandon(hash) =>
        ghost var rows := table.rows;
        table.AbandonFile(hash);
        FewerSafe(rows, table.next, phase, writes, table.rows);
      case Choose(limit) =>
        if phase.Idle? {
          var batch := table.GetIngestBatch(limit);
          ChooseSafe(table.rows, table.next, writes, batch);
          TakesFound(table.rows, limit, batch);
          if batch != [] { phase := Chosen(batch); }
        }
      case Write(loaded) =>
        if phase.Chosen? {
          WriteSafe(table.rows, table.next, phase.batch, writes, loaded);
          writes := writes + [Handed(phase.batch, loaded)];
          phase := Written(phase.batch);
        }
      case Refuse =>
        if phase.Chosen? { BackToIdle(table.rows, table.next, phase, writes); phase := Idle; }
      case Finish =>
        if phase.Written? {
          FinishSafe(table.rows, table.next, phase.batch, writes);
          table.FinishedIngest(phase.batch);
          phase := Idle;
        }
      case Crash =>
        BackToIdle(table.rows, table.next, phase, writes);
        phase := Idle;
    }
  }

  lemma BackToIdle(rows: Table, next: nat, phase: Phase, writes: seq<Handed>)
    requires Tracked(rows, next, phase, writes) && !phase.Written?
    ensures Tracked(rows, next, Idle, writes)
  {
  }

  /** Everything loaded for a write comes from some write event. */
  ghost predicate FromEvents(writes: seq<Handed>, events: seq<Event>) {
    forall k :: 0 <= k < |writes| ==> exists i :: 0 <= i < |events| && events[i] == Write(writes[k].loaded)
  }

  /**
   Any run of the feeder, with files inserted and abandoned at any time and crashes anywhere but
   between a write and its finish: the batches given to the journal are proper, each exceeds all
   before it, as the journal's own theorems ask, and everything marked as ingested is in the journal
   exactly when no load failed for a row that is still there.
   */
  method Run(events: seq<Event>) returns (feeder: Feeder, ghost states: seq<State>)
    requires Orderly(events, false) && GoodEvents(events)
    ensures Trace(events, states) && states[0] == State(Numbered(map[], 1), Idle, [])
    ensures states[|events|] == feeder.Now() && forall k :: 0 <= k <= |events| ==> Kept(states[k])
    ensures fresh(feeder) && feeder.Valid() && FromEvents(feeder.writes, events)
    ensures J.ProperHistory(Batches(feeder.writes)) && J.AscendingHistory(Batches(feeder.writes))
    ensures MarkedIsWritten(feeder.table.rows, feeder.writes) <==> AllLoaded(feeder.table.rows, feeder.writes)
  {
    feeder := new Feeder();
    ghost var written := false;
    states := [feeder.Now()];
    feeder.ValidIsKept();
    assert events[0..] == events;
    for i := 0 to |events|
      invariant |states| == i + 1 && states[i] == feeder.Now()
      invariant states[0] == State(Numbered(map[], 1), Idle, [])
      invariant forall k :: 0 <= k < i ==> Steps(states[k], events[k], states[k + 1])
      invariant forall k :: 0 <= k <= i ==> Kept(states[k])
      invariant fresh(feeder) && fresh(feeder.table) && feeder.Valid()
      invariant Orderly(events[i..], written) && GoodEvents(events)
      invariant feeder.phase.Written? ==> written
      invariant FromEvents(feeder.writes, events)
    {
      NextEvent(events, i, written);
      hide Orderly; hide GoodEvents;
      hide Steps;
      ghost var before := feeder.writes;
      feeder.Step(events[i]);
      states := states + [feeder.Now()];
      feeder.ValidIsKept();
      StillFrom(before, feeder.writes, events, i);
      hide FromEvents;
      written := if events[i].Write? then true else if events[i].Finish? || events[i].Crash? then false else written;
    }
    RisingHistory(feeder.writes);
    MarkedIsWrittenIff(feeder.table.rows, feeder.table.next, feeder.phase, feeder.writes);
  }

  /** The states that a run goes through. */
  ghost predicate Trace(events: seq<Event>, states: seq<State>) {
    |states| == |events| + 1 && forall k :: 0 <= k < |events| ==> Steps(states[k], events[k], states[k + 1])
  }

  // ---------------------------------------------------------------- what a run brings about

  lemma {:induction false} OrderSize(batch: seq<(nat, nat)>)
    requires InOrder(batch)
    ensures |Numbers(batch)| == |batch|
  {
    if batch == [] {
      assert Numbers(batch) == {};
    } else {
      FirstNumber(batch);
      OrderSize(batch[1..]);
      assert batch[0].0 !in Numbers(batch[1..]);
    }
  }

  /** An idle feeder that may take a row takes some whenever any waits: as many as it may, the lowest first. */
  lemma TakesLowest(rows: Table, limit: nat, phase: Phase)
    requires Takes(rows, limit, phase)
    ensures phase.Chosen? <==> limit > 0 && WaitingNumbers(rows) != {}
    ensures phase.Chosen? ==>
              && InOrder(phase.batch) && Numbers(phase.batch) <= WaitingNumbers(rows)
              && |Numbers(phase.batch)| == Least(limit, |WaitingNumbers(rows)|)
              && forall n, m :: n in Numbers(phase.batch) && m in WaitingNumbers(rows) - Numbers(phase.batch) ==> n < m
  {
    if phase.Chosen? {
      var batch, numbers := phase.batch, Numbers(phase.batch);
      OrderSize(batch);
      forall n | n in numbers ensures n in WaitingNumbers(rows) {
        var i :| 0 <= i < |batch| && batch[i].0 == n;
        assert Waiting(rows, n);
      }
      forall n, m | n in numbers && m in WaitingNumbers(rows) - numbers ensures n < m {
        AfterBatch(rows, numbers, n, m);
      }
      assert batch[0].0 in numbers;
      SubsetSize(numbers, WaitingNumbers(rows));
      if |batch| < limit { assert numbers == WaitingNumbers(rows); }
    }
  }

  function Least(a: nat, b: nat): nat {
    if a < b then a else b
  }

  lemma {:induction false} SubsetSize(a: set<nat>, b: set<nat>)
    requires a <= b
    ensures |a| <= |b|
  {
    if x :| x in a {
      SubsetSize(a - {x}, b - {x});
    }
  }

  lemma MarkedWaiting(rows: Table, numbers: set<nat>)
    ensures WaitingNumbers(Marked(rows, numbers)) == WaitingNumbers(rows) - numbers
    ensures Marked(rows, numbers).Keys == rows.Keys
    ensures forall n :: n in rows ==> Marked(rows, numbers)[n].hash == rows[n].hash
  {
  }

  lemma LastWritten(writes: seq<Handed>, batch: seq<(nat, nat)>, loaded: map<nat, seq<byte>>, n: nat)
    requires InOrder(batch) && GoodLoads(loaded) && n in Numbers(batch) && n in loaded
    ensures n in WrittenIds(Batches(writes + [Handed(batch, loaded)]))
  {
    var history, k := Batches(writes + [Handed(batch, loaded)]), |writes|;
    LoadedFacts(batch, loaded);
    assert history[k] == Loaded(batch, loaded);
    assert PackedFile(n, loaded[n]) in history[k];
  }

  /**
   What a round of choosing, writing and marking brings about from any state in which the feeder is
   idle: the waiting rows with the lowest numbers, as many as may be taken, are marked and no others,
   and those that could be loaded are in the journal.
   */
  ghost predicate RoundDone(s: State, t: State, limit: nat, loaded: map<nat, seq<byte>>) {
    var before, after := WaitingNumbers(s.files.rows), WaitingNumbers(t.files.rows);
    && t.phase.Idle? && SameFiles(s.files.rows, t.files.rows)
    && after <= before && |before - after| == Least(limit, |before|)
    && (forall n, m :: n in before - after && m in after ==> n < m)
    && (forall n :: n in before - after && n in loaded ==> n in WrittenIds(Batches(t.writes)))
  }

  ghost predicate SameFiles(rows: Table, rows': Table) {
    rows'.Keys == rows.Keys && forall n :: n in rows ==> rows'[n].hash == rows[n].hash
  }

  lemma Round(s: State, a: State, b: State, t: State, limit: nat, loaded: map<nat, seq<byte>>)
    requires s.phase.Idle? && GoodLoads(loaded)
    requires Steps(s, Choose(limit), a) && Steps(a, Write(loaded), b) && Steps(b, Finish, t)
    ensures RoundDone(s, t, limit, loaded)
  {
    var rows := s.files.rows;
    TakesLowest(rows, limit, a.phase);
    if a.phase.Chosen? {
      var batch := a.phase.batch;
      assert t == State(s.files.(rows := Marked(rows, Numbers(batch))), Idle, s.writes + [Handed(batch, loaded)]);
      hide Steps;
      MarkedWaiting(rows, Numbers(batch));
      hide Marked; hide Takes; hide WaitingNumbers;
      assert WaitingNumbers(rows) - (WaitingNumbers(rows) - Numbers(batch)) == Numbers(batch);
      hide Numbers;
      forall n | n in Numbers(batch) && n in loaded ensures n in WrittenIds(Batches(t.writes)) {
        LastWritten(s.writes, batch, loaded, n);
      }
    } else {
      assert t == s && WaitingNumbers(rows) - WaitingNumbers(rows) == {};
    }
  }

  /** A batch that the journal refuses, or that is lost before it is written, is as if it had not been chosen. */
  lemma RefusedWaits(s: State, a: State, b: State, limit: nat, event: Event)
    requires s.phase.Idle? && Steps(s, Choose(limit), a) && (event.Refuse? || event.Crash?) && Steps(a, event, b)
    ensures b == s
  {
  }

  lemma LeftOver(before: set<nat>, after: set<nat>)
    requires after <= before
    ensures |before - after| == |before| - |after|
  {
    assert before - after + after == before;
  }

  /** In any run: what is inserted while the feeder is idle is marked after a round that may take all that waits. */
  lemma InsertedGetsMarked(events: seq<Event>, states: seq<State>, i: nat)
    requires Trace(events, states) && GoodEvents(events) && i + 4 <= |events|
    requires events[i].Insert? && events[i + 1].Choose? && events[i + 2].Write? && events[i + 3].Finish?
    requires states[i].phase.Idle? && Kept(states[i])
    requires |WaitingNumbers(states[i + 1].files.rows)| <= events[i + 1].limit
    ensures var rows, end := states[i + 1].files.rows, states[i + 4];
            && SameFiles(rows, end.files.rows)
            && (forall n :: n in end.files.rows ==> end.files.rows[n].ingested)
            && (forall h :: h in events[i].files ==> IsIngested(end.files.rows, h))
            && (forall n :: n in WaitingNumbers(rows) && n in events[i + 2].loaded ==>
                  n in WrittenIds(Batches(end.writes)))
  {
    var s, t := states[i + 1], states[i + 4];
    EnteredExactly(states[i].files, events[i].files);
    Round(s, states[i + 2], states[i + 3], t, events[i + 1].limit, events[i + 2].loaded);
    var before, after := WaitingNumbers(s.files.rows), WaitingNumbers(t.files.rows);
    LeftOver(before, after);
    forall n | n in t.files.rows ensures t.files.rows[n].ingested {
      assert n !in after;
    }
    forall h | h in events[i].files ensures IsIngested(t.files.rows, h) {
      var n :| n in s.files.rows && s.files.rows[n].hash == h;
      assert t.files.rows[n] == Row(h, true);
    }
  }

  /** From the `i`-th event on, so many rounds that may each take a row, and nothing else. */
  ghost predicate RoundsAt(events: seq<Event>, i: nat, rounds: nat)
    decreases rounds
  {
    rounds == 0
    || (&& i + 3 <= |events| && events[i].Choose? && events[i].limit > 0
        && events[i + 1].Write? && events[i + 2].Finish? && RoundsAt(events, i + 3, rounds - 1))
  }

  /** However few rows a round may take, a round for each waiting row marks them all. */
  lemma {:induction false} RoundsDrain(events: seq<Event>, states: seq<State>, i: nat, rounds: nat)
    requires Trace(events, states) && GoodEvents(events) && RoundsAt(events, i, rounds) && i <= |events|
    requires states[i].phase.Idle? && |WaitingNumbers(states[i].files.rows)| <= rounds
    ensures i + 3 * rounds <= |events| && states[i + 3 * rounds].phase.Idle?
    ensures SameFiles(states[i].files.rows, states[i + 3 * rounds].files.rows)
    ensures WaitingNumbers(states[i + 3 * rounds].files.rows) == {}
    decreases rounds
  {
    if rounds > 0 {
      var s, t := states[i], states[i + 3];
      Round(s, states[i + 1], states[i + 2], t, events[i].limit, events[i + 1].loaded);
      LeftOver(WaitingNumbers(s.files.rows), WaitingNumbers(t.files.rows));
      hide WaitingNumbers; hide GoodEvents; hide Trace;
      RoundsDrain(events, states, i + 3, rounds - 1);
    }
  }

  lemma StillFrom(before: seq<Handed>, after: seq<Handed>, events: seq<Event>, i: nat)
    requires FromEvents(before, events) && i < |events|
    requires || after == before
             || (events[i].Write? && exists batch :: after == before + [Handed(batch, events[i].loaded)])
    ensures FromEvents(after, events)
  {
  }

  lemma NextEvent(events: seq<Event>, i: nat, written: bool)
    requires i < |events| && Orderly(events[i..], written) && GoodEvents(events)
    ensures events[i].Write? ==> GoodLoads(events[i].loaded)
    ensures events[i].Crash? ==> !written
    ensures Orderly(events[i + 1..],
                    if events[i].Write? then true else if events[i].Finish? || events[i].Crash? then false else written)
  {
    assert events[i..][1..] == events[i + 1..];
  }

  // ---------------------------------------------------------------- a crash between write and finish

  /** Whatever batch is chosen next and however much of it is loaded, ids go on rising. */
  ghost predicate NextRises(rows: Table, history: seq<seq<PackedFile>>) {
    forall again, loaded ::
      LowestWaiting(rows, again) && GoodLoads(loaded) ==> J.AscendingHistory(history + [Loaded(again, loaded)])
  }

  /**
   Exactly when such a crash does no harm, that is, when the next batch keeps the order that the
   journal relies on: when no waiting row is at or below an id of the batch just written.
   */
  lemma CrashSafeIff(rows: Table, next: nat, batch: seq<(nat, nat)>, writes: seq<Handed>)
    requires Tracked(rows, next, Written(batch), writes)
    ensures NextRises(rows, Batches(writes))
       <==> forall f, n :: f in Batches(writes)[|writes| - 1] && Waiting(rows, n) ==> f.id < n
  {
    var history := Batches(writes);
    if forall f: PackedFile, n :: f in history[|writes| - 1] && Waiting(rows, n) ==> f.id < n {
      forall again, loaded | LowestWaiting(rows, again) && GoodLoads(loaded)
        ensures J.AscendingHistory(history + [Loaded(again, loaded)])
      {
        NextBatchRises(rows, next, batch, writes, again, loaded);
      }
    } else {
      var f, w: nat :| f in history[|writes| - 1] && Waiting(rows, w) && w <= f.id;
      var again, loaded := LowestOne(rows, w);
      CrashRepeats(rows, history, f, w, again, loaded);
      assert LowestWaiting(rows, again) && GoodLoads(loaded);
    }
  }

  lemma NextBatchRises(rows: Table, next: nat, batch: seq<(nat, nat)>, writes: seq<Handed>,
                       again: seq<(nat, nat)>, loaded: map<nat, seq<byte>>)
    requires Tracked(rows, next, Written(batch), writes) && LowestWaiting(rows, again) && GoodLoads(loaded)
    requires forall f, n :: f in Batches(writes)[|writes| - 1] && Waiting(rows, n) ==> f.id < n
    ensures J.AscendingHistory(Batches(writes) + [Loaded(again, loaded)])
  {
    var history, files := Batches(writes), Loaded(again, loaded);
    RisingHistory(writes);
    LoadedFacts(again, loaded);
    forall i, f: PackedFile, g: PackedFile | 0 <= i < |history| && f in history[i] && g in files ensures f.id < g.id {
      var at :| 0 <= at < |again| && again[at].0 == g.id;
      assert Waiting(rows, g.id);
      if i < |history| - 1 {
        LoadedFacts(writes[i].batch, writes[i].loaded);
        EarlierBelow(rows, next, batch, writes, i, f.id, g.id);
      }
    }
    hide J.ProperHistory; hide Tracked; hide Batches; hide Loaded;
    AscendingSnoc(history, files);
  }

  lemma EarlierBelow(rows: Table, next: nat, batch: seq<(nat, nat)>, writes: seq<Handed>, i: nat, a: nat, n: nat)
    requires Tracked(rows, next, Written(batch), writes) && i < |writes| - 1 && a in Numbers(writes[i].batch)
    requires Waiting(rows, n)
    ensures a < n
  {
    var last := |writes| - 1;
    assert InBatchAt(writes, i, a);
    if n in Numbers(batch) {
      assert InBatchAt(writes, last, n);
    } else {
      assert a in Given(writes) && n in WaitingNumbers(rows) - Numbers(batch);
    }
  }

  lemma AscendingSnoc(history: seq<seq<PackedFile>>, files: seq<PackedFile>)
    requires J.AscendingHistory(history)
    requires forall i, f, g :: 0 <= i < |history| && f in history[i] && g in files ==> f.id < g.id
    ensures J.AscendingHistory(history + [files])
  {
  }

  /** The lowest waiting row alone, as a batch that could be loaded. */
  lemma LowestOne(rows: Table, w: nat) returns (again: seq<(nat, nat)>, loaded: map<nat, seq<byte>>)
    requires Waiting(rows, w)
    ensures LowestWaiting(rows, again) && again != [] && again[0].0 in loaded && GoodLoads(loaded)
    decreases w
  {
    if n: nat :| n < w && Waiting(rows, n) {
      again, loaded := LowestOne(rows, n);
    } else {
      again, loaded := [(w, rows[w].hash)], map[w := []];
      assert again[0].0 == w && forall m :: m in Numbers(again) <==> m == w;
      assert StreamFrom(0, []) == [];
    }
  }

  /** Otherwise the next batch begins with a row whose writing breaks the order that the journal relies on. */
  lemma CrashRepeats(rows: Table, history: seq<seq<PackedFile>>, f: PackedFile, w: nat, again: seq<(nat, nat)>,
                     loaded: map<nat, seq<byte>>)
    requires history != [] && f in history[|history| - 1] && Waiting(rows, w) && w <= f.id
    requires LowestWaiting(rows, again) && again != [] && again[0].0 in loaded
    ensures again[0].0 <= f.id
    ensures !J.AscendingHistory(history + [Loaded(again, loaded)])
  {
    var files := Loaded(again, loaded);
    var n := |history|;
    var first := files[0];
    assert first.id == again[0].0;
    if w in Numbers(again) {
      var i :| 0 <= i < |again| && again[i].0 == w;
    } else {
      assert again[0].0 in Numbers(again);
    }
    var longer := history + [files];
    assert f in longer[n - 1] && first in longer[n];
  }
}
