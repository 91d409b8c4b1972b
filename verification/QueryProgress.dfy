/**
 A query comes to an end under every schedule: each step of each actor uses up part of a measure
 fixed by the table and the posting lists.  With `NeverStuck` and `QueryExact` this makes every
 schedule that is carried on long enough end with the right answer.
 */
module QueryProgress {
  import opened Bytes
  import opened JournalLog
  import opened QueryStreams
  import opened TrigramQuery
  import opened WorkerSteps
  import opened QueryNetwork

  // ---------------------------------------------------------------- one worker

  /** The steps a worker can still take once nobody listens to it. */
  function Span(local: Local, n: nat): nat
    requires InRange(local, n)
  {
    match local
    case Done => 0
    case Check => 1
    case Pop(i, _, _) => 2 + (n - i)
    case Gate(_) => n + 3
    case Round(i, _, _, _) => n + 4 + (n - i)
    case Scan(i, _) => n + 4 + (n - i)
  }

  predicate StandsFrom(rests: seq<seq<nat>>, i: nat, c: nat) {
    exists j :: i <= j < |rests| && Head(rests[j]) == Some(c)
  }

  /** What an `And` has gained by dropping below its candidate: the right to go round once more. */
  function Lag(kind: Kind, rests: seq<seq<nat>>, c: nat): nat {
    if kind.And? && SomeBelow(rests, c) then 2 * |rests| + 4 else 0
  }

  /** The steps a worker can still take before it has to use up another id. */
  function Slack(kind: Kind, local: Local, rests: seq<seq<nat>>): nat
    requires InRange(local, |rests|)
  {
    var n := |rests|;
    match local
    case Done => 0
    case Check => 3 * n + 4
    case Scan(i, _) => 2 * n + 3 + (n - i)
    case Gate(c) => 2 * n + 2 + Lag(kind, rests, c)
    case Round(i, lower, higher, c) => n + 1 + (n - i) + (if higher > 0 then n + 2 else 0) + Lag(kind, rests, c)
    case Pop(i, c, _) => (n - i) + if StandsFrom(rests, i, c) then 0 else 3 * n + 5
  }

  lemma SpanShrinks(kind: Kind, n: nat, local: Local, item: Option<nat>)
    requires Fits(kind, n) && !local.Done? && InRange(local, n)
    ensures InRange(Next(kind, n, local, item, false).local, n)
    ensures Span(Next(kind, n, local, item, false).local, n) < Span(local, n)
  {
  }

  lemma SpanBound(local: Local, n: nat)
    requires InRange(local, n)
    ensures Span(local, n) <= 2 * n + 4
  {
  }

  /** A step lowers the slack, or takes an id and raises it by less than 3n + 6. */
  ghost predicate Shrinks(kind: Kind, rests: seq<seq<nat>>, local: Local, m: Move)
    requires InRange(local, |rests|)
  {
    var peeked := Peeks(local, |rests|);
    && (m.takes ==> peeked.Some? && rests[peeked.value] != [])
    && InRange(m.local, |rests|)
    && Slack(kind, m.local, After(rests, peeked, m.takes))
       < Slack(kind, local, rests) + if m.takes then 3 * |rests| + 6 else 0
  }

  lemma SlackShrinks(kind: Kind, rests: seq<seq<nat>>, local: Local, item: Option<nat>)
    requires Fits(kind, |rests|) && !local.Done? && InRange(local, |rests|) && Knows(kind, local, rests)
    requires Peeks(local, |rests|).Some? ==> item == Head(rests[Peeks(local, |rests|).value])
    ensures Shrinks(kind, rests, local, Next(kind, |rests|, local, item, true))
  {
    hide Slack; hide Shrinks; hide Next; hide After; hide Candidate; hide AllOn; hide SomeBelow; hide Scanned;
    hide HeadsBelow;
    match local
    case Check => GateSlack(kind, rests, local);
    case Gate(c) => GateSlack(kind, rests, local);
    case Scan(i, best) => ScanSlack(kind, rests, local, item);
    case Round(i, lower, higher, c) =>
      if i == |rests| && higher == 0 && lower == 0 {
        assert rests[..i] == rests;
        SettledStands(kind, rests, c);
      }
      RoundSlack(kind, rests, local, item);
    case Pop(i, c, hits) => PopSlack(kind, rests, local, item);
  }

  lemma GateSlack(kind: Kind, rests: seq<seq<nat>>, local: Local)
    requires Fits(kind, |rests|) && (local.Gate? || local.Check?)
    ensures Shrinks(kind, rests, local, Next(kind, |rests|, local, None, true))
    ensures Peeks(local, |rests|).None?
    ensures forall item :: Next(kind, |rests|, local, item, true) == Next(kind, |rests|, local, None, true)
  {
  }

  lemma ScanSlack(kind: Kind, rests: seq<seq<nat>>, local: Local, item: Option<nat>)
    requires Fits(kind, |rests|) && local.Scan? && InRange(local, |rests|)
    requires Scanned(kind, rests, local.i, local.best)
    ensures Shrinks(kind, rests, local, Next(kind, |rests|, local, item, true))
  {
    if local.i == |rests| && local.best.Some? {
      ScanStands(kind, rests, local.best.value);
    }
    hide Scanned; hide StandsFrom; hide Lag;
  }

  lemma ScanStands(kind: Kind, rests: seq<seq<nat>>, c: nat)
    requires Scanned(kind, rests, |rests|, Some(c))
    ensures Lag(kind, rests, c) == 0 && StandsFrom(rests, 0, c)
  {
  }

  lemma SettledStands(kind: Kind, rests: seq<seq<nat>>, c: nat)
    requires Fits(kind, |rests|) && rests != []
    requires if kind.And? then AllOn(rests, c) else Candidate(kind, rests, c)
    ensures StandsFrom(rests, 0, c)
  {
    if kind.And? {
      assert Head(rests[0]) == Some(c);
    }
  }

  lemma RoundSlack(kind: Kind, rests: seq<seq<nat>>, local: Local, item: Option<nat>)
    requires Fits(kind, |rests|) && local.Round? && InRange(local, |rests|)
    requires local.lower > 0 ==> kind.And? && SomeBelow(rests, local.c)
    requires local.i == |rests| && local.lower == 0 && local.higher == 0 ==> StandsFrom(rests, 0, local.c)
    requires local.i < |rests| ==> item == Head(rests[local.i])
    ensures Shrinks(kind, rests, local, Next(kind, |rests|, local, item, true))
  {
    hide StandsFrom; hide SomeBelow;
  }

  lemma PopSlack(kind: Kind, rests: seq<seq<nat>>, local: Local, item: Option<nat>)
    requires Fits(kind, |rests|) && local.Pop? && InRange(local, |rests|)
    requires local.i < |rests| ==> item == Head(rests[local.i])
    ensures Shrinks(kind, rests, local, Next(kind, |rests|, local, item, true))
  {
    if local.i < |rests| && item != Some(local.c) {
      assert StandsFrom(rests, local.i, local.c) ==> StandsFrom(rests, local.i + 1, local.c);
    }
  }

  /** The steps a connected worker can still take with all that `rests` hold. */
  function Worth(kind: Kind, local: Local, rests: seq<seq<nat>>): nat
    requires InRange(local, |rests|)
  {
    Times(3 * |rests| + 6, Total(rests)) + Slack(kind, local, rests)
  }

  lemma WorthDrops(kind: Kind, rests: seq<seq<nat>>, local: Local, m: Move)
    requires InRange(local, |rests|) && Shrinks(kind, rests, local, m)
    ensures Worth(kind, m.local, After(rests, Peeks(local, |rests|), m.takes)) < Worth(kind, local, rests)
  {
    hide Slack; hide Total; hide InRange; hide Times;
    if m.takes {
      var i := Peeks(local, |rests|).value;
      TakeLowers(rests, i);
      Scaled(3 * |rests| + 6, Total(After(rests, Some(i), true)), Total(rests));
    }
  }

  /** The steps a worker can still take, when `inputs` are its complete streams. */
  function WorkerLeft(kind: Kind, w: Worker, inputs: seq<seq<nat>>, connected: bool): nat
    requires |w.taken| == |inputs| && InRange(w.local, |inputs|)
  {
    var n, rests := |inputs|, Remaining(inputs, w.taken);
    if w.local.Done? then 0
    else if connected then Worth(kind, w.local, rests) + 2 * n + 4
    else Span(w.local, n)
  }

  lemma WorkerShrinks(kind: Kind, w: Worker, inputs: seq<seq<nat>>, item: Option<nat>, connected: bool,
                      connected': bool)
    requires Fits(kind, |inputs|) && |w.taken| == |inputs| && InRange(w.local, |inputs|) && !w.local.Done?
    requires connected' ==> connected
    requires connected ==> Owes(kind, w, inputs)
    requires var peeked := Peeks(w.local, |inputs|);
             connected && peeked.Some? ==> item == Head(Beyond(inputs[peeked.value], w.taken[peeked.value]))
    ensures var w' := Step(kind, w, item, connected);
            && |w'.taken| == |inputs| && InRange(w'.local, |inputs|)
            && WorkerLeft(kind, w', inputs, connected') < WorkerLeft(kind, w, inputs, connected)
  {
    var n, rests := |inputs|, Remaining(inputs, w.taken);
    StepShape(kind, w, item, connected);
    var w' := Step(kind, w, item, connected);
    if !connected {
      SpanShrinks(kind, n, w.local, item);
    } else {
      SlackShrinks(kind, rests, w.local, item);
      SpanBound(w'.local, n);
      Stepped(kind, w, inputs, item);
      WorthDrops(kind, rests, w.local, Next(kind, n, w.local, item, true));
      hide Slack; hide Next; hide Total; hide Remaining; hide Span; hide After; hide Step; hide Worth;
    }
  }

  lemma TakeLowers(rests: seq<seq<nat>>, i: nat)
    requires i < |rests| && rests[i] != []
    ensures Total(After(rests, Some(i), true)) < Total(rests)
  {
    var after := After(rests, Some(i), true);
    assert |after[i]| < |rests[i]|;
    TotalShrinks(rests, after);
  }

  lemma Stepped(kind: Kind, w: Worker, inputs: seq<seq<nat>>, item: Option<nat>)
    requires Fits(kind, |inputs|) && |w.taken| == |inputs| && InRange(w.local, |inputs|) && !w.local.Done?
    requires Shrinks(kind, Remaining(inputs, w.taken), w.local, Next(kind, |inputs|, w.local, item, true))
    ensures var w', m := Step(kind, w, item, true), Next(kind, |inputs|, w.local, item, true);
            var peeked := Peeks(w.local, |inputs|);
            && |w'.taken| == |inputs| && InRange(w'.local, |inputs|) && w'.local == m.local
            && (m.takes ==> peeked.Some? && peeked.value < |inputs|)
            && Remaining(inputs, w'.taken) == After(Remaining(inputs, w.taken), peeked, m.takes)
  {
    hide Slack; hide Next;
    var m := Next(kind, |inputs|, w.local, item, true);
    assert Remaining(inputs, Step(kind, w, item, true).taken)
        == After(Remaining(inputs, w.taken), Peeks(w.local, |inputs|), m.takes);
  }

  /** `k * n`, kept away from the solver's multiplication. */
  function Times(k: nat, n: nat): nat {
    if n == 0 then 0 else k + Times(k, n - 1)
  }

  lemma {:induction false} Scaled(k: nat, a: nat, b: nat)
    requires a < b
    ensures Times(k, a) + k <= Times(k, b)
    decreases b
  {
    if a < b - 1 {
      Scaled(k, a, b - 1);
    }
  }

  // ---------------------------------------------------------------- the whole network

  ghost function SumOver(keys: set<nat>, m: map<nat, nat>): nat
    requires keys <= m.Keys
  {
    if keys == {} then 0 else var k :| k in keys; m[k] + SumOver(keys - {k}, m)
  }

  lemma {:induction false} SumsCompare(keys: set<nat>, a: map<nat, nat>, b: map<nat, nat>)
    requires keys <= a.Keys && keys <= b.Keys && forall k :: k in keys ==> a[k] <= b[k]
    ensures SumOver(keys, a) <= SumOver(keys, b)
    ensures (exists k :: k in keys && a[k] < b[k]) ==> SumOver(keys, a) < SumOver(keys, b)
  {
    if keys != {} {
      var k :| k in keys && SumOver(keys, a) == a[k] + SumOver(keys - {k}, a)
               && SumOver(keys, b) == b[k] + SumOver(keys - {k}, b);
      SumsCompare(keys - {k}, a, b);
    }
  }

  ghost function WorkersLeft(query: Query, rank: map<nat, nat>, log: seq<Entry>, s: State): (m: map<nat, nat>)
    requires Shaped(query, s) && Sound(query.expressions, rank)
    ensures m.Keys == query.expressions.Keys
  {
    map id | id in query.expressions :: EntryLeft(query, rank, log, s, id)
  }

  ghost function EntryLeft(query: Query, rank: map<nat, nat>, log: seq<Entry>, s: State, id: nat): nat
    requires Shaped(query, s) && Sound(query.expressions, rank) && id in query.expressions
  {
    assert ShapedEntry(query, s, id);
    WorkerLeft(query.expressions[id].kind, s.workers[id], Inputs(query.expressions, rank, log, id),
               Connected(query, s, Expression(id)))
  }

  function ReaderLeft(log: seq<Entry>, r: Reader, t: nat): nat {
    if r.closed then 0 else 1 + Excess(|Postings(log, t)|, |r.sent|)
  }

  function Excess(a: nat, b: nat): nat {
    if b <= a then a - b else 0
  }

  ghost function ReadersLeft(log: seq<Entry>, s: State): (m: map<nat, nat>)
    ensures m.Keys == s.readers.Keys
  {
    map t | t in s.readers :: ReaderLeft(log, s.readers[t], t)
  }

  /** The steps the query itself can still take. */
  ghost function QueryLeft(query: Query, rank: map<nat, nat>, log: seq<Entry>, s: State): nat
    requires Sound(query.expressions, rank) && Known(query.expressions, query.root)
  {
    (if s.listening then 1 else 0)
    + if s.finished then 0 else 1 + Excess(|Stream(query.expressions, rank, log, query.root)|, |s.output|)
  }

  /** A bound on the steps the network can still take. */
  ghost function Left(query: Query, rank: map<nat, nat>, log: seq<Entry>, s: State): nat
    requires Shaped(query, s) && Sound(query.expressions, rank)
  {
    QueryLeft(query, rank, log, s)
    + SumOver(query.expressions.Keys, WorkersLeft(query, rank, log, s))
    + SumOver(s.readers.Keys, ReadersLeft(log, s))
  }

  /** A step of someone else costs a worker nothing. */
  lemma OthersLeft(query: Query, rank: map<nat, nat>, log: seq<Entry>, s: State, s': State, id: nat)
    requires Onward(query, s, s') && Sound(query.expressions, rank)
    requires id in query.expressions && s'.workers[id] == s.workers[id]
    ensures EntryLeft(query, rank, log, s', id) <= EntryLeft(query, rank, log, s, id)
  {
    var n := |query.expressions[id].refs|;
    assert ShapedEntry(query, s, id);
    if Connected(query, s', Expression(id)) {
      StillConnected(query, s, s', Expression(id));
    }
    SpanBound(s.workers[id].local, n);
  }

  lemma OwnLeft(query: Query, rank: map<nat, nat>, log: seq<Entry>, s: State, id: nat)
    requires Inv(query, rank, log, s) && id in query.expressions && !s.workers[id].local.Done?
    requires Seen(query, s, id).Some?
    ensures var s' := s.(workers := s.workers[id := Moved(query, s, id, Seen(query, s, id).value)]);
            Onward(query, s, s') && EntryLeft(query, rank, log, s', id) < EntryLeft(query, rank, log, s, id)
  {
    var op, w, item := query.expressions[id], s.workers[id], Seen(query, s, id).value;
    var s' := s.(workers := s.workers[id := Moved(query, s, id, item)]);
    WorkKeeps(query, rank, log, s, id);
    assert ShapedEntry(query, s, id) && WorkerInv(query, rank, log, s, id);
    SeenTrue(query, rank, log, s, id);
    hide Seen; hide Shaped; hide Step; hide Onward;
    var connected, connected' := Connected(query, s, Expression(id)), Connected(query, s', Expression(id));
    if connected' {
      StillConnected(query, s, s', Expression(id));
    }
    WorkerShrinks(op.kind, w, Inputs(query.expressions, rank, log, id), item, connected, connected');
  }

  /** When no worker loses ground, and one gains when the step was a worker's. */
  lemma WorkersCompare(query: Query, rank: map<nat, nat>, log: seq<Entry>, s: State, s': State)
    requires Shaped(query, s) && Shaped(query, s') && Sound(query.expressions, rank)
    requires forall id :: id in query.expressions ==>
               EntryLeft(query, rank, log, s', id) <= EntryLeft(query, rank, log, s, id)
    ensures SumOver(query.expressions.Keys, WorkersLeft(query, rank, log, s'))
         <= SumOver(query.expressions.Keys, WorkersLeft(query, rank, log, s))
    ensures (exists id :: id in query.expressions
               && EntryLeft(query, rank, log, s', id) < EntryLeft(query, rank, log, s, id)) ==>
              SumOver(query.expressions.Keys, WorkersLeft(query, rank, log, s'))
              < SumOver(query.expressions.Keys, WorkersLeft(query, rank, log, s))
  {
    hide EntryLeft;
    var a, b := WorkersLeft(query, rank, log, s'), WorkersLeft(query, rank, log, s);
    SumsCompare(query.expressions.Keys, a, b);
    if id :| id in query.expressions && EntryLeft(query, rank, log, s', id) < EntryLeft(query, rank, log, s, id) {
      assert a[id] < b[id];
    }
  }

  /** Lowering one of the three parts without raising another lowers the whole. */
  lemma LeftFalls(query: Query, rank: map<nat, nat>, log: seq<Entry>, s: State, s': State)
    requires Onward(query, s, s') && Sound(query.expressions, rank) && Known(query.expressions, query.root)
    requires var w, w' := SumOver(query.expressions.Keys, WorkersLeft(query, rank, log, s)),
                          SumOver(query.expressions.Keys, WorkersLeft(query, rank, log, s'));
             var r, r' := SumOver(s.readers.Keys, ReadersLeft(log, s)), SumOver(s'.readers.Keys, ReadersLeft(log, s'));
             var q, q' := QueryLeft(query, rank, log, s), QueryLeft(query, rank, log, s');
             w' <= w && r' <= r && q' <= q && (w' < w || r' < r || q' < q)
    ensures Left(query, rank, log, s') < Left(query, rank, log, s)
  {
    hide WorkersLeft; hide Onward; hide Shaped; hide ReadersLeft; hide SumOver; hide QueryLeft;
  }

  lemma SameReaders(log: seq<Entry>, s: State, s': State)
    requires s'.readers == s.readers
    ensures SumOver(s'.readers.Keys, ReadersLeft(log, s')) == SumOver(s.readers.Keys, ReadersLeft(log, s))
  {
    hide SumOver; hide ReaderLeft;
    assert ReadersLeft(log, s') == ReadersLeft(log, s);
  }

  lemma SameQuery(query: Query, rank: map<nat, nat>, log: seq<Entry>, s: State, s': State)
    requires Shaped(query, s) && Sound(query.expressions, rank)
    requires s'.listening == s.listening && s'.finished == s.finished && s'.output == s.output
    ensures Known(query.expressions, query.root)
    ensures QueryLeft(query, rank, log, s') == QueryLeft(query, rank, log, s)
  {
    RootKnown(query, s);
    hide Shaped; hide Stream;
  }

  lemma OthersStand(query: Query, s: State, id: nat, w: Worker)
    requires Shaped(query, s) && id in query.expressions
    ensures forall j :: j in query.expressions && j != id ==>
              s.(workers := s.workers[id := w]).workers[j] == s.workers[j]
  {
  }

  lemma WorkersFall(query: Query, rank: map<nat, nat>, log: seq<Entry>, s: State, s': State, id: nat)
    requires Onward(query, s, s') && Sound(query.expressions, rank) && id in query.expressions
    requires EntryLeft(query, rank, log, s', id) < EntryLeft(query, rank, log, s, id)
    requires forall j :: j in query.expressions && j != id ==> s'.workers[j] == s.workers[j]
    ensures SumOver(query.expressions.Keys, WorkersLeft(query, rank, log, s'))
          < SumOver(query.expressions.Keys, WorkersLeft(query, rank, log, s))
  {
    hide EntryLeft; hide ShapedEntry; hide WorkersLeft; hide SumOver;
    forall j | j in query.expressions
      ensures EntryLeft(query, rank, log, s', j) <= EntryLeft(query, rank, log, s, j)
    {
      if j != id {
        OthersLeft(query, rank, log, s, s', j);
      }
    }
    WorkersCompare(query, rank, log, s, s');
  }

  lemma WorkShrinks(query: Query, rank: map<nat, nat>, log: seq<Entry>, s: State, id: nat)
    requires Inv(query, rank, log, s) && id in query.expressions && !s.workers[id].local.Done?
    requires Seen(query, s, id).Some?
    ensures var s' := s.(workers := s.workers[id := Moved(query, s, id, Seen(query, s, id).value)]);
            Onward(query, s, s') && Left(query, rank, log, s') < Left(query, rank, log, s)
  {
    var s' := s.(workers := s.workers[id := Moved(query, s, id, Seen(query, s, id).value)]);
    OthersStand(query, s, id, s'.workers[id]);
    SameQuery(query, rank, log, s, s');
    SameReaders(log, s, s');
    OwnLeft(query, rank, log, s, id);
    hide *;
    WorkersFall(query, rank, log, s, s', id);
    LeftFalls(query, rank, log, s, s');
  }

  lemma OthersShrink(query: Query, rank: map<nat, nat>, log: seq<Entry>, s: State, s': State)
    requires Onward(query, s, s') && Sound(query.expressions, rank) && s'.workers == s.workers
    ensures SumOver(query.expressions.Keys, WorkersLeft(query, rank, log, s'))
         <= SumOver(query.expressions.Keys, WorkersLeft(query, rank, log, s))
  {
    hide EntryLeft; hide ShapedEntry; hide WorkersLeft; hide SumOver;
    forall j | j in query.expressions
      ensures EntryLeft(query, rank, log, s', j) <= EntryLeft(query, rank, log, s, j)
    {
      OthersLeft(query, rank, log, s, s', j);
    }
    WorkersCompare(query, rank, log, s, s');
  }

  lemma OnwardShaped(query: Query, s: State, s': State)
    requires Onward(query, s, s')
    ensures Shaped(query, s) && Shaped(query, s') && s'.readers.Keys == s.readers.Keys
  {
  }

  lemma OthersRead(s: State, t: nat, r: Reader)
    ensures forall u :: u in s.readers && u != t ==> s.(readers := s.readers[t := r]).readers[u] == s.readers[u]
  {
  }

  lemma ReadShrinks(query: Query, rank: map<nat, nat>, log: seq<Entry>, s: State, t: nat, r: Reader)
    requires t in s.readers && ReaderLeft(log, r, t) < ReaderLeft(log, s.readers[t], t)
    requires Sound(query.expressions, rank) && Onward(query, s, s.(readers := s.readers[t := r]))
    ensures Left(query, rank, log, s.(readers := s.readers[t := r])) < Left(query, rank, log, s)
  {
    var s' := s.(readers := s.readers[t := r]);
    OnwardShaped(query, s, s');
    OthersRead(s, t, r);
    SameQuery(query, rank, log, s, s');
    hide *;
    OthersShrink(query, rank, log, s, s');
    ReadersCompare(log, s, s', t);
    LeftFalls(query, rank, log, s, s');
  }

  lemma ReadersCompare(log: seq<Entry>, s: State, s': State, t: nat)
    requires s'.readers.Keys == s.readers.Keys && t in s.readers
    requires ReaderLeft(log, s'.readers[t], t) < ReaderLeft(log, s.readers[t], t)
    requires forall u :: u in s.readers && u != t ==> s'.readers[u] == s.readers[u]
    ensures SumOver(s'.readers.Keys, ReadersLeft(log, s')) < SumOver(s.readers.Keys, ReadersLeft(log, s))
  {
    hide ReaderLeft;
    var a, b := ReadersLeft(log, s'), ReadersLeft(log, s);
    assert a[t] < b[t];
    SumsCompare(s.readers.Keys, a, b);
  }

  lemma QueryShrinks(query: Query, rank: map<nat, nat>, log: seq<Entry>, s: State, s': State)
    requires Sound(query.expressions, rank) && Onward(query, s, s')
    requires s'.workers == s.workers && s'.readers == s.readers
    requires Known(query.expressions, query.root)
    requires QueryLeft(query, rank, log, s') < QueryLeft(query, rank, log, s)
    ensures Left(query, rank, log, s') < Left(query, rank, log, s)
  {
    SameReaders(log, s, s');
    hide *;
    OthersShrink(query, rank, log, s, s');
    LeftFalls(query, rank, log, s, s');
  }

  /** The query never receives more than the root's stream. */
  lemma ReceiveLowers(query: Query, rank: map<nat, nat>, log: seq<Entry>, s: State)
    requires Inv(query, rank, log, s) && Act(query, log, s, Receive).Some?
    ensures Known(query.expressions, query.root)
    ensures QueryLeft(query, rank, log, Act(query, log, s, Receive).value) < QueryLeft(query, rank, log, s)
  {
    RootKnown(query, s);
    assert Known(query.expressions, query.root);
    hide WorkerInv; hide ReaderInv; hide Shaped; hide Stream; hide Sent; hide Closed; hide Connected; hide Registered;
    ReceiveTrue(query, rank, log, s);
    ChannelTrue(query, rank, log, s, query.root);
    ghost var s' := Act(query, log, s, Receive).value;
    if !s'.finished {
      assert |s'.output| <= |Sent(query, s, query.root)| <= |Stream(query.expressions, rank, log, query.root)|;
    }
  }

  /** Every step of every actor lowers the measure. */
  lemma ActShrinks(query: Query, rank: map<nat, nat>, log: seq<Entry>, s: State, a: Actor)
    requires Inv(query, rank, log, s) && Act(query, log, s, a).Some?
    ensures Inv(query, rank, log, Act(query, log, s, a).value)
    ensures Left(query, rank, log, Act(query, log, s, a).value) < Left(query, rank, log, s)
  {
    hide Left; hide WorkerInv; hide ReaderInv; hide Onward; hide Shaped; hide Sent; hide Stream; hide Connected;
    var s' := Act(query, log, s, a).value;
    ActKeeps(query, rank, log, s, a);
    match a {
      case Work(id) =>
        WorkStarts(query, s, id);
        WorkShrinks(query, rank, log, s, id);
      case Read(t) => ReadShrinks(query, rank, log, s, t, s'.readers[t]);
      case Leave(t) => ReadShrinks(query, rank, log, s, t, s'.readers[t]);
      case DropListeners =>
        RootKnown(query, s);
        QueryShrinks(query, rank, log, s, s');
      case Receive =>
        ReceiveLowers(query, rank, log, s);
        QueryShrinks(query, rank, log, s, s');
    }
  }

  /** No schedule is longer than the measure of the state it starts from. */
  lemma {:induction false} RunsAreBounded(query: Query, rank: map<nat, nat>, log: seq<Entry>, s: State,
                                          schedule: seq<Actor>)
    requires Inv(query, rank, log, s) && Run(query, rank, log, s, schedule).Some?
    ensures |schedule| <= Left(query, rank, log, s)
    decreases |schedule|
  {
    if schedule != [] {
      hide Left; hide Inv; hide Act;
      ActShrinks(query, rank, log, s, schedule[0]);
      RunsAreBounded(query, rank, log, Act(query, log, s, schedule[0]).value, schedule[1..]);
    }
  }

  /** From wherever a query has got to it can be carried on to its end. */
  lemma {:induction false} CanFinish(query: Query, rank: map<nat, nat>, log: seq<Entry>, s: State)
    returns (schedule: seq<Actor>)
    requires Inv(query, rank, log, s)
    ensures Run(query, rank, log, s, schedule).Some? && Run(query, rank, log, s, schedule).value.finished
    decreases Left(query, rank, log, s)
  {
    if s.finished {
      schedule := [];
    } else {
      assert Shaped(query, s) && Sound(query.expressions, rank);
      hide *;
      var a := NeverStuck(query, rank, log, s);
      ActShrinks(query, rank, log, s, a);
      var rest := CanFinish(query, rank, log, Act(query, log, s, a).value);
      RunOne(query, rank, log, s, a, rest);
      schedule := [a] + rest;
    }
  }

  lemma RunOne(query: Query, rank: map<nat, nat>, log: seq<Entry>, s: State, a: Actor, rest: seq<Actor>)
    requires Inv(query, rank, log, s) && Act(query, log, s, a).Some?
    requires Inv(query, rank, log, Act(query, log, s, a).value)
    ensures Run(query, rank, log, s, [a] + rest) == Run(query, rank, log, Act(query, log, s, a).value, rest)
  {
    hide Act; hide Inv;
    assert ([a] + rest)[1..] == rest;
  }
}
