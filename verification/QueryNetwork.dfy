/**
 A whole query at work (`FilterJournal::query`, src/worker/journal.rs): one worker for each entry
 of the table, one reader for each trigram, all running at once and joined by unbounded channels.
 A schedule is any sequence of their steps, each between two awaits.  Whatever the schedule, the
 query ends with exactly the ids that satisfy the formula, newest first.
 */
module QueryNetwork {
  import opened Bytes
  import opened JournalLog
  import opened QueryStreams
  import opened TrigramQuery
  import opened WorkerSteps

  /** `taken[i]` ids of input `i` are used up; `sent` is what has gone into the output channel. */
  datatype Worker = Worker(local: Local, taken: seq<nat>, sent: seq<nat>)

  datatype Reader = Reader(sent: seq<nat>, closed: bool)

  /** `listening`: the query still holds a receiver of every channel; `output`: what it has received. */
  datatype State = State(workers: map<nat, Worker>, readers: map<nat, Reader>, listening: bool,
                         output: seq<nat>, finished: bool)

  datatype Actor = Work(id: nat) | Read(trigram: nat) | Leave(trigram: nat) | DropListeners | Receive

  function UsedTrigrams(expressions: map<nat, Operation>): set<nat> {
    set id, i | id in expressions && 0 <= i < |expressions[id].refs| && expressions[id].refs[i].Trigram?
      :: expressions[id].refs[i].trigram
  }

  /** The entries that get a channel. */
  predicate Registered(query: Query, r: Reference) {
    match r
    case Trigram(t) => t in UsedTrigrams(query.expressions)
    case Expression(id) => id in query.expressions
  }

  /** The network as set up; no channel for the root is the error "Corrupt query". */
  function Start(query: Query): Option<State> {
    if !Registered(query, query.root) then None
    else
      Some(State(map id | id in query.expressions :: Worker(Check, seq(|query.expressions[id].refs|, _ => 0), []),
                 map t | t in UsedTrigrams(query.expressions) :: Reader([], false),
                 true, [], false))
  }

  /** The shape every state of the network has. */
  ghost predicate Shaped(query: Query, s: State) {
    && s.workers.Keys == query.expressions.Keys
    && s.readers.Keys == UsedTrigrams(query.expressions)
    && Registered(query, query.root)
    && (forall id :: id in query.expressions ==> ShapedEntry(query, s, id))
  }

  ghost predicate ShapedEntry(query: Query, s: State, id: nat)
    requires id in query.expressions && s.workers.Keys == query.expressions.Keys
  {
    var op, w := query.expressions[id], s.workers[id];
    && Fits(op.kind, |op.refs|)
    && |w.taken| == |op.refs| && InRange(w.local, |op.refs|)
    && forall i :: 0 <= i < |op.refs| ==> Registered(query, op.refs[i])
  }

  function Sent(query: Query, s: State, r: Reference): seq<nat>
    requires Shaped(query, s) && Registered(query, r)
  {
    match r
    case Trigram(t) => s.readers[t].sent
    case Expression(id) => s.workers[id].sent
  }

  predicate Closed(query: Query, s: State, r: Reference)
    requires Shaped(query, s) && Registered(query, r)
  {
    match r
    case Trigram(t) => s.readers[t].closed
    case Expression(id) => s.workers[id].local.Done?
  }

  /** Whether anyone still holds a receiver of the channel of `r`. */
  predicate Connected(query: Query, s: State, r: Reference)
    requires Shaped(query, s)
  {
    || s.listening
    || (r == query.root && !s.finished)
    || exists id :: id in query.expressions && !s.workers[id].local.Done? && r in query.expressions[id].refs
  }

  /** What a receiver that has used up `k` ids sees next: nothing yet, an id, or the end. */
  function Offer(query: Query, s: State, r: Reference, k: nat): Option<Option<nat>>
    requires Shaped(query, s) && Registered(query, r)
  {
    var sent := Sent(query, s, r);
    if k < |sent| then Some(Some(sent[k]))
    else if Closed(query, s, r) then Some(None)
    else None
  }

  /** One step of one actor, or nothing when it has to wait or is done. */
  function Act(query: Query, log: seq<Entry>, s: State, a: Actor): Option<State>
    requires Shaped(query, s)
  {
    match a
    case Work(id) =>
      if id !in s.workers || s.workers[id].local.Done? then None
      else
        (match Seen(query, s, id)
         case None => None
         case Some(item) => Some(s.(workers := s.workers[id := Moved(query, s, id, item)])))
    case Read(t) =>
      if t !in s.readers || s.readers[t].closed then None
      else
        var sent, all := s.readers[t].sent, Postings(log, t);
        var next := if |sent| < |all| then Reader(sent + [all[|sent|]], false) else Reader(sent, true);
        Some(s.(readers := s.readers[t := next]))
    case Leave(t) =>
      if t !in s.readers || s.readers[t].closed || Connected(query, s, Trigram(t)) then None
      else Some(s.(readers := s.readers[t := Reader(s.readers[t].sent, true)]))
    case DropListeners => if s.listening then Some(s.(listening := false)) else None
    case Receive =>
      if s.listening || s.finished then None
      else
        match Offer(query, s, query.root, |s.output|)
        case None => None
        case Some(None) => Some(s.(finished := true))
        case Some(Some(x)) => Some(s.(output := s.output + [x]))
  }

  /** What a worker's next step goes by: nothing yet if it has to wait. */
  function Seen(query: Query, s: State, id: nat): Option<Option<nat>>
    requires Shaped(query, s) && id in query.expressions
  {
    var op, w := query.expressions[id], s.workers[id];
    assert ShapedEntry(query, s, id);
    match Peeks(w.local, |op.refs|)
    case None => Some(None)
    case Some(i) => Offer(query, s, op.refs[i], w.taken[i])
  }

  /** The worker after a step that saw `item`. */
  function Moved(query: Query, s: State, id: nat, item: Option<nat>): Worker
    requires Shaped(query, s) && id in query.expressions && !s.workers[id].local.Done?
  {
    var op, w := query.expressions[id], s.workers[id];
    assert ShapedEntry(query, s, id);
    Step(op.kind, w, item, Connected(query, s, Expression(id)))
  }

  function Step(kind: Kind, w: Worker, item: Option<nat>, connected: bool): Worker
    requires Fits(kind, |w.taken|) && !w.local.Done? && InRange(w.local, |w.taken|)
  {
    var m := Next(kind, |w.taken|, w.local, item, connected);
    var i := Peeks(w.local, |w.taken|);
    NextShape(kind, |w.taken|, w.local, item, connected);
    Worker(m.local, if m.takes then w.taken[i.value := w.taken[i.value] + 1] else w.taken, w.sent + m.sends)
  }

  lemma NextShape(kind: Kind, inputs: nat, local: Local, item: Option<nat>, connected: bool)
    requires Fits(kind, inputs) && !local.Done? && InRange(local, inputs)
    ensures var m := Next(kind, inputs, local, item, connected);
            InRange(m.local, inputs) && (m.takes ==> item.Some? && Peeks(local, inputs).Some?)
  {
  }

  // ---------------------------------------------------------------- the invariant

  /** The part of each stream beyond what is used up. */
  function Remaining(inputs: seq<seq<nat>>, taken: seq<nat>): (rests: seq<seq<nat>>)
    requires |inputs| == |taken|
    ensures |rests| == |inputs|
  {
    seq(|inputs|, i requires 0 <= i < |inputs| => Beyond(inputs[i], taken[i]))
  }

  function Beyond(stream: seq<nat>, k: nat): seq<nat> {
    if k <= |stream| then stream[k..] else []
  }

  /** What is sent and what is still owed make up the node's whole stream. */
  ghost predicate Owes(kind: Kind, w: Worker, inputs: seq<seq<nat>>)
    requires Fits(kind, |inputs|) && |w.taken| == |inputs| && InRange(w.local, |inputs|)
  {
    var rests := Remaining(inputs, w.taken);
    && (!w.local.Done? ==> Knows(kind, w.local, rests))
    && w.sent + Future(kind, w.local, rests) == Out(kind, inputs)
  }

  ghost predicate WorkerInv(query: Query, rank: map<nat, nat>, log: seq<Entry>, s: State, id: nat)
    requires Shaped(query, s) && Sound(query.expressions, rank) && id in query.expressions
  {
    var op, w := query.expressions[id], s.workers[id];
    assert ShapedEntry(query, s, id);
    && (!w.local.Done? ==> forall i :: 0 <= i < |op.refs| ==> w.taken[i] <= |Sent(query, s, op.refs[i])|)
    && (Connected(query, s, Expression(id)) ==> Owes(op.kind, w, Inputs(query.expressions, rank, log, id)))
  }

  ghost predicate ReaderInv(query: Query, log: seq<Entry>, s: State, t: nat)
    requires Shaped(query, s) && t in s.readers
  {
    Connected(query, s, Trigram(t)) ==>
      s.readers[t].sent <= Postings(log, t) && (s.readers[t].closed ==> s.readers[t].sent == Postings(log, t))
  }

  ghost predicate Inv(query: Query, rank: map<nat, nat>, log: seq<Entry>, s: State) {
    && Shaped(query, s) && Sound(query.expressions, rank)
    && (forall id :: id in query.expressions ==> WorkerInv(query, rank, log, s, id))
    && (forall t :: t in s.readers ==> ReaderInv(query, log, s, t))
    && (if s.finished then s.output == Stream(query.expressions, rank, log, query.root)
        else s.output <= Sent(query, s, query.root))
  }

  /** What a connected channel has brought is a true part of its stream, and the end comes only at the end. */
  lemma ChannelTrue(query: Query, rank: map<nat, nat>, log: seq<Entry>, s: State, r: Reference)
    requires Inv(query, rank, log, s) && Registered(query, r) && Connected(query, s, r)
    ensures Sent(query, s, r) <= Stream(query.expressions, rank, log, r)
    ensures Closed(query, s, r) ==> Sent(query, s, r) == Stream(query.expressions, rank, log, r)
  {
    hide Connected; hide Inputs; hide Out; hide Knows; hide Remaining; hide PopFrom; hide Settled; hide Postings;
    match r
    case Trigram(t) =>
      assert ReaderInv(query, log, s, t);
    case Expression(id) =>
      assert WorkerInv(query, rank, log, s, id);
      assert ShapedEntry(query, s, id);
  }

  lemma StartInv(query: Query, rank: map<nat, nat>, log: seq<Entry>)
    requires Sound(query.expressions, rank) && Registered(query, query.root) && AllDescending(log)
    ensures Inv(query, rank, log, Start(query).value)
  {
    var s := Start(query).value;
    forall id | id in query.expressions ensures ShapedEntry(query, s, id) {
      var op := query.expressions[id];
      forall i | 0 <= i < |op.refs| ensures Registered(query, op.refs[i]) {
        assert Below(query.expressions, rank, op.refs[i], rank[id]);
      }
    }
    assert Shaped(query, s);
    forall id | id in query.expressions ensures WorkerInv(query, rank, log, s, id) {
      var op, w, inputs := query.expressions[id], s.workers[id], Inputs(query.expressions, rank, log, id);
      assert ShapedEntry(query, s, id);
      forall i | 0 <= i < |inputs| ensures StrictlyDescending(inputs[i]) {
        assert Below(query.expressions, rank, op.refs[i], rank[id]);
        StreamMeaning(query.expressions, rank, log, op.refs[i], 0);
      }
      assert Remaining(inputs, w.taken) == inputs;
      assert [] + Out(op.kind, inputs) == Out(op.kind, inputs);
    }
  }

  // ---------------------------------------------------------------- every step keeps the invariant

  /** Nothing is taken back: channels only grow, receivers only leave. */
  ghost predicate Onward(query: Query, s: State, s': State) {
    && Shaped(query, s) && Shaped(query, s')
    && (s'.listening ==> s.listening) && (s.finished ==> s'.finished)
    && (forall id :: id in query.expressions ==>
          s.workers[id].sent <= s'.workers[id].sent
          && (s.workers[id].local.Done? ==> s'.workers[id] == s.workers[id]))
    && (forall t :: t in s.readers ==>
          s.readers[t].sent <= s'.readers[t].sent && (s.readers[t].closed ==> s'.readers[t] == s.readers[t]))
  }

  lemma StillConnected(query: Query, s: State, s': State, r: Reference)
    requires Onward(query, s, s') && Connected(query, s', r)
    ensures Connected(query, s, r)
  {
  }

  lemma WorkerKept(query: Query, rank: map<nat, nat>, log: seq<Entry>, s: State, s': State, id: nat)
    requires Onward(query, s, s') && Sound(query.expressions, rank)
    requires id in query.expressions && WorkerInv(query, rank, log, s, id) && s'.workers[id] == s.workers[id]
    ensures WorkerInv(query, rank, log, s', id)
  {
    var op, w := query.expressions[id], s.workers[id];
    assert ShapedEntry(query, s, id);
    if Connected(query, s', Expression(id)) {
      StillConnected(query, s, s', Expression(id));
    }
    forall i | 0 <= i < |op.refs| ensures |Sent(query, s, op.refs[i])| <= |Sent(query, s', op.refs[i])| {
      assert Registered(query, op.refs[i]);
    }
  }

  lemma ReaderKept(query: Query, log: seq<Entry>, s: State, s': State, t: nat)
    requires Onward(query, s, s') && t in s.readers && ReaderInv(query, log, s, t) && s'.readers[t] == s.readers[t]
    ensures ReaderInv(query, log, s', t)
  {
    if Connected(query, s', Trigram(t)) {
      StillConnected(query, s, s', Trigram(t));
    }
  }

  /** A step of a connected worker, given what it saw at the input it looked at. */
  lemma StepOwes(kind: Kind, w: Worker, inputs: seq<seq<nat>>, item: Option<nat>)
    requires Fits(kind, |inputs|) && |w.taken| == |inputs| && InRange(w.local, |inputs|) && !w.local.Done?
    requires Owes(kind, w, inputs)
    requires var peeked := Peeks(w.local, |inputs|);
             peeked.Some? ==> item == Head(Beyond(inputs[peeked.value], w.taken[peeked.value]))
    ensures var w' := Step(kind, w, item, true);
            |w'.taken| == |inputs| && InRange(w'.local, |inputs|) && Owes(kind, w', inputs)
  {
    var m := Next(kind, |inputs|, w.local, item, true);
    var peeked := Peeks(w.local, |inputs|);
    var rests := Remaining(inputs, w.taken);
    StepKeeps(kind, rests, w.local, item);
    var after := After(rests, peeked, m.takes);
    assert Remaining(inputs, Step(kind, w, item, true).taken) == after;
    Split(w.sent, m.sends, Future(kind, m.local, after));
  }

  /** Any step: it takes only an id it saw, and sends only at the end of its channel. */
  lemma StepShape(kind: Kind, w: Worker, item: Option<nat>, connected: bool)
    requires Fits(kind, |w.taken|) && !w.local.Done? && InRange(w.local, |w.taken|)
    ensures var w' := Step(kind, w, item, connected);
            && |w'.taken| == |w.taken| && InRange(w'.local, |w.taken|) && w.sent <= w'.sent
            && forall i :: 0 <= i < |w.taken| ==>
                 w'.taken[i] == w.taken[i]
                 || (Peeks(w.local, |w.taken|) == Some(i) && item.Some? && w'.taken[i] == w.taken[i] + 1)
  {
    NextShape(kind, |w.taken|, w.local, item, connected);
  }

  lemma Split(sent: seq<nat>, now: seq<nat>, later: seq<nat>)
    ensures sent + (now + later) == (sent + now) + later
  {
  }

  lemma ReplaceWorker(query: Query, s: State, id: nat, w': Worker)
    requires Shaped(query, s) && id in query.expressions && !s.workers[id].local.Done?
    requires s.workers[id].sent <= w'.sent && |w'.taken| == |s.workers[id].taken|
    requires InRange(w'.local, |w'.taken|)
    ensures Onward(query, s, s.(workers := s.workers[id := w']))
  {
    var s' := s.(workers := s.workers[id := w']);
    forall j | j in query.expressions ensures ShapedEntry(query, s', j) {
      assert ShapedEntry(query, s, j);
    }
  }

  /** What a worker sees on an input is what its streams really hold there. */
  lemma SeenTrue(query: Query, rank: map<nat, nat>, log: seq<Entry>, s: State, id: nat)
    requires Inv(query, rank, log, s) && id in query.expressions && !s.workers[id].local.Done?
    requires Seen(query, s, id).Some?
    ensures var w := s.workers[id];
            var inputs := Inputs(query.expressions, rank, log, id);
            var peeked := Peeks(w.local, |inputs|);
            && |w.taken| == |inputs|
            && (peeked.Some? ==>
                  && Seen(query, s, id).value == Head(Beyond(inputs[peeked.value], w.taken[peeked.value]))
                  && Registered(query, query.expressions[id].refs[peeked.value])
                  && (Seen(query, s, id).value.Some? ==>
                        w.taken[peeked.value] < |Sent(query, s, query.expressions[id].refs[peeked.value])|))
  {
    var op, w := query.expressions[id], s.workers[id];
    assert ShapedEntry(query, s, id) && WorkerInv(query, rank, log, s, id);
    var peeked := Peeks(w.local, |op.refs|);
    if peeked.Some? {
      var r := op.refs[peeked.value];
      assert r in op.refs;
      assert Connected(query, s, r);
      ChannelTrue(query, rank, log, s, r);
    }
  }

  lemma WorkKeeps(query: Query, rank: map<nat, nat>, log: seq<Entry>, s: State, id: nat)
    requires Inv(query, rank, log, s) && id in query.expressions && !s.workers[id].local.Done?
    requires Seen(query, s, id).Some?
    ensures var s' := s.(workers := s.workers[id := Moved(query, s, id, Seen(query, s, id).value)]);
            Onward(query, s, s') && WorkerInv(query, rank, log, s', id)
  {
    var op, w, item := query.expressions[id], s.workers[id], Seen(query, s, id).value;
    var s' := s.(workers := s.workers[id := Moved(query, s, id, item)]);
    assert ShapedEntry(query, s, id) && WorkerInv(query, rank, log, s, id);
    var connected := Connected(query, s, Expression(id));
    SeenTrue(query, rank, log, s, id);
    StepShape(op.kind, w, item, connected);
    ReplaceWorker(query, s, id, Moved(query, s, id, item));
    hide Step; hide Seen;
    if Connected(query, s', Expression(id)) {
      StillConnected(query, s, s', Expression(id));
      StepOwes(op.kind, w, Inputs(query.expressions, rank, log, id), item);
    }
    forall i | 0 <= i < |op.refs| ensures s'.workers[id].taken[i] <= |Sent(query, s', op.refs[i])| {
      assert Registered(query, op.refs[i]);
      assert |Sent(query, s, op.refs[i])| <= |Sent(query, s', op.refs[i])|;
    }
  }

  lemma SentGrows(query: Query, s: State, s': State, r: Reference)
    requires Onward(query, s, s') && Registered(query, r)
    ensures Sent(query, s, r) <= Sent(query, s', r)
  {
  }

  /** The entries that a step left alone keep their parts of the invariant. */
  lemma OthersKeep(query: Query, rank: map<nat, nat>, log: seq<Entry>, s: State, s': State)
    requires Inv(query, rank, log, s) && Onward(query, s, s')
    ensures Shaped(query, s') && s'.readers.Keys == s.readers.Keys
    ensures forall id :: id in query.expressions && s'.workers[id] == s.workers[id] ==>
              WorkerInv(query, rank, log, s', id)
    ensures forall t :: t in s.readers && s'.readers[t] == s.readers[t] ==> ReaderInv(query, log, s', t)
    ensures !s.finished ==> s.output <= Sent(query, s', query.root)
  {
    hide WorkerInv; hide ReaderInv; hide Sent;
    forall id | id in query.expressions && s'.workers[id] == s.workers[id] ensures WorkerInv(query, rank, log, s', id) {
      WorkerKept(query, rank, log, s, s', id);
    }
    forall t | t in s.readers && s'.readers[t] == s.readers[t] ensures ReaderInv(query, log, s', t) {
      ReaderKept(query, log, s, s', t);
    }
    SentGrows(query, s, s', query.root);
  }

  lemma ReplaceReader(query: Query, s: State, t: nat, r: Reader)
    requires Shaped(query, s) && t in s.readers && !s.readers[t].closed && s.readers[t].sent <= r.sent
    ensures Onward(query, s, s.(readers := s.readers[t := r]))
  {
    SameShape(query, s, s.(readers := s.readers[t := r]));
  }

  lemma SameShape(query: Query, s: State, s': State)
    requires Shaped(query, s) && s'.workers == s.workers && s'.readers.Keys == s.readers.Keys
    ensures Shaped(query, s')
  {
    forall id | id in query.expressions ensures ShapedEntry(query, s', id) {
      assert ShapedEntry(query, s, id);
    }
  }

  /** A reader sends its next id, or ends its channel when there is none or when nobody listens. */
  lemma ReaderKeeps(query: Query, rank: map<nat, nat>, log: seq<Entry>, s: State, t: nat, r: Reader)
    requires Inv(query, rank, log, s) && t in s.readers && !s.readers[t].closed
    requires var sent, all := s.readers[t].sent, Postings(log, t);
             || (!Connected(query, s, Trigram(t)) && r == Reader(sent, true))
             || (|sent| < |all| && r == Reader(sent + [all[|sent|]], false))
             || (|sent| >= |all| && r == Reader(sent, true))
    ensures var s' := s.(readers := s.readers[t := r]);
            Onward(query, s, s') && Inv(query, rank, log, s')
  {
    var s' := s.(readers := s.readers[t := r]);
    ReplaceReader(query, s, t, r);
    ReaderTrue(query, log, s, s', t) by { assert ReaderInv(query, log, s, t); }
    hide *;
    OneReader(query, rank, log, s, s', t);
  }

  lemma OneReader(query: Query, rank: map<nat, nat>, log: seq<Entry>, s: State, s': State, t: nat)
    requires Inv(query, rank, log, s) && Onward(query, s, s') && t in s.readers && ReaderInv(query, log, s', t)
    requires s' == s.(readers := s.readers[t := s'.readers[t]])
    ensures Inv(query, rank, log, s')
  {
    hide WorkerInv; hide ReaderInv; hide Onward; hide Sent; hide Shaped; hide Sound; hide Stream;
    OthersKeep(query, rank, log, s, s');
  }

  lemma ReaderTrue(query: Query, log: seq<Entry>, s: State, s': State, t: nat)
    requires Onward(query, s, s') && t in s.readers && !s.readers[t].closed && ReaderInv(query, log, s, t)
    requires var sent, all, r := s.readers[t].sent, Postings(log, t), s'.readers[t];
             || (!Connected(query, s, Trigram(t)) && r == Reader(sent, true))
             || (|sent| < |all| && r == Reader(sent + [all[|sent|]], false))
             || (|sent| >= |all| && r == Reader(sent, true))
    ensures ReaderInv(query, log, s', t)
  {
    if Connected(query, s', Trigram(t)) {
      StillConnected(query, s, s', Trigram(t));
    }
  }

  /** A step of the query itself touches no worker and no reader. */
  lemma QueryKeeps(query: Query, rank: map<nat, nat>, log: seq<Entry>, s: State, s': State)
    requires Inv(query, rank, log, s) && s'.workers == s.workers && s'.readers == s.readers
    requires (s'.listening ==> s.listening) && (s.finished ==> s'.finished)
    requires if s'.finished then s'.output == Stream(query.expressions, rank, log, query.root)
             else s'.output <= Sent(query, s, query.root)
    ensures Onward(query, s, s') && Inv(query, rank, log, s')
  {
    SameShape(query, s, s');
    QueryOnward(query, s, s');
    hide WorkerInv; hide ReaderInv; hide Shaped; hide Onward; hide Connected;
    OthersKeep(query, rank, log, s, s');
  }

  /** What the query receives is the next id of the root's stream, or its end. */
  lemma ReceiveTrue(query: Query, rank: map<nat, nat>, log: seq<Entry>, s: State)
    requires Inv(query, rank, log, s) && Act(query, log, s, Receive).Some?
    ensures var s' := Act(query, log, s, Receive).value;
            if s'.finished then s'.output == Stream(query.expressions, rank, log, query.root)
            else s'.output <= Sent(query, s, query.root)
  {
    RootKnown(query, s);
    hide WorkerInv; hide ReaderInv; hide Shaped; hide Stream; hide Sent; hide Closed; hide Registered; hide Connected;
    ChannelTrue(query, rank, log, s, query.root);
    NextOfPrefix(s.output, Sent(query, s, query.root));
  }

  lemma RootKnown(query: Query, s: State)
    requires Shaped(query, s)
    ensures Registered(query, query.root)
    ensures !s.finished ==> Connected(query, s, query.root)
  {
  }

  lemma NextOfPrefix(out: seq<nat>, sent: seq<nat>)
    requires out <= sent
    ensures |out| < |sent| ==> out + [sent[|out|]] <= sent
    ensures |out| >= |sent| ==> out == sent
  {
  }

  lemma QueryOnward(query: Query, s: State, s': State)
    requires Shaped(query, s) && Shaped(query, s') && s'.workers == s.workers && s'.readers == s.readers
    requires (s'.listening ==> s.listening) && (s.finished ==> s'.finished)
    ensures Onward(query, s, s')
    ensures forall r | Registered(query, r) :: Sent(query, s', r) == Sent(query, s, r)
  {
  }

  lemma WorkStarts(query: Query, s: State, id: nat)
    requires Shaped(query, s) && id in s.workers
    ensures id in query.expressions
  {
  }

  /** Every step of every actor keeps the invariant. */
  lemma ActKeeps(query: Query, rank: map<nat, nat>, log: seq<Entry>, s: State, a: Actor)
    requires Inv(query, rank, log, s) && Act(query, log, s, a).Some?
    ensures Inv(query, rank, log, Act(query, log, s, a).value)
    ensures Onward(query, s, Act(query, log, s, a).value)
  {
    hide WorkerInv; hide ReaderInv; hide Shaped; hide Onward; hide Connected; hide Sent; hide Moved; hide Seen;
    hide Stream;
    var s' := Act(query, log, s, a).value;
    match a {
      case Work(id) =>
        WorkStarts(query, s, id);
        WorkKeeps(query, rank, log, s, id);
        OthersKeep(query, rank, log, s, s');
      case Read(t) => ReaderKeeps(query, rank, log, s, t, s'.readers[t]);
      case Leave(t) => ReaderKeeps(query, rank, log, s, t, s'.readers[t]);
      case DropListeners => QueryKeeps(query, rank, log, s, s');
      case Receive =>
        ReceiveTrue(query, rank, log, s);
        QueryKeeps(query, rank, log, s, s');
    }
  }

  // ---------------------------------------------------------------- whole runs

  /** The state after a schedule, if every actor in it could move when its turn came. */
  ghost function Run(query: Query, rank: map<nat, nat>, log: seq<Entry>, s: State, schedule: seq<Actor>)
    : (r: Option<State>)
    requires Inv(query, rank, log, s)
    ensures r.Some? ==> Inv(query, rank, log, r.value)
    decreases |schedule|
  {
    if schedule == [] then Some(s)
    else
      match Act(query, log, s, schedule[0])
      case None => None
      case Some(s') =>
        ActKeeps(query, rank, log, s, schedule[0]);
        Run(query, rank, log, s', schedule[1..])
  }

  /** The network of a query that has a channel for its root, at its start. */
  ghost function Started(query: Query, rank: map<nat, nat>, log: seq<Entry>): (s: State)
    requires Sound(query.expressions, rank) && AllDescending(log) && Registered(query, query.root)
    ensures Start(query) == Some(s) && Inv(query, rank, log, s)
  {
    StartInv(query, rank, log);
    Start(query).value
  }

  /** However the workers and readers are scheduled, a query that ends has exactly the ids of the formula. */
  lemma QueryExact(query: Query, rank: map<nat, nat>, log: seq<Entry>, schedule: seq<Actor>, end: State)
    requires Sound(query.expressions, rank) && AllDescending(log) && Registered(query, query.root)
    requires Run(query, rank, log, Started(query, rank, log), schedule) == Some(end) && end.finished
    ensures StrictlyDescending(end.output)
    ensures forall x: nat :: x in end.output <==> Holds(query.expressions, rank, HasId(log, x), query.root)
  {
    forall x: nat
      ensures StrictlyDescending(end.output)
      ensures x in end.output <==> Holds(query.expressions, rank, HasId(log, x), query.root)
    {
      StreamMeaning(query.expressions, rank, log, query.root, x);
    }
    StreamMeaning(query.expressions, rank, log, query.root, 0);
  }

  /** Whoever waits on a channel waits in the end for someone who can move. */
  lemma {:induction false} SomeoneMoves(query: Query, rank: map<nat, nat>, log: seq<Entry>, s: State, r: Reference)
    returns (a: Actor)
    requires Shaped(query, s) && Sound(query.expressions, rank)
    requires Registered(query, r) && !Closed(query, s, r)
    ensures Act(query, log, s, a).Some?
    decreases RankOf(rank, r)
  {
    match r
    case Trigram(t) => a := Read(t);
    case Expression(id) =>
      var op, w := query.expressions[id], s.workers[id];
      assert ShapedEntry(query, s, id);
      if Seen(query, s, id).Some? {
        a := Work(id);
      } else {
        var i := Peeks(w.local, |op.refs|).value;
        assert Below(query.expressions, rank, op.refs[i], rank[id]);
        a := SomeoneMoves(query, rank, log, s, op.refs[i]);
      }
  }

  /** The query itself can move unless it waits for an id from an open root channel. */
  lemma QueryMoves(query: Query, log: seq<Entry>, s: State)
    requires Shaped(query, s) && !s.finished
    ensures s.listening ==> Act(query, log, s, DropListeners).Some?
    ensures Registered(query, query.root)
    ensures !s.listening && Closed(query, s, query.root) ==> Act(query, log, s, Receive).Some?
  {
  }

  /** No schedule gets stuck: until the query has its answer some actor can move. */
  lemma NeverStuck(query: Query, rank: map<nat, nat>, log: seq<Entry>, s: State) returns (a: Actor)
    requires Shaped(query, s) && Sound(query.expressions, rank) && !s.finished
    ensures Act(query, log, s, a).Some?
  {
    QueryMoves(query, log, s);
    hide *;
    if s.listening {
      a := DropListeners;
    } else if Closed(query, s, query.root) {
      a := Receive;
    } else {
      a := SomeoneMoves(query, rank, log, s, query.root);
    }
  }
}
