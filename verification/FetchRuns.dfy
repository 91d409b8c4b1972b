/**
 The search stream and the agent running together (src/broker/fetcher.rs): the stream polls a table
 that goes on growing, its rows reach the agent through a channel after any delay, and jobs return,
 fail or die in any order.  Whenever everything stops, an agent started again from the saved
 checkpoint misses no row that is not processed.
 */
module FetchRuns {
  import opened Fetcher
  import opened FetchSteps
  import opened FetchProgress
  import opened FetchAgent

  /** A poll of the table, some more rows coming through the channel, or something else that wakes the agent. */
  datatype Move = Poll(table: seq<File>, size: nat) | Deliver(count: nat) | Wake(event: Event)

  /** Tables are sorted by time, and between polls only rows at or past the seek point come in. */
  ghost predicate GoodPolls(moves: seq<Move>, seek: int, rows: set<File>)
    decreases |moves|
  {
    moves == []
    || (match moves[0]
        case Poll(table, size) =>
          && BySeen(table) && (forall f :: f in table && f !in rows ==> seek <= f.seen)
          && GoodPolls(moves[1..], SeekAfter(Batch(table, seek, size), seek), set f | f in table)
        case Deliver(_) => GoodPolls(moves[1..], seek, rows)
        case Wake(event) => !event.Rows? && GoodPolls(moves[1..], seek, rows))
  }

  /** The first `fed` rows that the stream sent have come to the agent. */
  ghost predicate Joined(start: int, output: seq<File>, fed: nat, latest: int, received: set<File>, inbox: seq<File>) {
    && fed <= |output| && NoneMissing(output[..fed], received, inbox)
    && latest == SeekAfter(output[..fed], start)
  }

  lemma JoinedMore(start: int, output: seq<File>, batch: seq<File>, fed: nat, latest: int, received: set<File>,
                   inbox: seq<File>)
    requires Joined(start, output, fed, latest, received, inbox)
    ensures Joined(start, output + batch, fed, latest, received, inbox)
  {
    assert (output + batch)[..fed] == output[..fed];
  }

  /** The rows that come next are no earlier than what has come. */
  lemma NextClimbs(start: int, seek: int, output: seq<File>, rows: set<File>, fed: nat, n: nat, latest: int,
                   received: set<File>, inbox: seq<File>)
    requires Covers(start, seek, output, rows) && Joined(start, output, fed, latest, received, inbox)
             && fed + n <= |output|
    ensures Climbs(output[fed..fed + n], latest)
    ensures SeekAfter(output[fed..fed + n], latest) == SeekAfter(output[..fed + n], start)
  {
    var next := output[fed..fed + n];
    forall k | 0 <= k < |next| ensures latest <= next[k].seen {
      assert output[fed + k] in output;
      if fed > 0 { assert output[fed - 1].seen <= output[fed + k].seen; }
    }
  }

  lemma JoinedDelivered(start: int, output: seq<File>, fed: nat, n: nat, latest: int, received: set<File>,
                        inbox: seq<File>,
                        latest': int, received': set<File>, inbox': seq<File>)
    requires Joined(start, output, fed, latest, received, inbox) && fed + n <= |output|
    requires received <= received' && NoneMissing(inbox + output[fed..fed + n], received', inbox')
    requires latest' == SeekAfter(output[..fed + n], start)
    ensures Joined(start, output, fed + n, latest', received', inbox')
  {
    forall f | f in output[..fed + n] ensures f in received' || f in inbox' {
      assert output[..fed + n] == output[..fed] + output[fed..fed + n];
      if f in output[..fed] && f !in received {
        assert f in inbox && f in inbox + output[fed..fed + n];
      }
    }
  }

  /** What is not processed lies at or after the saved checkpoint, in the table as last polled and in all later rows. */
  lemma NothingMissed(stream: SearchStream, agent: FetchAgent, fed: nat, f: File)
    requires stream.Valid() && agent.Valid() && agent.start == stream.start
    requires Joined(stream.start, stream.output, fed, agent.latest, agent.received, agent.inbox)
    requires stream.start <= f.seen && f !in agent.processed && (f in stream.rows || stream.seekPoint <= f.seen)
    ensures agent.saved <= f.seen
  {
    SoundIsSafe(agent.Now(), agent.start);
    var output := stream.output;
    assert agent.saved <= agent.checkpoint <= agent.latest;
    if f.seen < stream.seekPoint {
      var k :| 0 <= k < |output| && output[k] == f;
      if k < fed {
        assert f in output[..fed];
      } else if fed > 0 {
        assert output[fed - 1].seen <= output[k].seen;
      }
    } else if fed > 0 {
      assert output[fed - 1] in output;
    }
  }

  /** The stream, the channel and the agent between two moves. */
  datatype Joint = Joint(seek: int, output: seq<File>, rows: set<File>, fed: nat, agent: State)

  /** How many of the rows that were sent come with a delivery of so many. */
  function Delivered(output: seq<File>, fed: nat, count: nat): nat {
    if fed + count <= |output| then count else if fed <= |output| then |output| - fed else 0
  }

  ghost function Moved(j: Joint, move: Move, most: nat): Joint {
    match move
    case Poll(table, size) =>
      var batch := Batch(table, j.seek, size);
      j.(seek := SeekAfter(batch, j.seek), output := j.output + batch, rows := set f | f in table)
    case Deliver(count) =>
      var n := Delivered(j.output, j.fed, count);
      var rows := if j.fed + n <= |j.output| then j.output[j.fed..j.fed + n] else [];
      j.(fed := j.fed + n, agent := Turned(j.agent, Rows(rows), most))
    case Wake(event) => j.(agent := Turned(j.agent, event, most))
  }

  ghost function AllMoved(j: Joint, moves: seq<Move>, most: nat): Joint
    decreases |moves|
  {
    if moves == [] then j else AllMoved(Moved(j, moves[0], most), moves[1..], most)
  }

  lemma MoveOn(j: Joint, moves: seq<Move>, i: nat, most: nat)
    requires i < |moves|
    ensures AllMoved(j, moves[i..], most) == AllMoved(Moved(j, moves[i], most), moves[i + 1..], most)
  {
    assert moves[i..][1..] == moves[i + 1..];
  }

  ghost function Now(stream: SearchStream, agent: FetchAgent, fed: nat): Joint
    reads stream, agent
  {
    Joint(stream.seekPoint, stream.output, stream.rows, fed, agent.Now())
  }

  /**
   Any joint run.  Stream, channel and agent are where its moves lead; every row of the table as last
   polled, and every row that may still come, from the first checkpoint on, is processed or lies at or
   after the saved checkpoint, where the next agent resumes; and the checkpoint has not gone back.
   */
  method RunBoth(checkpoint: int, concurrentTasks: nat, moves: seq<Move>)
    returns (stream: SearchStream, agent: FetchAgent, fed: nat)
    requires GoodPolls(moves, checkpoint, {})
    ensures agent.Valid() && stream.Valid() && agent.start == stream.start == checkpoint <= agent.saved
    ensures JointSound(Now(stream, agent, fed), checkpoint)
    ensures Now(stream, agent, fed)
         == AllMoved(Joint(checkpoint, [], {}, 0, Start(checkpoint)), moves, concurrentTasks)
    ensures forall f :: f in stream.rows && checkpoint <= f.seen && f !in agent.processed ==> agent.saved <= f.seen
    ensures forall f: File :: stream.seekPoint <= f.seen && f !in agent.processed ==> agent.saved <= f.seen
  {
    stream := new SearchStream(checkpoint);
    agent := new FetchAgent(checkpoint, concurrentTasks);
    fed := 0;
    ghost var first := Joint(checkpoint, [], {}, 0, Start(checkpoint));
    assert moves[0..] == moves && moves[|moves|..] == [];
    assert Joined(checkpoint, stream.output, fed, agent.latest, agent.received, agent.inbox);
    assert agent.Valid() && Now(stream, agent, fed) == first;
    hide *;
    for i := 0 to |moves|
      invariant fresh(stream) && fresh(agent) && stream.Valid() && agent.Valid()
      invariant agent.start == stream.start == checkpoint <= agent.saved && agent.concurrentTasks == concurrentTasks
      invariant Joined(checkpoint, stream.output, fed, agent.latest, agent.received, agent.inbox)
      invariant GoodPolls(moves[i..], stream.seekPoint, stream.rows)
      invariant AllMoved(Now(stream, agent, fed), moves[i..], concurrentTasks)
                == AllMoved(first, moves, concurrentTasks)
    {
      NextMove(moves, i, stream.seekPoint, stream.rows);
      MoveOn(Now(stream, agent, fed), moves, i, concurrentTasks);
      fed := OneMove(stream, agent, fed, moves[i]);
    }
    NoneMissed(stream, agent, fed);
    NowSound(stream, agent, fed);
    NoMoves(Now(stream, agent, fed), concurrentTasks);
  }

  lemma NowSound(stream: SearchStream, agent: FetchAgent, fed: nat)
    requires stream.Valid() && agent.Valid() && agent.start == stream.start
    requires Joined(stream.start, stream.output, fed, agent.latest, agent.received, agent.inbox)
    ensures JointSound(Now(stream, agent, fed), stream.start)
  {
  }

  lemma NoMoves(j: Joint, most: nat)
    ensures AllMoved(j, [], most) == j
  {
  }

  method OneMove(stream: SearchStream, agent: FetchAgent, fed: nat, move: Move) returns (fed': nat)
    requires stream.Valid() && agent.Valid() && agent.start == stream.start
    requires Joined(stream.start, stream.output, fed, agent.latest, agent.received, agent.inbox)
    requires match move
             case Poll(table, size) =>
               BySeen(table) && forall f :: f in table && f !in stream.rows ==> stream.seekPoint <= f.seen
             case Deliver(_) => true
             case Wake(event) => !event.Rows?
    modifies stream, agent
    ensures stream.Valid() && agent.Valid() && old(agent.saved) <= agent.saved
    ensures Joined(stream.start, stream.output, fed', agent.latest, agent.received, agent.inbox)
    ensures Now(stream, agent, fed') == Moved(old(Now(stream, agent, fed)), move, agent.concurrentTasks)
  {
    hide Joined; hide FetchAgent.Valid; hide SearchStream.Valid; hide Turned; hide Batch; hide SeekAfter;
    hide FetchAgent.Now;
    match move {
      case Poll(table, size) =>
        JoinedMore(stream.start, stream.output, Batch(table, stream.seekPoint, size), fed, agent.latest,
            agent.received, agent.inbox);
        stream.Poll(table, size);
        fed' := fed;
      case Deliver(count) =>
        fed' := Pass(stream, agent, fed, count);
      case Wake(event) =>
        WakeUp(stream, agent, fed, event);
        fed' := fed;
    }
  }

  /** What holds of every state of a joint run. */
  ghost predicate JointSound(j: Joint, start: int) {
    && Covers(start, j.seek, j.output, j.rows) && Sound(j.agent, start)
    && Joined(start, j.output, j.fed, j.agent.latest, j.agent.received, j.agent.inbox)
  }

  /** The agent is woken by one event after the other. */
  function Wakes(events: seq<Event>): (moves: seq<Move>)
    ensures |moves| == |events|
  {
    if events == [] then [] else [Wake(events[0])] + Wakes(events[1..])
  }

  lemma {:induction false} WokenAgent(j: Joint, events: seq<Event>, most: nat)
    ensures AllMoved(j, Wakes(events), most) == j.(agent := After(j.agent, events, most))
    decreases |events|
  {
    hide Turned;
    if events != [] {
      assert Wakes(events)[1..] == Wakes(events[1..]);
      WokenAgent(Moved(j, Wake(events[0]), most), events[1..], most);
    }
  }

  /** The rows that were sent and have not come to the agent. */
  function Coming(j: Joint): seq<File> {
    if j.fed <= |j.output| then j.output[j.fed..|j.output|] else []
  }

  lemma DeliveredAll(j: Joint, count: nat, most: nat)
    requires j.fed <= |j.output| <= count
    ensures Moved(j, Deliver(count), most)
         == j.(fed := |j.output|, agent := Turned(j.agent, Rows(Coming(j)), most))
  {
    hide Turned;
    assert j.fed + Delivered(j.output, j.fed, count) == |j.output|;
  }

  lemma ComingClimbs(j: Joint, start: int)
    requires JointSound(j, start)
    ensures j.fed <= |j.output| && Climbs(Coming(j), j.agent.latest) && Sound(j.agent, start)
    ensures SeekAfter(Coming(j), j.agent.latest) == SeekAfter(j.output[..|j.output|], start)
  {
    NextClimbs(start, j.seek, j.output, j.rows, j.fed, |j.output| - j.fed, j.agent.latest, j.agent.received,
        j.agent.inbox);
  }

  /** All rows that were sent come to the agent. */
  lemma AllDelivered(j: Joint, start: int, count: nat, most: nat)
    requires JointSound(j, start) && |j.output| <= count
    ensures var d := Moved(j, Deliver(count), most);
            && JointSound(d, start) && d == j.(fed := |j.output|, agent := d.agent)
            && d.agent.lost == j.agent.lost
  {
    ComingClimbs(j, start);
    DeliveredAll(j, count, most);
    var rows, a := Coming(j), Turned(j.agent, Rows(Coming(j)), most);
    assert j.output[j.fed..j.fed + (|j.output| - j.fed)] == rows;
    hide Sound; hide Covers; hide Turned; hide Joined; hide Climbs; hide SeekAfter; hide NoneMissing; hide Moved;
    hide Coming;
    TurnSound(j.agent, start, Rows(rows), most);
    TurnMissesNone(j.agent, start, Rows(rows), most);
    JoinedDelivered(start, j.output, j.fed, |j.output| - j.fed, j.agent.latest, j.agent.received, j.agent.inbox,
        a.latest, a.received, a.inbox);
  }

  /**
   From wherever a joint run has come to: when the rows sent have come through the channel, so many
   reports of running jobs leave every row of the table as last polled, up to the seek point, processed,
   unless its job died.
   */
  lemma PolledRowsAreProcessed(j: Joint, start: int, count: nat, reports: seq<Event>, most: nat)
    requires JointSound(j, start) && |j.output| <= count && most > 0
    requires var d := Moved(j, Deliver(count), most); Busy(d.agent, reports, most) && |reports| > Left(d.agent)
    ensures var end := AllMoved(j, [Deliver(count)] + Wakes(reports), most).agent;
            && Drained(end)
            && (forall f :: f in j.rows && start <= f.seen < j.seek ==> f in end.processed || f in end.lost)
            && (j.agent.lost == {} && NobodyDies(reports) ==>
                  end.lost == {} && end.pending == map[]
                  && end.saved == end.checkpoint == SeekAfter(j.output, start))
  {
    var d := Moved(j, Deliver(count), most);
    AllDelivered(j, start, count, most);
    assert ([Deliver(count)] + Wakes(reports))[1..] == Wakes(reports);
    assert AllMoved(j, [Deliver(count)] + Wakes(reports), most) == AllMoved(d, Wakes(reports), most);
    WokenAgent(d, reports, most);
    hide AllMoved; hide Moved; hide Wakes; hide Sound; hide Turned; hide After; hide Left;
    BusyBringsNone(d.agent, reports, most, d.agent.latest);
    RunFacts(d.agent, start, reports, most);
    Drains(d.agent, start, reports, most);
    AllOutputReceived(d, start, After(d.agent, reports, most));
    hide Covers; hide Drained; hide Joined; hide Busy; hide NobodyDies; hide SeekAfter; hide RowsOf;
  }

  lemma AllOutputReceived(d: Joint, start: int, end: State)
    requires JointSound(d, start) && d.fed == |d.output| && Drained(end)
    requires d.agent.received <= end.received && NoneMissing(d.agent.inbox, end.received, end.inbox)
    ensures forall f :: f in d.rows && start <= f.seen < d.seek ==> f in end.processed || f in end.lost
    ensures d.agent.latest == SeekAfter(d.output, start)
  {
    assert d.output[..|d.output|] == d.output;
    hide Sound; hide SeekAfter; hide HeldBy;
    forall f | f in d.output ensures f in end.received {
      assert f in d.agent.received || f in d.agent.inbox;
    }
  }

  lemma NoneMissed(stream: SearchStream, agent: FetchAgent, fed: nat)
    requires stream.Valid() && agent.Valid() && agent.start == stream.start
    requires Joined(stream.start, stream.output, fed, agent.latest, agent.received, agent.inbox)
    ensures forall f :: f in stream.rows && stream.start <= f.seen && f !in agent.processed ==> agent.saved <= f.seen
    ensures forall f: File :: stream.seekPoint <= f.seen && f !in agent.processed ==> agent.saved <= f.seen
  {
    forall f: File | stream.start <= f.seen && f !in agent.processed && (f in stream.rows || stream.seekPoint <= f.seen)
      ensures agent.saved <= f.seen
    {
      NothingMissed(stream, agent, fed, f);
    }
  }

  /** The agent is woken by something other than rows. */
  method WakeUp(stream: SearchStream, agent: FetchAgent, ghost fed: nat, event: Event)
    requires stream.Valid() && agent.Valid() && agent.start == stream.start && !event.Rows?
    requires Joined(stream.start, stream.output, fed, agent.latest, agent.received, agent.inbox)
    modifies agent
    ensures agent.Valid() && old(agent.saved) <= agent.saved
    ensures agent.Now() == Turned(old(agent.Now()), event, agent.concurrentTasks)
    ensures Joined(stream.start, stream.output, fed, agent.latest, agent.received, agent.inbox)
  {
    ghost var inbox, received, latest := agent.inbox, agent.received, agent.latest;
    assert fed <= |stream.output| && latest == SeekAfter(stream.output[..fed], stream.start);
    assert stream.output[fed..fed] == [];
    hide Joined; hide SeekAfter; hide FetchAgent.Valid; hide NoneMissing; hide Turned; hide TakesIn; hide LetsGo;
    Turn(agent, event);
    JoinedDelivered(stream.start, stream.output, fed, 0, latest, received, inbox, agent.latest, agent.received,
        agent.inbox);
  }

  /** Some more of the rows that were sent come to the agent. */
  method Pass(stream: SearchStream, agent: FetchAgent, fed: nat, count: nat) returns (fed': nat)
    requires stream.Valid() && agent.Valid() && agent.start == stream.start
    requires Joined(stream.start, stream.output, fed, agent.latest, agent.received, agent.inbox)
    modifies agent
    ensures agent.Valid() && old(agent.saved) <= agent.saved
    ensures fed' == fed + Delivered(stream.output, fed, count) && fed' <= |stream.output|
    ensures agent.Now() == Turned(old(agent.Now()), Rows(stream.output[fed..fed']), agent.concurrentTasks)
    ensures Joined(stream.start, stream.output, fed', agent.latest, agent.received, agent.inbox)
  {
    var output := stream.output;
    var n := Delivered(output, fed, count);
    ghost var start, inbox, received, latest := stream.start, agent.inbox, agent.received, agent.latest;
    assert fed + n <= |output|;
    NextClimbs(start, stream.seekPoint, output, stream.rows, fed, n, latest, received, inbox);
    fed' := fed + n;
    var rows := output[fed..fed'];
    hide *;
    Feed(agent, rows);
    JoinedDelivered(start, output, fed, n, latest, received, inbox, agent.latest, agent.received, agent.inbox);
  }

  /** A round that ends with rows coming through the channel. */
  method Feed(agent: FetchAgent, rows: seq<File>)
    requires agent.Valid() && Climbs(rows, agent.latest)
    modifies agent
    ensures agent.Valid() && old(agent.saved) <= agent.saved && agent.latest == SeekAfter(rows, old(agent.latest))
    ensures old(agent.received) <= agent.received
    ensures NoneMissing(old(agent.inbox) + rows, agent.received, agent.inbox)
    ensures agent.Now() == Turned(old(agent.Now()), Rows(rows), agent.concurrentTasks)
  {
    hide *;
    Turn(agent, Rows(rows));
  }

  lemma NextMove(moves: seq<Move>, i: nat, seek: int, rows: set<File>)
    requires i < |moves| && GoodPolls(moves[i..], seek, rows)
    ensures match moves[i]
            case Poll(table, size) =>
              && BySeen(table) && (forall f :: f in table && f !in rows ==> seek <= f.seen)
              && GoodPolls(moves[i + 1..], SeekAfter(Batch(table, seek, size), seek), set f | f in table)
            case Deliver(_) => GoodPolls(moves[i + 1..], seek, rows)
            case Wake(event) => !event.Rows? && GoodPolls(moves[i + 1..], seek, rows)
  {
    assert moves[i..][1..] == moves[i + 1..];
  }
}
