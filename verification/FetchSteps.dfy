/**
 What one round of the main loop of the fetch agent does (`_fetch_agent`, src/broker/fetcher.rs), and
 what every round keeps: the checkpoint only rises, everything received before it is processed, and no
 entry is attempted more than eleven times.
 */
module FetchSteps {
  import opened Fetcher

  const RETRY_LIMIT := 10

  datatype Info = Info(finished: bool, retries: nat)

  /** What wakes the loop: rows in the channel, a job that returned or died, or the clock. */
  datatype Event = Rows(rows: seq<File>) | Returned(file: File, accepted: bool) | Died(file: File) | Tick

  /**
   The agent between two rounds.  `saved` is the checkpoint as last saved, where a restarted agent
   resumes, and `inbox` are the rows in the channel.  The last five say what has happened: the rows
   received, those whose ingestion was brought to an end, those whose job died; a time that no row in the
   channel or to come is before; and how often a job was started for an entry.
   */
  datatype State = State(
    pending: map<File, Info>, recent: set<File>, running: set<File>, checkpoint: int, saved: int, seekPoint: int,
    inbox: seq<File>, received: set<File>, processed: set<File>, lost: set<File>, latest: int, starts: map<File, nat>)

  function Start(checkpoint: int): State {
    State(map[], {}, {}, checkpoint, checkpoint, checkpoint, [], {}, {}, {}, checkpoint, map[])
  }

  // ---------------------------------------------------------------- the first of some files

  ghost predicate Least(f: File, files: set<File>) {
    f in files && forall g :: g in files ==> Leq(f, g)
  }

  lemma {:induction false} HasLeast(files: set<File>)
    requires files != {}
    ensures exists f :: Least(f, files)
  {
    var a :| a in files;
    if files - {a} == {} {
      assert forall g :: g in files && g != a ==> g in files - {a};
      assert Least(a, files);
    } else {
      HasLeast(files - {a});
      var b :| Least(b, files - {a});
      assert forall g :: g in files ==> g == a || g in files - {a};
      assert Least(if Leq(a, b) then a else b, files);
    }
  }

  ghost function First(files: set<File>): (f: File)
    requires files != {}
    ensures Least(f, files)
  {
    HasLeast(files);
    var f :| Least(f, files);
    f
  }

  lemma OneFirst(f: File, files: set<File>)
    requires Least(f, files)
    ensures First(files) == f
  {
    assert Leq(f, First(files)) && Leq(First(files), f);
  }

  // ---------------------------------------------------------------- the parts of a round

  ghost predicate FirstIsFinished(pending: map<File, Info>) {
    pending.Keys != {} && pending[First(pending.Keys)].finished
  }

  /** The first entry is taken out of the table, and the checkpoint moves up to it. */
  ghost function Retired(s: State): State
    requires FirstIsFinished(s.pending)
  {
    var first := First(s.pending.Keys);
    s.(pending := s.pending - {first}, starts := s.starts - {first}, checkpoint := first.seen,
       recent := s.recent + {first})
  }

  lemma FewerEntries(m: map<File, Info>, f: File)
    requires f in m
    ensures |m - {f}| < |m|
  {
    assert m.Keys == (m - {f}).Keys + {f};
    assert |m.Keys| == |m| && |(m - {f}).Keys| == |m - {f}|;
  }

  ghost function Advanced(s: State): State
    decreases |s.pending|
  {
    if FirstIsFinished(s.pending) then
      FewerEntries(s.pending, First(s.pending.Keys));
      Advanced(Retired(s))
    else s.(saved := s.checkpoint)
  }

  ghost function Trimmed(recent: set<File>, most: nat): set<File> {
    if |recent| > most then Trimmed(recent - {First(recent)}, most) else recent
  }

  /** The next row is received: skipped if recent or already pending, otherwise a job is started for it. */
  function Received(s: State): (t: State)
    requires s.inbox != []
    ensures |t.inbox| == |s.inbox| - 1
  {
    var file := s.inbox[0];
    var t := s.(inbox := s.inbox[1..], received := s.received + {file});
    if file in s.recent then t
    else
      var u := t.(seekPoint := Max(s.seekPoint, file.seen));
      if file in s.pending then u
      else
        u.(pending := s.pending[file := Info(false, 0)], starts := s.starts[file := 1],
           running := s.running + {file})
  }

  function Filled(s: State, most: nat): State
    decreases |s.inbox|
  {
    if |s.running| < most && s.inbox != [] then Filled(Received(s), most) else s
  }

  /** A job came back: started again if it failed and may be retried, otherwise its entry is finished. */
  function Ended(s: State, file: File, accepted: bool): State {
    if file !in s.pending then s.(running := s.running - {file})
    else
      var retries := s.pending[file].retries + 1;
      if retries <= RETRY_LIMIT && !accepted then
        s.(pending := s.pending[file := Info(false, retries)],
           starts := s.starts[file := if file in s.starts then s.starts[file] + 1 else 1])
      else
        s.(pending := s.pending[file := Info(true, retries)], running := s.running - {file},
           processed := s.processed + {file})
  }

  /** What wakes the loop; a report of a job that is not running is none. */
  function Reported(s: State, event: Event): State {
    match event
    case Rows(rows) => s.(inbox := s.inbox + rows, latest := SeekAfter(rows, s.latest))
    case Returned(file, accepted) => if file in s.running then Ended(s, file, accepted) else s
    case Died(file) => if file in s.running then s.(running := s.running - {file}, lost := s.lost + {file}) else s
    case Tick => s
  }

  /** A round up to where it waits. */
  ghost function Prepared(s: State, most: nat): State {
    var t := Advanced(s);
    Filled(t.(recent := Trimmed(t.recent, most)), most)
  }

  ghost function Turned(s: State, event: Event, most: nat): State {
    Reported(Prepared(s, most), event)
  }

  ghost function After(s: State, events: seq<Event>, most: nat): State
    decreases |events|
  {
    if events == [] then s else After(Turned(s, events[0], most), events[1..], most)
  }

  lemma {:induction false} AfterBoth(s: State, a: seq<Event>, b: seq<Event>, most: nat)
    ensures After(s, a + b, most) == After(After(s, a, most), b, most)
    decreases |a|
  {
    hide Turned;
    if a == [] {
      assert a + b == b;
    } else {
      AfterBoth(Turned(s, a[0], most), a[1..], b, most);
      assert (a + b)[1..] == a[1..] + b;
    }
  }

  // ---------------------------------------------------------------- what every step keeps

  /** The order of times: the checkpoint is at or before everything that is pending or to come. */
  ghost predicate InOrder(start: int, saved: int, checkpoint: int, latest: int, files: set<File>, inbox: seq<File>) {
    && start <= saved <= checkpoint <= latest && BySeen(inbox)
    && (forall f :: f in files ==> checkpoint <= f.seen <= latest)
    && (forall g :: g in inbox ==> checkpoint <= g.seen <= latest)
    && (forall f, g :: f in files && g in inbox ==> f.seen <= g.seen)
  }

  /** Everything received is processed, or pending with a job on its way unless the job died. */
  ghost predicate Accounted(received: set<File>, processed: set<File>, recent: set<File>, running: set<File>,
                            lost: set<File>, pending: map<File, Info>) {
    && (forall f :: f in received ==> f in processed || (f in pending && !pending[f].finished))
    && (forall f :: f in pending ==> f in received && (pending[f].finished ==> f in processed))
    && recent <= processed <= received
    && (forall f :: f in running + lost <==> f in pending && !pending[f].finished)
    && running !! lost
  }

  /** Every start of a job is a retry that came back or the job now on its way. */
  ghost predicate Counted(pending: map<File, Info>, starts: map<File, nat>) {
    && starts.Keys == pending.Keys
    && (forall f :: f in pending ==>
          && starts[f] == pending[f].retries + (if pending[f].finished then 0 else 1)
          && starts[f] <= RETRY_LIMIT + 1)
  }

  /** The checkpoint has come as far as what was received and is no longer pending. */
  ghost predicate Passed(received: set<File>, recent: set<File>, files: set<File>, checkpoint: int) {
    && (forall f :: f in received ==> f in files || f.seen <= checkpoint)
    && (forall f :: f in recent ==> f.seen <= checkpoint)
  }

  /** The latest time is that of a row, unless none has come. */
  ghost predicate Reached(start: int, latest: int, received: set<File>, inbox: seq<File>) {
    latest == start || exists f :: (f in received || f in inbox) && f.seen == latest
  }

  ghost predicate Sound(s: State, start: int) {
    && InOrder(start, s.saved, s.checkpoint, s.latest, s.pending.Keys, s.inbox)
    && Accounted(s.received, s.processed, s.recent, s.running, s.lost, s.pending)
    && Counted(s.pending, s.starts)
    && Passed(s.received, s.recent, s.pending.Keys, s.checkpoint)
    && Reached(start, s.latest, s.received, s.inbox)
  }

  lemma StartSound(checkpoint: int)
    ensures Sound(Start(checkpoint), checkpoint)
  {
  }

  lemma OrderRetire(start: int, saved: int, checkpoint: int, latest: int, files: set<File>, inbox: seq<File>,
                    first: File)
    requires InOrder(start, saved, checkpoint, latest, files, inbox) && Least(first, files)
    ensures InOrder(start, saved, first.seen, latest, files - {first}, inbox) && checkpoint <= first.seen
  {
    assert first in files;
    assert forall f :: f in files ==> first.seen <= f.seen;
  }

  lemma OrderReceive(start: int, saved: int, checkpoint: int, latest: int, files: set<File>, inbox: seq<File>)
    requires InOrder(start, saved, checkpoint, latest, files, inbox) && inbox != []
    ensures InOrder(start, saved, checkpoint, latest, files, inbox[1..])
    ensures InOrder(start, saved, checkpoint, latest, files + {inbox[0]}, inbox[1..])
  {
    var file, rest := inbox[0], inbox[1..];
    assert file in inbox;
    forall g | g in rest ensures g in inbox && file.seen <= g.seen {
      var k :| 0 <= k < |rest| && rest[k] == g;
      assert inbox[k + 1] == g;
    }
  }

  lemma OrderArrive(start: int, saved: int, checkpoint: int, latest: int, files: set<File>, inbox: seq<File>,
                    rows: seq<File>)
    requires InOrder(start, saved, checkpoint, latest, files, inbox) && Climbs(rows, latest)
    ensures InOrder(start, saved, checkpoint, SeekAfter(rows, latest), files, inbox + rows)
  {
    assert forall f :: f in rows ==> latest <= f.seen <= SeekAfter(rows, latest);
    assert latest <= SeekAfter(rows, latest);
    Appended(inbox, rows, latest);
    forall f, g | f in files && g in inbox + rows ensures f.seen <= g.seen {
      assert g in inbox || g in rows;
    }
  }

  lemma AccountRetire(received: set<File>, processed: set<File>, recent: set<File>, running: set<File>, lost: set<File>,
                      pending: map<File, Info>, f: File)
    requires Accounted(received, processed, recent, running, lost, pending) && f in pending && pending[f].finished
    ensures Accounted(received, processed, recent + {f}, running, lost, pending - {f})
  {
  }

  lemma AccountReceive(received: set<File>, processed: set<File>, recent: set<File>, running: set<File>,
                       lost: set<File>, pending: map<File, Info>, f: File)
    requires Accounted(received, processed, recent, running, lost, pending)
    ensures f in recent || f in pending ==> Accounted(received + {f}, processed, recent, running, lost, pending)
    ensures f !in pending ==>
              Accounted(received + {f}, processed, recent, running + {f}, lost, pending[f := Info(false, 0)])
  {
    if f in pending && pending[f].finished {
      assert f in processed;
    }
  }

  lemma AccountEnd(received: set<File>, processed: set<File>, recent: set<File>, running: set<File>, lost: set<File>,
                   pending: map<File, Info>, f: File, retries: nat)
    requires Accounted(received, processed, recent, running, lost, pending) && f in running
    ensures f in pending && !pending[f].finished
    ensures Accounted(received, processed + {f}, recent, running - {f}, lost, pending[f := Info(true, retries)])
    ensures Accounted(received, processed, recent, running, lost, pending[f := Info(false, retries)])
    ensures Accounted(received, processed, recent, running - {f}, lost + {f}, pending)
  {
    assert f in running + lost;
  }

  lemma CountSteps(pending: map<File, Info>, starts: map<File, nat>, f: File)
    requires Counted(pending, starts)
    ensures Counted(pending - {f}, starts - {f}) && (pending - {f}).Keys == pending.Keys - {f}
    ensures Counted(pending[f := Info(false, 0)], starts[f := 1])
    ensures pending[f := Info(false, 0)].Keys == pending.Keys + {f}
  {
  }

  lemma CountEnd(pending: map<File, Info>, starts: map<File, nat>, f: File, retries: nat)
    requires Counted(pending, starts) && f in pending && !pending[f].finished && retries == pending[f].retries + 1
    ensures f in starts && starts[f] == retries <= RETRY_LIMIT + 1
    ensures Counted(pending[f := Info(true, retries)], starts) && pending[f := Info(true, retries)].Keys == pending.Keys
    ensures retries <= RETRY_LIMIT ==> Counted(pending[f := Info(false, retries)], starts[f := starts[f] + 1])
    ensures pending[f := Info(false, retries)].Keys == pending.Keys
  {
  }

  lemma ReachedReceive(start: int, latest: int, received: set<File>, inbox: seq<File>)
    requires Reached(start, latest, received, inbox) && inbox != []
    ensures Reached(start, latest, received + {inbox[0]}, inbox[1..])
  {
    assert inbox == [inbox[0]] + inbox[1..];
  }

  lemma ReachedArrive(start: int, latest: int, received: set<File>, inbox: seq<File>, rows: seq<File>)
    requires Reached(start, latest, received, inbox)
    ensures Reached(start, SeekAfter(rows, latest), received, inbox + rows)
  {
    if rows != [] {
      assert rows[|rows| - 1] in inbox + rows;
    }
  }

  lemma RetireSound(s: State, start: int)
    requires Sound(s, start) && FirstIsFinished(s.pending)
    ensures Sound(Retired(s), start) && s.checkpoint <= Retired(s).checkpoint
  {
    var first := First(s.pending.Keys);
    OrderRetire(start, s.saved, s.checkpoint, s.latest, s.pending.Keys, s.inbox, first);
    AccountRetire(s.received, s.processed, s.recent, s.running, s.lost, s.pending, first);
    CountSteps(s.pending, s.starts, first);
    hide InOrder; hide Accounted; hide Counted; hide Least; hide Reached;
  }

  lemma {:induction false} AdvanceSound(s: State, start: int)
    requires Sound(s, start)
    ensures Sound(Advanced(s), start) && s.checkpoint <= Advanced(s).checkpoint == Advanced(s).saved
    ensures Advanced(s) == s.(pending := Advanced(s).pending, recent := Advanced(s).recent,
                              checkpoint := Advanced(s).checkpoint, saved := Advanced(s).saved,
                              starts := Advanced(s).starts)
    decreases |s.pending|
  {
    if FirstIsFinished(s.pending) {
      RetireSound(s, start);
      FewerEntries(s.pending, First(s.pending.Keys));
      hide Sound; hide Least; hide First;
      AdvanceSound(Retired(s), start);
    } else {
      hide Accounted; hide Counted; hide Passed; hide Reached;
    }
  }

  lemma {:induction false} TrimSound(s: State, start: int, most: nat)
    requires Sound(s, start)
    ensures Sound(s.(recent := Trimmed(s.recent, most)), start)
  {
    TrimmedExactly(s.recent, most);
    hide InOrder; hide Counted; hide Reached; hide Trimmed; hide Least;
  }

  lemma ReceiveSound(s: State, start: int)
    requires Sound(s, start) && s.inbox != []
    ensures Sound(Received(s), start)
  {
    var file := s.inbox[0];
    OrderReceive(start, s.saved, s.checkpoint, s.latest, s.pending.Keys, s.inbox);
    AccountReceive(s.received, s.processed, s.recent, s.running, s.lost, s.pending, file);
    CountSteps(s.pending, s.starts, file);
    ReachedReceive(start, s.latest, s.received, s.inbox);
    hide InOrder; hide Accounted; hide Counted; hide Reached; hide Leq;
  }

  lemma {:induction false} FillSound(s: State, start: int, most: nat)
    requires Sound(s, start)
    ensures Sound(Filled(s, most), start)
    decreases |s.inbox|
  {
    hide Sound; hide Received;
    if |s.running| < most && s.inbox != [] {
      ReceiveSound(s, start);
      FillSound(Received(s), start, most);
    }
  }

  lemma ReportSound(s: State, start: int, event: Event)
    requires Sound(s, start) && (event.Rows? ==> Climbs(event.rows, s.latest))
    ensures Sound(Reported(s, event), start)
  {
    match event
    case Rows(rows) =>
      OrderArrive(start, s.saved, s.checkpoint, s.latest, s.pending.Keys, s.inbox, rows);
      ReachedArrive(start, s.latest, s.received, s.inbox, rows);
      hide InOrder; hide Accounted; hide Counted; hide Reached; hide Climbs;
    case Returned(file, accepted) =>
      if file in s.running {
        EndSound(s, start, file, accepted);
      }
    case Died(file) =>
      if file in s.running {
        AccountEnd(s.received, s.processed, s.recent, s.running, s.lost, s.pending, file, 0);
        hide InOrder; hide Accounted; hide Counted; hide Reached;
      }
    case Tick =>
  }

  /** A running job belongs to an entry that is not finished and has attempts left. */
  lemma RunningFacts(s: State, start: int, file: File)
    requires Sound(s, start) && file in s.running
    ensures file in s.pending && !s.pending[file].finished && s.pending[file].retries <= RETRY_LIMIT
    ensures file in s.starts && s.starts[file] == s.pending[file].retries + 1
  {
    assert file in s.running + s.lost;
  }

  lemma EndSound(s: State, start: int, file: File, accepted: bool)
    requires Sound(s, start) && file in s.running
    ensures Sound(Ended(s, file, accepted), start)
  {
    RunningFacts(s, start, file);
    var retries := s.pending[file].retries + 1;
    AccountEnd(s.received, s.processed, s.recent, s.running, s.lost, s.pending, file, retries);
    CountEnd(s.pending, s.starts, file, retries);
    hide InOrder; hide Accounted; hide Counted; hide Reached; hide Passed;
    if retries <= RETRY_LIMIT && !accepted {
      assert Ended(s, file, accepted).pending == s.pending[file := Info(false, retries)];
    } else {
      assert Ended(s, file, accepted).pending == s.pending[file := Info(true, retries)];
    }
  }

  // ---------------------------------------------------------------- trimming

  /** As many as may stay, and those that go are the oldest. */
  lemma {:induction false} TrimmedExactly(recent: set<File>, most: nat)
    ensures Trimmed(recent, most) <= recent
    ensures |Trimmed(recent, most)| == if |recent| > most then most else |recent|
    ensures forall f, g :: f in Trimmed(recent, most) && g in recent - Trimmed(recent, most) ==> Leq(g, f)
  {
    if |recent| > most {
      var first := First(recent);
      TrimmedExactly(recent - {first}, most);
      var stay := Trimmed(recent - {first}, most);
      assert stay == Trimmed(recent, most);
      forall f, g | f in stay && g in recent - stay ensures Leq(g, f) {
        if g != first { assert g in recent - {first} - stay; }
      }
    }
  }

  // ---------------------------------------------------------------- whole rounds

  /** Rows that were in the channel are still there, or have been received. */
  ghost predicate NoneMissing(rows: seq<File>, received: set<File>, inbox: seq<File>) {
    forall f :: f in rows ==> f in received || f in inbox
  }

  lemma PrepareSound(s: State, start: int, most: nat)
    requires Sound(s, start)
    ensures Sound(Prepared(s, most), start)
  {
    AdvanceSound(s, start);
    TrimSound(Advanced(s), start, most);
    FillSound(Advanced(s).(recent := Trimmed(Advanced(s).recent, most)), start, most);
  }

  lemma TurnSound(s: State, start: int, event: Event, most: nat)
    requires Sound(s, start) && (event.Rows? ==> Climbs(event.rows, s.latest))
    ensures Sound(Turned(s, event, most), start)
  {
    PrepareSound(s, start, most);
    FillLeaves(Advanced(s).(recent := Trimmed(Advanced(s).recent, most)), most);
    AdvanceSound(s, start);
    ReportSound(Prepared(s, most), start, event);
  }

  /** What filling the places among the running jobs does not touch. */
  lemma {:induction false} FillLeaves(s: State, most: nat)
    ensures Filled(s, most) == Filled(s, most).(recent := s.recent, checkpoint := s.checkpoint, saved := s.saved,
                                                processed := s.processed, lost := s.lost, latest := s.latest)
    ensures |s.running| <= most ==> |Filled(s, most).running| <= most
    decreases |s.inbox|
  {
    if |s.running| < most && s.inbox != [] {
      FillLeaves(Received(s), most);
    }
  }

  // ---------------------------------------------------------------- whole runs

  /** The rows of a run come in the order of their time, none before what has come. */
  ghost predicate FedInOrder(events: seq<Event>, latest: int)
    decreases |events|
  {
    events == []
    || (if events[0].Rows? then
          Climbs(events[0].rows, latest) && FedInOrder(events[1..], SeekAfter(events[0].rows, latest))
        else FedInOrder(events[1..], latest))
  }

  lemma FedOne(events: seq<Event>, latest: int)
    requires FedInOrder(events, latest) && events != []
    ensures events[0].Rows? ==> Climbs(events[0].rows, latest)
    ensures FedInOrder(events[1..], if events[0].Rows? then SeekAfter(events[0].rows, latest) else latest)
  {
  }

  /** What the invariant says about the checkpoint. */
  lemma SoundIsSafe(s: State, start: int)
    requires Sound(s, start)
    ensures start <= s.saved <= s.checkpoint
    ensures forall f :: f in s.received && f.seen < s.checkpoint ==> f in s.processed
    ensures forall f :: f in s.inbox ==> s.checkpoint <= f.seen
    ensures forall f :: f in s.pending ==> f in s.starts && s.starts[f] <= RETRY_LIMIT + 1
    ensures forall f :: f in s.lost ==> s.checkpoint <= f.seen
  {
    forall f | f in s.lost ensures s.checkpoint <= f.seen {
      assert f in s.running + s.lost;
    }
  }
}
