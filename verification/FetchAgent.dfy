/**
 The main loop of the fetch agent (`_fetch_agent`, src/broker/fetcher.rs), with the fields that it keeps.
 Each round does what `FetchSteps` says, so that what that module and `FetchProgress` prove of
 rounds and runs holds of it.
 */
module FetchAgent {
  import opened Fetcher
  import opened FetchSteps
  import opened FetchProgress

  method FirstOf(files: set<File>) returns (first: File)
    requires files != {}
    ensures Least(first, files) && first == First(files)
  {
    first :| first in files;
    var left := files - {first};
    while left != {}
      invariant left <= files && first in files
      invariant forall g :: g in files && g !in left ==> Leq(first, g)
      decreases |left|
    {
      var g :| g in left;
      if !Leq(first, g) { first := g; }
      left := left - {g};
    }
    OneFirst(first, files);
  }

  class FetchAgent {
    const concurrentTasks: nat
    const start: int
    var pending: map<File, Info>
    var recent: set<File>
    var running: set<File>
    var checkpoint: int
    /** The checkpoint as last saved: where a restarted agent resumes. */
    var saved: int
    var seekPoint: int
    /** Rows in the channel, not yet received. */
    var inbox: seq<File>
    /** Rows received; rows whose ingestion was brought to an end; rows whose job died. */
    ghost var received: set<File>
    ghost var processed: set<File>
    ghost var lost: set<File>
    /** No row in the channel or to come is earlier. */
    ghost var latest: int
    /** How often a job was started for an entry. */
    ghost var starts: map<File, nat>

    ghost function Now(): State
      reads this
    {
      State(pending, recent, running, checkpoint, saved, seekPoint, inbox, received, processed, lost, latest, starts)
    }

    ghost predicate Valid()
      reads this
    {
      Sound(Now(), start)
    }

    constructor (checkpoint: int, concurrentTasks: nat)
      ensures Valid() && Now() == Start(checkpoint)
      ensures start == checkpoint && this.concurrentTasks == concurrentTasks
    {
      this.concurrentTasks, start := concurrentTasks, checkpoint;
      pending, recent, running, inbox := map[], {}, {}, [];
      this.checkpoint, saved, seekPoint := checkpoint, checkpoint, checkpoint;
      received, processed, lost, latest, starts := {}, {}, {}, checkpoint, map[];
      new;
      StartSound(checkpoint);
    }

    /** Takes the finished first entry out of the table and moves the checkpoint up to it. */
    method Retire(first: File)
      requires FirstIsFinished(pending) && first == First(pending.Keys)
      modifies `pending, `recent, `checkpoint, `starts
      ensures Now() == Retired(old(Now()))
    {
      pending := pending - {first};
      starts := starts - {first};
      checkpoint := first.seen;
      recent := recent + {first};
    }

    /** `set_checkpoint`. */
    method SaveCheckpoint()
      modifies `saved
      ensures saved == checkpoint
    {
      saved := checkpoint;
    }

    lemma AdvanceUnfolds(s: State)
      ensures Advanced(s) == if FirstIsFinished(s.pending) then Advanced(Retired(s)) else s.(saved := s.checkpoint)
    {
    }

    /** Retires finished entries from the front of the table, and saves the checkpoint reached. */
    method AdvanceCheckpoint()
      modifies `pending, `recent, `checkpoint, `saved, `starts
      ensures Now() == Advanced(old(Now())) && Went(old(Now()), Now(), Front(old(pending)))
    {
      ghost var before := Now();
      AdvancedExactly(before);
      hide Advanced; hide Went; hide Front; hide Least;
      var done := false;
      while !done
        invariant Advanced(Now()) == Advanced(before)
        invariant unchanged(`seekPoint, `inbox, `running, `received, `processed, `lost, `latest)
        invariant done ==> !FirstIsFinished(pending)
        decreases |pending|, !done
      {
        AdvanceUnfolds(Now());
        if pending.Keys == {} {
          done := true;
        } else {
          var first := FirstOf(pending.Keys);
          if pending[first].finished {
            FewerEntries(pending, first);
            Retire(first);
          } else {
            done := true;
          }
        }
      }
      AdvanceUnfolds(Now());
      SaveCheckpoint();
    }

    /** Forgets the oldest recent files beyond `concurrentTasks`. */
    method TrimRecent()
      modifies `recent
      ensures Now() == old(Now()).(recent := Trimmed(old(recent), concurrentTasks))
      ensures recent <= old(recent)
      ensures |recent| == if |old(recent)| > concurrentTasks then concurrentTasks else |old(recent)|
      ensures forall f, g :: f in recent && g in old(recent) - recent ==> Leq(g, f)
    {
      TrimmedExactly(recent, concurrentTasks);
      hide Least; hide Leq;
      while |recent| > concurrentTasks
        invariant Trimmed(recent, concurrentTasks) == Trimmed(old(recent), concurrentTasks)
        decreases |recent|
      {
        var oldest := FirstOf(recent);
        recent := recent - {oldest};
      }
    }

    /** Rows from the search stream come into the channel. */
    method Arrive(rows: seq<File>)
      modifies `inbox, `latest
      ensures Now() == Reported(old(Now()), Rows(rows))
    {
      inbox := inbox + rows;
      latest := SeekAfter(rows, latest);
    }

    /** Receives one row: skipped if recent or already pending, otherwise a job is started for it. */
    method Receive()
      requires inbox != []
      modifies `pending, `running, `seekPoint, `inbox, `received, `starts
      ensures Now() == Received(old(Now()))
      ensures inbox == old(inbox)[1..] && received == old(received) + {old(inbox)[0]}
      ensures var file := old(inbox)[0];
              if file in recent || file in old(pending) then pending == old(pending) && running == old(running)
              else pending == old(pending)[file := Info(false, 0)] && running == old(running) + {file}
    {
      var file := inbox[0];
      inbox := inbox[1..];
      received := received + {file};
      if file !in recent {
        seekPoint := Max(seekPoint, file.seen);
        if file !in pending {
          pending := pending[file := Info(false, 0)];
          starts := starts[file := 1];
          running := running + {file};
        }
      }
    }

    /** Fills the free places among the running jobs from the channel. */
    method TakeJobs()
      modifies `pending, `running, `seekPoint, `inbox, `received, `starts
      ensures Now() == Filled(old(Now()), concurrentTasks)
      ensures inbox == [] || |running| >= concurrentTasks
    {
      while |running| < concurrentTasks && inbox != []
        invariant Filled(Now(), concurrentTasks) == Filled(old(Now()), concurrentTasks)
        decreases |inbox|
      {
        Receive();
      }
    }

    /** Counts the attempt, and starts the job again or finishes the entry. */
    method CountAttempt(file: File, accepted: bool)
      requires file in pending
      modifies `pending, `running, `processed, `starts
      ensures Now() == Ended(old(Now()), file, accepted)
    {
      var retries := pending[file].retries + 1;
      if retries <= RETRY_LIMIT && !accepted {
        pending := pending[file := Info(false, retries)];
        starts := starts[file := if file in starts then starts[file] + 1 else 1];
      } else {
        pending := pending[file := Info(true, retries)];
        running := running - {file};
        processed := processed + {file};
      }
    }

    /** A job came back: started again if it failed and may be retried, otherwise its entry is finished. */
    method Finish(file: File, accepted: bool)
      requires Valid() && file in running
      modifies `pending, `running, `processed, `starts
      ensures Now() == Ended(old(Now()), file, accepted) && file in old(starts) && file in old(pending)
      ensures var over := accepted || old(starts)[file] == RETRY_LIMIT + 1;
              && pending == old(pending)[file := Info(over, old(pending)[file].retries + 1)]
              && processed == (if over then old(processed) + {file} else old(processed))
              && running == (if over then old(running) - {file} else old(running))
    {
      EndedFacts(Now(), start, file, accepted);
      hide Valid; hide Ended; hide Sound;
      CountAttempt(file, accepted);
    }

    /** A job died: its entry stays as it is, with nothing left that would finish it. */
    method JobDied(file: File)
      modifies `running, `lost
      ensures running == old(running) - {file} && lost == old(lost) + {file}
    {
      running := running - {file};
      lost := lost + {file};
    }

    /** What the loop waits for has come. */
    method Wake(event: Event)
      requires Valid()
      modifies `pending, `running, `inbox, `processed, `lost, `latest, `starts
      ensures Now() == Reported(old(Now()), event)
    {
      hide Sound; hide Ended; hide SeekAfter;
      match event {
        case Rows(rows) =>
          Arrive(rows);
        case Returned(file, accepted) =>
          if file in running {
            Finish(file, accepted);
          }
        case Died(file) =>
          if file in running {
            JobDied(file);
          }
        case Tick =>
      }
    }
  }

  /** A running job has an entry, which is finished when the job is accepted or was the eleventh attempt. */
  lemma EndedFacts(s: State, start: int, file: File, accepted: bool)
    requires Sound(s, start) && file in s.running
    ensures file in s.starts && file in s.pending
    ensures var t, over := Ended(s, file, accepted), accepted || s.starts[file] == RETRY_LIMIT + 1;
            && t.pending == s.pending[file := Info(over, s.pending[file].retries + 1)]
            && t.processed == (if over then s.processed + {file} else s.processed)
            && t.running == (if over then s.running - {file} else s.running)
            && t.starts == if over then s.starts else s.starts[file := s.starts[file] + 1]
  {
    RunningFacts(s, start, file);
    hide Sound;
  }

  // ---------------------------------------------------------------- whole rounds and runs

  /** One round of the main loop; a report of a job that is not running is an error and changes nothing. */
  method Turn(agent: FetchAgent, event: Event)
    requires agent.Valid() && (event.Rows? ==> Climbs(event.rows, agent.latest))
    modifies agent
    ensures agent.Valid() && agent.Now() == Turned(old(agent.Now()), event, agent.concurrentTasks)
    ensures TakesIn(old(agent.Now()), agent.Now(), event, agent.concurrentTasks)
    ensures LetsGo(old(agent.Now()), agent.Now())
    ensures old(agent.saved) <= agent.saved && old(agent.checkpoint) <= agent.checkpoint
    ensures agent.latest == if event.Rows? then SeekAfter(event.rows, old(agent.latest)) else old(agent.latest)
    ensures |old(agent.running)| <= agent.concurrentTasks ==> |agent.running| <= agent.concurrentTasks
    ensures old(agent.received) <= agent.received && old(agent.lost) <= agent.lost
    ensures NoneMissing(old(agent.inbox) + (if event.Rows? then event.rows else []), agent.received, agent.inbox)
  {
    ghost var s := agent.Now();
    TurnHolds(s, agent.start, event, agent.concurrentTasks);
    hide Sound; hide Advanced; hide Trimmed; hide Filled; hide Reported; hide TakesIn; hide LetsGo; hide NoneMissing;
    hide Went; hide Front; hide Climbs; hide SeekAfter; hide Leq;
    agent.AdvanceCheckpoint();
    agent.TrimRecent();
    agent.TakeJobs();
    assert agent.Now() == Prepared(s, agent.concurrentTasks);
    agent.Wake(event);
  }

  /** What a round keeps and gets done. */
  lemma TurnHolds(s: State, start: int, event: Event, most: nat)
    requires Sound(s, start) && (event.Rows? ==> Climbs(event.rows, s.latest))
    ensures Sound(Prepared(s, most), start) && Sound(Turned(s, event, most), start)
    ensures var t := Turned(s, event, most);
            && TakesIn(s, t, event, most) && LetsGo(s, t)
            && s.saved <= t.saved && s.checkpoint <= t.checkpoint
            && t.latest == (if event.Rows? then SeekAfter(event.rows, s.latest) else s.latest)
            && (|s.running| <= most ==> |t.running| <= most)
            && s.received <= t.received && s.lost <= t.lost
            && NoneMissing(s.inbox + (if event.Rows? then event.rows else []), t.received, t.inbox)
  {
    hide *;
    PrepareSound(s, start, most);
    TurnSound(s, start, event, most);
    TurnTakesIn(s, start, event, most);
    TurnLetsGo(s, start, event, most);
    TurnMissesNone(s, start, event, most);
    TurnClimbs(s, start, event, most);
  }

  lemma TurnClimbs(s: State, start: int, event: Event, most: nat)
    requires Sound(s, start)
    ensures var t := Turned(s, event, most);
            && s.saved <= t.saved && s.checkpoint <= t.checkpoint && (|s.running| <= most ==> |t.running| <= most)
  {
    PreparedClimbs(s, start, most);
    ReportFewer(Prepared(s, most), event);
    hide Prepared; hide Reported; hide Sound;
  }

  lemma PreparedClimbs(s: State, start: int, most: nat)
    requires Sound(s, start)
    ensures var p := Prepared(s, most);
            && s.saved <= p.saved && s.checkpoint <= p.checkpoint && (|s.running| <= most ==> |p.running| <= most)
  {
    AdvanceSound(s, start);
    FillLeaves(Made(s, most), most);
    SoundIsSafe(s, start);
    hide Sound; hide Advanced; hide Filled; hide Trimmed;
  }

  lemma ReportFewer(s: State, event: Event)
    ensures var t := Reported(s, event);
            t.saved == s.saved && t.checkpoint == s.checkpoint && |t.running| <= |s.running|
  {
    assert Reported(s, event).running <= s.running;
    SubsetSize(Reported(s, event).running, s.running);
  }

  lemma {:induction false} SubsetSize(a: set<File>, b: set<File>)
    requires a <= b
    ensures |a| <= |b|
  {
    if a != {} {
      var x :| x in a;
      SubsetSize(a - {x}, b - {x});
    }
  }

  /**
   Any run: rows in order, jobs that come back, fail or die in any order, and any waiting.  The agent
   is where the rounds of the run lead, the checkpoint has not gone back, everything received before
   it is processed, nothing in the channel is before it, no entry was attempted more than eleven times,
   and an entry whose job died holds the checkpoint back.
   */
  method Run(checkpoint: int, concurrentTasks: nat, events: seq<Event>) returns (agent: FetchAgent)
    requires FedInOrder(events, checkpoint)
    ensures fresh(agent) && agent.Valid() && agent.start == checkpoint
    ensures agent.Now() == After(Start(checkpoint), events, concurrentTasks)
    ensures checkpoint <= agent.saved <= agent.checkpoint
    ensures forall f :: f in agent.received && f.seen < agent.checkpoint ==> f in agent.processed
    ensures forall f :: f in agent.inbox ==> agent.checkpoint <= f.seen
    ensures forall f :: f in agent.pending ==> f in agent.starts && agent.starts[f] <= RETRY_LIMIT + 1
    ensures forall f :: f in agent.lost ==> agent.checkpoint <= f.seen
    ensures |agent.running| <= concurrentTasks
  {
    agent := new FetchAgent(checkpoint, concurrentTasks);
    var left := events;
    hide Sound; hide Turned; hide TakesIn; hide LetsGo; hide NoneMissing; hide Climbs; hide SeekAfter;
    while left != []
      invariant fresh(agent) && agent.Valid() && agent.start == checkpoint && agent.concurrentTasks == concurrentTasks
      invariant FedInOrder(left, agent.latest) && |agent.running| <= concurrentTasks
      invariant After(agent.Now(), left, concurrentTasks) == After(Start(checkpoint), events, concurrentTasks)
      decreases |left|
    {
      FedOne(left, agent.latest);
      Turn(agent, left[0]);
      left := left[1..];
    }
    SoundIsSafe(agent.Now(), checkpoint);
  }

  /** Any run that ends in so many reports of running jobs has every row processed, unless its job died. */
  method RunToEnd(checkpoint: int, concurrentTasks: nat, events: seq<Event>, reports: seq<Event>)
    returns (agent: FetchAgent)
    requires FedInOrder(events, checkpoint) && concurrentTasks > 0
    requires Busy(After(Start(checkpoint), events, concurrentTasks), reports, concurrentTasks)
    requires |reports| > Left(After(Start(checkpoint), events, concurrentTasks))
    ensures fresh(agent) && agent.Valid() && agent.inbox == [] && agent.running == {} && agent.saved == agent.checkpoint
    ensures forall f :: f in RowsOf(events) ==> f in agent.processed || f in agent.lost
    ensures NobodyDies(events + reports) ==>
              && agent.lost == {} && agent.pending == map[] && agent.checkpoint == LatestOf(events, checkpoint)
  {
    EveryRowIsProcessed(checkpoint, concurrentTasks, events, reports);
    hide FedInOrder; hide Busy; hide Left; hide After; hide NobodyDies; hide RowsOf; hide LatestOf; hide Sound;
    agent := Run(checkpoint, concurrentTasks, events + reports);
  }
}
