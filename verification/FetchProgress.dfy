/**
 What the fetch agent gets done (`_fetch_agent`, src/broker/fetcher.rs): which rows a round takes in and
 which entries it lets go, and that the rows of any run are all processed, and the checkpoint comes up
 to the last of them, after so many reports of the jobs that are running.
 */
module FetchProgress {
  import opened Fetcher
  import opened FetchSteps

  // ---------------------------------------------------------------- one round

  /** The entries that are finished together with all before them. */
  ghost function Front(pending: map<File, Info>): set<File> {
    set f | f in pending && forall g :: g in pending && Leq(g, f) ==> pending[g].finished
  }

  ghost predicate Last(f: File, files: set<File>) {
    f in files && forall g :: g in files ==> Leq(g, f)
  }

  lemma FrontSteps(pending: map<File, Info>)
    requires pending.Keys != {}
    ensures var first := First(pending.Keys);
            Front(pending) == if pending[first].finished then {first} + Front(pending - {first}) else {}
    ensures forall f :: f in Front(pending) ==> Leq(First(pending.Keys), f)
  {
    var first := First(pending.Keys);
    assert forall f :: f in pending ==> Leq(first, f);
    if pending[first].finished {
      forall g | g in pending && Leq(g, first) ensures g == first {}
      forall f | f in pending - {first}
        ensures f in Front(pending) <==> f in Front(pending - {first})
      {
        assert forall g :: g in pending <==> g == first || g in pending - {first};
      }
    }
  }

  /** These entries have gone, and the checkpoint is at the last of them. */
  ghost predicate Went(s: State, t: State, gone: set<File>) {
    && t.pending == s.pending - gone && t.recent == s.recent + gone && t.saved == t.checkpoint
    && (gone == {} ==> t.checkpoint == s.checkpoint)
    && (gone != {} ==> exists f :: Last(f, gone) && t.checkpoint == f.seen)
  }

  lemma WentOne(s: State, r: State, t: State, first: File, rest: set<File>)
    requires r.pending == s.pending - {first} && r.recent == s.recent + {first} && r.checkpoint == first.seen
    requires Went(r, t, rest) && forall f :: f in rest ==> Leq(first, f)
    ensures Went(s, t, {first} + rest)
  {
    assert s.pending - {first} - rest == s.pending - ({first} + rest);
    assert s.recent + {first} + rest == s.recent + ({first} + rest);
    if rest == {} {
      assert Last(first, {first} + rest);
    } else {
      var f :| Last(f, rest) && t.checkpoint == f.seen;
      assert Last(f, {first} + rest);
    }
  }

  /** Exactly the front of the table goes. */
  lemma {:induction false} AdvancedExactly(s: State)
    ensures Went(s, Advanced(s), Front(s.pending))
    decreases |s.pending|
  {
    if s.pending.Keys == {} {
      assert Front(s.pending) == {} && s.pending - {} == s.pending;
    } else {
      FrontSteps(s.pending);
      if FirstIsFinished(s.pending) {
        var first, r := First(s.pending.Keys), Retired(s);
        FewerEntries(s.pending, first);
        assert Advanced(s) == Advanced(r) && Front(s.pending) == {first} + Front(r.pending);
        hide *;
        AdvancedExactly(r);
        WentOne(s, r, Advanced(r), first, Front(r.pending));
      } else {
        hide Least; hide Front;
        assert s.pending - {} == s.pending;
      }
    }
  }

  /** Some rows at the head of the channel. */
  function Heads(inbox: seq<File>, m: nat): set<File>
    requires m <= |inbox|
  {
    set k | 0 <= k < m :: inbox[k]
  }

  /** Rows are received in order until the channel is empty or enough jobs are running. */
  ghost predicate TakenIn(s: State, t: State, most: nat, m: nat) {
    && m <= |s.inbox| && t.inbox == s.inbox[m..] && t.received == s.received + Heads(s.inbox, m)
    && (t.inbox == [] || |t.running| >= most) && (|s.running| < most && s.inbox != [] ==> m > 0)
  }

  /** Each row taken in that was neither recent nor pending has an entry and a job; nothing else changes. */
  ghost predicate Entered(s: State, t: State, heads: set<File>) {
    && (forall f :: f in heads && f !in s.recent && f !in s.pending ==>
          f in t.pending && t.pending[f] == Info(false, 0) && f in t.running)
    && s.running <= t.running && t.running <= s.running + heads
    && (forall f :: f in s.pending ==> f in t.pending && t.pending[f] == s.pending[f])
    && (forall f :: f in t.pending ==> f in s.pending || (f in heads && t.pending[f] == Info(false, 0)))
  }

  lemma {:induction false} FilledExactly(s: State, most: nat) returns (m: nat)
    ensures TakenIn(s, Filled(s, most), most, m) && Entered(s, Filled(s, most), Heads(s.inbox, m))
    decreases |s.inbox|
  {
    if |s.running| < most && s.inbox != [] {
      var r, t := Received(s), Filled(s, most);
      assert t == Filled(r, most);
      var n := FilledExactly(r, most);
      m := n + 1;
      ReceivedOne(s);
      hide Received; hide Filled;
      HeadsMore(s.inbox, n);
      hide Heads; hide Entered;
      assert s.received + {s.inbox[0]} + Heads(r.inbox, n) == s.received + ({s.inbox[0]} + Heads(r.inbox, n));
      EnteredOne(s, r, t, Heads(r.inbox, n));
    } else {
      m := 0;
      assert s.inbox[0..] == s.inbox && Heads(s.inbox, 0) == {};
    }
  }

  lemma ReceivedOne(s: State)
    requires s.inbox != []
    ensures var r := Received(s); r.inbox == s.inbox[1..] && r.received == s.received + {s.inbox[0]}
  {
  }

  lemma HeadsMore(inbox: seq<File>, n: nat)
    requires inbox != [] && n <= |inbox[1..]|
    ensures Heads(inbox, n + 1) == {inbox[0]} + Heads(inbox[1..], n) && inbox[1..][n..] == inbox[n + 1..]
  {
    forall f | f in Heads(inbox, n + 1) ensures f in {inbox[0]} + Heads(inbox[1..], n) {
      var k :| 0 <= k < n + 1 && inbox[k] == f;
      if k > 0 { assert inbox[1..][k - 1] == f; }
    }
    forall f | f in Heads(inbox[1..], n) ensures f in Heads(inbox, n + 1) {
      var k :| 0 <= k < n && inbox[1..][k] == f;
      assert inbox[k + 1] == f;
    }
  }

  lemma EnteredOne(s: State, r: State, t: State, heads: set<File>)
    requires s.inbox != [] && r == Received(s) && Entered(r, t, heads)
    ensures Entered(s, t, {s.inbox[0]} + heads)
  {
    var file := s.inbox[0];
    if file !in s.recent && file !in s.pending {
      assert r.pending[file] == Info(false, 0) && file in r.running;
    }
  }

  /** The event ends the job of a row that was just received. */
  predicate Ends(event: Event, f: File) {
    event == Returned(f, true) || event == Died(f)
  }

  /**
   What a round takes in: the first row if there is room for a job; and a row that it receives and that
   was neither recent nor pending has an entry and a job, unless the event ended it.
   */
  ghost predicate TakesIn(s: State, t: State, event: Event, most: nat) {
    && (s.inbox != [] && |s.running| < most ==> s.inbox[0] in t.received)
    && (forall f :: f in t.received - s.received && f !in s.recent && f !in s.pending ==>
          f in t.pending && (f in t.running || Ends(event, f)))
  }

  /** What a round lets go: what was finished at the front, with the checkpoint at the last of it. */
  ghost predicate LetsGo(s: State, t: State) {
    && (forall f :: f in Front(s.pending) && f !in s.inbox ==> f !in t.pending)
    && (forall f :: f in s.pending && f !in Front(s.pending) ==> f in t.pending)
    && (Front(s.pending) == {} ==> t.checkpoint == s.checkpoint)
    && (Front(s.pending) != {} ==> exists f :: Last(f, Front(s.pending)) && t.checkpoint == f.seen)
    && t.saved == t.checkpoint
  }

  /** A round up to where it waits, as far as it matters here. */
  ghost predicate PreparedFrom(s: State, t: State, p: State, most: nat, m: nat) {
    && TakenIn(t, p, most, m) && Entered(t, p, Heads(t.inbox, m))
    && t.inbox == s.inbox && t.running == s.running && t.received == s.received
    && t.pending == s.pending - Front(s.pending) && t.recent <= s.recent + Front(s.pending)
    && p.checkpoint == p.saved == Advanced(s).checkpoint
    && p.lost == s.lost && p.latest == s.latest && p.processed == s.processed
  }

  ghost function Made(s: State, most: nat): State {
    Advanced(s).(recent := Trimmed(Advanced(s).recent, most))
  }

  lemma PreparedExactly(s: State, start: int, most: nat) returns (m: nat)
    requires Sound(s, start)
    ensures PreparedFrom(s, Made(s, most), Prepared(s, most), most, m)
  {
    AdvanceSound(s, start);
    AdvancedExactly(s);
    TrimmedExactly(Advanced(s).recent, most);
    hide Sound; hide Front; hide Advanced; hide Trimmed; hide TakenIn; hide Entered;
    FillLeaves(Made(s, most), most);
    m := FilledExactly(Made(s, most), most);
    hide Filled;
  }

  lemma TurnTakesIn(s: State, start: int, event: Event, most: nat)
    requires Sound(s, start)
    ensures TakesIn(s, Turned(s, event, most), event, most)
  {
    var m := PreparedExactly(s, start, most);
    ReportLeaves(Prepared(s, most), event);
    HeadsIn(s.inbox, m);
    hide *;
    ReportedTakesIn(s, Made(s, most), Prepared(s, most), event, most, m);
  }

  lemma ReportedTakesIn(s: State, t: State, p: State, event: Event, most: nat, m: nat)
    requires PreparedFrom(s, t, p, most, m)
    ensures TakesIn(s, Reported(p, event), event, most)
  {
    ReportLeaves(p, event);
    HeadsIn(s.inbox, m);
    FrontIn(s.pending);
    hide Heads; hide Front; hide Reported; hide Advanced;
  }

  lemma ReportedLetsGo(s: State, t: State, p: State, event: Event, most: nat, m: nat)
    requires PreparedFrom(s, t, p, most, m) && Went(s, Advanced(s), Front(s.pending))
    ensures LetsGo(s, Reported(p, event))
  {
    ReportLeaves(p, event);
    HeadsIn(s.inbox, m);
    hide Heads; hide Front; hide Reported; hide Advanced; hide Last;
  }

  lemma FrontIn(pending: map<File, Info>)
    ensures Front(pending) <= pending.Keys
  {
  }

  lemma TurnLetsGo(s: State, start: int, event: Event, most: nat)
    requires Sound(s, start)
    ensures LetsGo(s, Turned(s, event, most))
  {
    var m := PreparedExactly(s, start, most);
    AdvancedExactly(s);
    hide *;
    ReportedLetsGo(s, Made(s, most), Prepared(s, most), event, most, m);
  }

  lemma HeadsIn(inbox: seq<File>, m: nat)
    requires m <= |inbox|
    ensures forall f :: f in Heads(inbox, m) ==> f in inbox
    ensures m > 0 ==> inbox[0] in Heads(inbox, m)
  {
  }

  /** What the event does not touch, and what it leaves of the entries and jobs. */
  lemma ReportLeaves(s: State, event: Event)
    ensures var t := Reported(s, event);
            && t.checkpoint == s.checkpoint && t.saved == s.saved && t.received == s.received
            && t.pending.Keys == s.pending.Keys
            && (forall f :: f in s.running && f in s.pending && s.pending[f] == Info(false, 0) ==>
                  f in t.running || Ends(event, f))
  {
  }

  lemma TakenMissesNone(s: State, t: State, most: nat, m: nat)
    requires TakenIn(s, t, most, m)
    ensures s.received <= t.received && NoneMissing(s.inbox, t.received, t.inbox)
  {
    forall f | f in s.inbox ensures f in t.received || f in t.inbox {
      assert s.inbox == s.inbox[..m] + s.inbox[m..];
      if f in s.inbox[..m] { assert f in Heads(s.inbox, m); }
    }
  }

  lemma ReportMissesNone(rows: seq<File>, s: State, event: Event)
    requires NoneMissing(rows, s.received, s.inbox)
    ensures var t := Reported(s, event);
            && t.received == s.received && s.lost <= t.lost && (!event.Died? ==> t.lost == s.lost)
            && NoneMissing(rows + (if event.Rows? then event.rows else []), t.received, t.inbox)
            && t.latest == (if event.Rows? then SeekAfter(event.rows, s.latest) else s.latest)
  {
  }

  /** Rows in the channel are received or still there, and so are those that come. */
  lemma TurnMissesNone(s: State, start: int, event: Event, most: nat)
    requires Sound(s, start)
    ensures var t := Turned(s, event, most);
            && s.received <= t.received && s.lost <= t.lost && (!event.Died? ==> t.lost == s.lost)
            && NoneMissing(s.inbox + (if event.Rows? then event.rows else []), t.received, t.inbox)
            && t.latest == (if event.Rows? then SeekAfter(event.rows, s.latest) else s.latest)
  {
    var m := PreparedExactly(s, start, most);
    TakenMissesNone(Made(s, most), Prepared(s, most), most, m);
    ReportMissesNone(s.inbox, Prepared(s, most), event);
    hide Sound; hide Prepared; hide Reported; hide TakenIn; hide Entered; hide Heads; hide Made; hide NoneMissing;
    hide SeekAfter; hide Front; hide Advanced;
  }

  // ---------------------------------------------------------------- the work that is left

  /** How many more attempts the entry of a row may take. */
  function Tries(pending: map<File, Info>, f: File): (n: nat)
    ensures n >= 1
  {
    if f in pending && pending[f].retries <= RETRY_LIMIT then RETRY_LIMIT + 1 - pending[f].retries else 1
  }

  ghost function Attempts(files: set<File>, pending: map<File, Info>): nat {
    if files == {} then 0
    else Tries(pending, First(files)) + Attempts(files - {First(files)}, pending)
  }

  lemma {:induction false} AttemptsWithout(files: set<File>, pending: map<File, Info>, f: File)
    requires f in files
    ensures Attempts(files, pending) == Tries(pending, f) + Attempts(files - {f}, pending)
  {
    var first := First(files);
    if f != first {
      AttemptsWithout(files - {first}, pending, f);
      var rest := files - {f};
      OneFirst(first, rest);
      assert files - {first} - {f} == rest - {first};
    }
  }

  lemma {:induction false} AttemptsSame(files: set<File>, a: map<File, Info>, b: map<File, Info>)
    requires forall f :: f in files ==> Tries(a, f) == Tries(b, f)
    ensures Attempts(files, a) == Attempts(files, b)
  {
    if files != {} {
      AttemptsSame(files - {First(files)}, a, b);
    }
  }

  /** A bound on the reports to come: each row in the channel, and each running job, may take its attempts. */
  ghost function Left(s: State): nat {
    (RETRY_LIMIT + 1) * |s.inbox| + Attempts(s.running, s.pending)
  }

  lemma ReceiveLeft(s: State, start: int)
    requires Sound(s, start) && s.inbox != []
    ensures Left(Received(s)) <= Left(s)
  {
    var file, t := s.inbox[0], Received(s);
    if file !in s.recent && file !in s.pending {
      if file in s.running { RunningFacts(s, start, file); }
      hide Sound;
      AttemptsWithout(t.running, t.pending, file);
      assert t.running - {file} == s.running;
      AttemptsSame(s.running, s.pending, t.pending);
    }
  }

  lemma {:induction false} FillLeft(s: State, start: int, most: nat)
    requires Sound(s, start)
    ensures Left(Filled(s, most)) <= Left(s)
    decreases |s.inbox|
  {
    hide Sound; hide Left; hide Received;
    if |s.running| < most && s.inbox != [] {
      ReceiveLeft(s, start);
      ReceiveSound(s, start);
      FillLeft(Received(s), start, most);
    }
  }

  lemma RunningStays(s: State, start: int, f: File)
    requires Sound(s, start) && f in s.running
    ensures f in s.pending && f !in Front(s.pending)
  {
    RunningFacts(s, start, f);
    assert Leq(f, f);
  }

  lemma SameLeft(s: State, t: State)
    requires t.inbox == s.inbox && t.running == s.running
    requires forall f :: f in s.running ==> f in s.pending && f in t.pending && t.pending[f] == s.pending[f]
    ensures Left(t) == Left(s)
  {
    AttemptsSame(s.running, s.pending, t.pending);
  }

  lemma MadeFrom(s: State, start: int, most: nat)
    requires Sound(s, start)
    ensures Sound(Made(s, most), start) && Made(s, most).pending == s.pending - Front(s.pending)
    ensures Made(s, most).inbox == s.inbox && Made(s, most).running == s.running
  {
    AdvanceSound(s, start);
    AdvancedExactly(s);
    hide Sound; hide Advanced; hide Trimmed; hide Front; hide Last;
    TrimSound(Advanced(s), start, most);
  }

  lemma MadeLeft(s: State, start: int, most: nat)
    requires Sound(s, start)
    ensures Sound(Made(s, most), start) && Left(Made(s, most)) == Left(s)
  {
    hide *;
    MadeFrom(s, start, most);
    forall f | f in s.running ensures f in s.pending && f !in Front(s.pending) {
      RunningStays(s, start, f);
    }
    SameLeft(s, Made(s, most));
  }

  /** A job that came back or died, however it went. */
  lemma ReportLeft(s: State, start: int, event: Event)
    requires Sound(s, start) && (event.Returned? || event.Died?) && event.file in s.running
    ensures Left(Reported(s, event)) < Left(s)
  {
    var f, t := event.file, Reported(s, event);
    RunningFacts(s, start, f);
    hide Sound;
    AttemptsWithout(s.running, s.pending, f);
    AttemptsSame(s.running - {f}, s.pending, t.pending);
    if f in t.running {
      AttemptsWithout(t.running, t.pending, f);
    }
  }

  // ---------------------------------------------------------------- until nothing is left

  /** Some job that is running comes back or dies, or the clock wakes the loop when none is. */
  predicate Works(event: Event, s: State) {
    match event
    case Rows(_) => false
    case Returned(file, _) => file in s.running
    case Died(file) => file in s.running
    case Tick => s.running == {}
  }

  /** Each event is a report of some job that is running by then. */
  ghost predicate Busy(s: State, events: seq<Event>, most: nat)
    decreases |events|
  {
    events == []
    || (Works(events[0], Prepared(s, most)) && Busy(Turned(s, events[0], most), events[1..], most))
  }

  lemma TurnLeft(s: State, start: int, event: Event, most: nat)
    requires Sound(s, start) && most > 0 && Works(event, Prepared(s, most))
    ensures Left(Turned(s, event, most)) < Left(s) || Left(Turned(s, event, most)) == 0
    ensures Sound(Turned(s, event, most), start)
  {
    var m := PreparedExactly(s, start, most);
    TurnSound(s, start, event, most);
    MadeLeft(s, start, most);
    FillLeft(Made(s, most), start, most);
    FillSound(Made(s, most), start, most);
    var p := Prepared(s, most);
    if event.Tick? {
      assert p.inbox == [] && Attempts(p.running, p.pending) == 0;
    } else {
      hide Sound; hide Left; hide Filled; hide Reported; hide PreparedFrom;
      ReportLeft(p, start, event);
    }
  }

  /** Before each of these files, or at it, is one that was lost. */
  ghost predicate HeldBy(files: set<File>, lost: set<File>) {
    forall f :: f in files ==> exists g :: g in lost && Leq(g, f)
  }

  /**
   Nothing is left: every row received is processed or its job died, and entries are left only from
   the first whose job died on.  If none died, none is left and the checkpoint, saved, is at the latest row.
   */
  ghost predicate Drained(s: State) {
    && s.inbox == [] && s.running == {} && s.saved == s.checkpoint
    && (forall f :: f in s.received ==> f in s.processed || f in s.lost)
    && HeldBy(s.pending.Keys, s.lost)
    && (forall f :: f in s.lost ==> f in s.pending && s.checkpoint <= f.seen)
    && (s.lost == {} ==> s.pending == map[] && s.checkpoint == s.latest)
  }

  lemma LastTurn(s: State, start: int, event: Event, most: nat)
    requires Sound(s, start) && Left(s) == 0 && Works(event, Prepared(s, most))
    ensures Drained(Turned(s, event, most))
  {
    hide *;
    var m := PreparedExactly(s, start, most);
    var p := Prepared(s, most);
    NothingTaken(s, Made(s, most), p, most, m);
    PrepareSound(s, start, most);
    AllHeldBack(s, start, p.pending.Keys);
    SoundAtEnd(p, start);
    NothingReported(s, event, most);
  }

  lemma NothingReported(s: State, event: Event, most: nat)
    requires Prepared(s, most).running == {} && Works(event, Prepared(s, most))
    ensures Turned(s, event, most) == Prepared(s, most)
  {
  }

  lemma NothingTaken(s: State, t: State, p: State, most: nat, m: nat)
    requires PreparedFrom(s, t, p, most, m) && Left(s) == 0
    ensures p.inbox == [] && p.running == {} && p.saved == p.checkpoint && p.lost == s.lost
    ensures p.pending.Keys == s.pending.Keys - Front(s.pending)
  {
    assert s.inbox == [] && s.running == {} && m == 0 && Heads(t.inbox, m) == {};
    hide Front; hide Advanced;
  }

  /** What is not at the front is held back by an entry whose job died, once no job is running. */
  lemma HeldBack(s: State, start: int, f: File)
    requires Sound(s, start) && Left(s) == 0 && f in s.pending && f !in Front(s.pending)
    ensures exists g :: g in s.lost && Leq(g, f)
  {
    var g :| g in s.pending && Leq(g, f) && !s.pending[g].finished;
    assert g in s.running + s.lost && s.running == {};
  }

  lemma AllHeldBack(s: State, start: int, files: set<File>)
    requires Sound(s, start) && Left(s) == 0 && files == s.pending.Keys - Front(s.pending)
    ensures HeldBy(files, s.lost)
  {
    forall f | f in files ensures exists g :: g in s.lost && Leq(g, f) {
      HeldBack(s, start, f);
    }
  }

  lemma SoundAtEnd(s: State, start: int)
    requires Sound(s, start) && s.inbox == [] && s.running == {} && s.saved == s.checkpoint
    requires HeldBy(s.pending.Keys, s.lost)
    ensures Drained(s)
  {
    hide HeldBy; hide Sound;
    AccountAtEnd(s, start);
    SoundIsSafe(s, start);
    if s.lost == {} {
      HeldByNone(s.pending.Keys, s.lost);
      ReachedAtEnd(s, start);
    }
  }

  lemma HeldByNone(files: set<File>, lost: set<File>)
    requires HeldBy(files, lost) && lost == {}
    ensures files == {}
  {
  }

  lemma AccountAtEnd(s: State, start: int)
    requires Sound(s, start) && s.running == {}
    ensures forall f :: f in s.received ==> f in s.processed || f in s.lost
    ensures forall f :: f in s.lost ==> f in s.pending
  {
    assert forall f :: f in s.lost ==> f in s.running + s.lost;
    hide InOrder; hide Counted; hide Passed; hide Reached;
    forall f | f in s.received ensures f in s.processed || f in s.lost {
      if f !in s.processed { assert f in s.running + s.lost; }
    }
  }

  lemma ReachedAtEnd(s: State, start: int)
    requires Sound(s, start) && s.inbox == [] && s.pending.Keys == {}
    ensures s.checkpoint == s.latest
  {
    hide Accounted; hide Counted;
  }

  /**
   From any state: however the jobs go, one report of a running job after the other brings everything
   to an end, after no more reports than there are attempts left, and one round more.
   */
  lemma {:induction false} Drains(s: State, start: int, events: seq<Event>, most: nat)
    requires Sound(s, start) && most > 0 && Busy(s, events, most) && |events| > Left(s)
    ensures Drained(After(s, events, most)) && Sound(After(s, events, most), start)
    decreases |events|
  {
    var t := Turned(s, events[0], most);
    TurnLeft(s, start, events[0], most);
    if |events| == 1 {
      LastTurn(s, start, events[0], most);
      assert After(t, events[1..], most) == t;
    } else {
      hide Sound; hide Left; hide Turned; hide Drained;
      Drains(t, start, events[1..], most);
    }
  }

  // ---------------------------------------------------------------- whole runs

  /** The rows that come in the course of a run, and the time of the last of them. */
  ghost function RowsOf(events: seq<Event>): set<File>
    decreases |events|
  {
    if events == [] then {}
    else (if events[0].Rows? then set f | f in events[0].rows else {}) + RowsOf(events[1..])
  }

  function LatestOf(events: seq<Event>, start: int): int
    decreases |events|
  {
    if events == [] then start
    else LatestOf(events[1..], if events[0].Rows? then SeekAfter(events[0].rows, start) else start)
  }

  ghost predicate NobodyDies(events: seq<Event>) {
    forall i :: 0 <= i < |events| ==> !events[i].Died?
  }

  /** Any run keeps the invariant and misses no row. */
  lemma {:induction false} RunFacts(s: State, start: int, events: seq<Event>, most: nat)
    requires Sound(s, start) && FedInOrder(events, s.latest)
    ensures var t := After(s, events, most);
            && Sound(t, start) && t.latest == LatestOf(events, s.latest) && s.received <= t.received
            && NoneMissing(s.inbox, t.received, t.inbox)
            && (forall f :: f in RowsOf(events) ==> f in t.received || f in t.inbox)
            && (NobodyDies(events) ==> t.lost == s.lost)
    decreases |events|
  {
    hide Sound; hide Turned;
    if events != [] {
      var r := Turned(s, events[0], most);
      FedOne(events, s.latest);
      TurnSound(s, start, events[0], most);
      TurnMissesNone(s, start, events[0], most);
      hide FedInOrder; hide SeekAfter;
      RunFacts(r, start, events[1..], most);
      forall f | f in s.inbox || (events[0].Rows? && f in events[0].rows)
        ensures f in After(s, events, most).received || f in After(s, events, most).inbox
      {
        assert f in r.received || f in r.inbox;
      }
      assert NobodyDies(events) ==> NobodyDies(events[1..]);
    }
  }

  /** Reports bring no rows. */
  lemma {:induction false} BusyBringsNone(s: State, events: seq<Event>, most: nat, latest: int)
    requires Busy(s, events, most)
    ensures FedInOrder(events, latest) && RowsOf(events) == {} && LatestOf(events, latest) == latest
    decreases |events|
  {
    hide Prepared; hide Turned;
    if events != [] {
      BusyBringsNone(Turned(s, events[0], most), events[1..], most, latest);
    }
  }

  lemma {:induction false} FedAppend(a: seq<Event>, b: seq<Event>, latest: int)
    requires FedInOrder(a, latest) && FedInOrder(b, LatestOf(a, latest))
    ensures FedInOrder(a + b, latest)
    decreases |a|
  {
    hide SeekAfter;
    if a == [] {
      assert a + b == b;
    } else {
      FedAppend(a[1..], b, if a[0].Rows? then SeekAfter(a[0].rows, latest) else latest);
      assert (a + b)[1..] == a[1..] + b;
    }
  }

  /**
   Any run, with rows coming at any time and jobs that come back, fail or die, and then so many reports
   of running jobs: every row is processed unless its job died, and if none died the checkpoint, saved,
   is at the last row.
   */
  lemma EveryRowIsProcessed(checkpoint: int, most: nat, run: seq<Event>, reports: seq<Event>)
    requires most > 0 && FedInOrder(run, checkpoint) && Busy(After(Start(checkpoint), run, most), reports, most)
    requires |reports| > Left(After(Start(checkpoint), run, most))
    ensures var end := After(Start(checkpoint), run + reports, most);
            && Drained(end) && (forall f :: f in RowsOf(run) ==> f in end.processed || f in end.lost)
            && FedInOrder(run + reports, checkpoint)
            && (NobodyDies(run + reports) ==>
                  && (forall f :: f in RowsOf(run) ==> f in end.processed) && end.pending == map[] && end.lost == {}
                  && end.saved == end.checkpoint == LatestOf(run, checkpoint))
  {
    var s := After(Start(checkpoint), run, most);
    StartSound(checkpoint);
    RunFacts(Start(checkpoint), checkpoint, run, most);
    BusyBringsNone(s, reports, most, s.latest);
    FedAppend(run, reports, checkpoint);
    RunFacts(s, checkpoint, reports, most);
    Drains(s, checkpoint, reports, most);
    AfterBoth(Start(checkpoint), run, reports, most);
    if NobodyDies(run + reports) {
      BothLive(run, reports);
    }
    hide Sound; hide After; hide Busy; hide FedInOrder; hide Left;
  }

  lemma BothLive(a: seq<Event>, b: seq<Event>)
    requires NobodyDies(a + b)
    ensures NobodyDies(a) && NobodyDies(b)
  {
    forall i | 0 <= i < |a| ensures !a[i].Died? { assert (a + b)[i] == a[i]; }
    forall i | 0 <= i < |b| ensures !b[i].Died? { assert (a + b)[|a| + i] == b[i]; }
  }

  /** Rows that come all at once: eleven reports for each are enough, and one round more. */
  lemma OneDelivery(checkpoint: int, most: nat, rows: seq<File>, reports: seq<Event>)
    requires most > 0 && rows != [] && Climbs(rows, checkpoint) && |reports| > (RETRY_LIMIT + 1) * |rows|
    requires Busy(After(Start(checkpoint), [Rows(rows)], most), reports, most) && NobodyDies(reports)
    ensures var end := After(Start(checkpoint), [Rows(rows)] + reports, most);
            && end.inbox == [] && end.pending == map[] && (forall f :: f in rows ==> f in end.processed)
            && end.saved == end.checkpoint == rows[|rows| - 1].seen
  {
    var events := [Rows(rows)];
    assert events[1..] == [];
    DeliveredAtStart(checkpoint, most, rows);
    assert NobodyDies(events + reports);
    assert FedInOrder(events[1..], SeekAfter(rows, checkpoint));
    assert RowsOf(events) == set f | f in rows;
    assert LatestOf(events, checkpoint) == rows[|rows| - 1].seen;
    hide After; hide Busy; hide Left;
    EveryRowIsProcessed(checkpoint, most, events, reports);
  }

  lemma DeliveredAtStart(checkpoint: int, most: nat, rows: seq<File>)
    ensures Left(After(Start(checkpoint), [Rows(rows)], most)) == (RETRY_LIMIT + 1) * |rows|
  {
    var s := Start(checkpoint);
    assert Advanced(s) == s && Trimmed(s.recent, most) == {};
    assert Prepared(s, most) == s;
    assert [Rows(rows)][1..] == [];
  }

  /** Such reports can always be made, and all of them of jobs that were accepted. */
  lemma {:induction false} Schedule(s: State, n: nat, most: nat) returns (events: seq<Event>)
    ensures |events| == n && Busy(s, events, most)
    ensures forall i :: 0 <= i < n ==> events[i].Tick? || (events[i].Returned? && events[i].accepted)
    decreases n
  {
    if n == 0 {
      events := [];
    } else {
      var p := Prepared(s, most);
      var event := if p.running == {} then Tick else Returned(First(p.running), true);
      var more := Schedule(Turned(s, event, most), n - 1, most);
      events := [event] + more;
      hide Prepared; hide Turned;
      assert events[1..] == more;
    }
  }
}
