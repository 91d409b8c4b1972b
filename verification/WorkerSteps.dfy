/**
 The workers of a query one step at a time: a step is what a worker does between two awaits.
 `StepKeeps` says that a connected worker's step hands over exactly what it owed.
 */
module WorkerSteps {
  import opened Bytes
  import opened QueryStreams

  /** Where a worker stands in its loops; `i` is the input it is about to look at. */
  datatype Local =
    | Check
    | Scan(i: nat, best: Option<nat>)
    | Gate(c: nat)
    | Round(i: nat, lower: nat, higher: nat, c: nat)
    | Pop(i: nat, c: nat, hits: nat)
    | Done

  /** The result of one step: the new place, whether the input's head was taken, and what was sent. */
  datatype Move = Move(local: Local, takes: bool, sends: seq<nat>)

  /** The input that a worker waits for, if its next step looks at one. */
  function Peeks(local: Local, inputs: nat): Option<nat> {
    match local
    case Scan(i, _) => if i < inputs then Some(i) else None
    case Round(i, _, _, _) => if i < inputs then Some(i) else None
    case Pop(i, _, _) => if i < inputs then Some(i) else None
    case _ => None
  }

  /** One step of `query_or`, `query_and` or `query_min_of`. */
  function Next(kind: Kind, inputs: nat, local: Local, item: Option<nat>, connected: bool): Move
    requires Fits(kind, inputs) && !local.Done?
  {
    match local
    case Check => Move(if connected then Scan(0, None) else Done, false, [])
    case Scan(i, best) =>
      if i < inputs then
        if kind.And? && item.None? then Move(Done, false, [])
        else Move(Scan(i + 1, if kind.And? then Min(best, item) else Max(best, item)), false, [])
      else if best.None? then Move(Done, false, [])
      else Move(if kind.Or? then Pop(0, best.value, 0) else Gate(best.value), false, [])
    case Gate(c) => Move(if connected then Round(0, 0, 0, c) else Pop(0, c, 0), false, [])
    case Round(i, lower, higher, c) =>
      if i < inputs then
        if item.None? then Move(if kind.And? then Done else Round(i + 1, lower, higher, c), false, [])
        else if item.value > c then Move(Round(i + 1, lower, higher + 1, c), true, [])
        else if item.value < c && kind.And? then Move(Round(i + 1, lower + 1, higher, c), false, [])
        else Move(Round(i + 1, lower, higher, c), false, [])
      else if higher > 0 then Move(Gate(c), false, [])
      else if lower > 0 then Move(Check, false, [])
      else Move(Pop(0, c, 0), false, [])
    case Pop(i, c, hits) =>
      if i < inputs then
        if item == Some(c) then Move(Pop(i + 1, c, hits + if kind.MinOf? then kind.weights[i] else 0), true, [])
        else Move(Pop(i + 1, c, hits), false, [])
      else
        Move(Check, false, if kind.MinOf? && hits < AsUsize(kind.count) then [] else [c])
  }

  /** What a worker still has to send when its inputs have `rests` to bring. */
  ghost function Future(kind: Kind, local: Local, rests: seq<seq<nat>>): seq<nat>
    requires Fits(kind, |rests|) && InRange(local, |rests|)
  {
    match local
    case Done => []
    case Pop(i, c, hits) => Settled(kind, rests, i, c, hits) + Out(kind, PopFrom(rests, i, c))
    case _ => Out(kind, rests)
  }

  function Settled(kind: Kind, rests: seq<seq<nat>>, i: nat, c: nat, hits: nat): seq<nat>
    requires Fits(kind, |rests|) && i <= |rests|
  {
    if kind.MinOf? && hits + WeightFrom(rests, kind.weights, i, c) < AsUsize(kind.count) then [] else [c]
  }

  predicate InRange(local: Local, inputs: nat) {
    match local
    case Scan(i, _) => i <= inputs
    case Round(i, _, _, _) => i <= inputs
    case Pop(i, _, _) => i <= inputs
    case _ => true
  }

  /** What a worker knows about its inputs at each place of its loops. */
  ghost predicate Knows(kind: Kind, local: Local, rests: seq<seq<nat>>)
    requires Fits(kind, |rests|) && InRange(local, |rests|)
  {
    && StreamsDescend(rests)
    && match local
       case Scan(i, best) => Scanned(kind, rests, i, best)
       case Gate(c) => !kind.Or? && Candidate(kind, rests, c) && rests != []
       case Round(i, lower, higher, c) =>
         && !kind.Or? && Candidate(kind, rests, c) && rests != []
         && (kind.And? && lower == 0 && higher == 0 ==> AllOn(rests[..i], c))
         && (lower > 0 ==> SomeBelow(rests, c))
         && (!kind.And? ==> lower == 0 && higher == 0)
       case Pop(i, c, hits) => HeadsBelow(rests, c)
       case _ => true
  }

  /** The streams after a move made at input `i`. */
  function After(rests: seq<seq<nat>>, peeked: Option<nat>, takes: bool): seq<seq<nat>>
    requires takes ==> peeked.Some? && peeked.value < |rests| && rests[peeked.value] != []
  {
    if takes then rests[peeked.value := rests[peeked.value][1..]] else rests
  }

  ghost predicate Keeps(kind: Kind, rests: seq<seq<nat>>, local: Local, m: Move)
    requires Fits(kind, |rests|) && InRange(local, |rests|)
  {
    var peeked := Peeks(local, |rests|);
    && (m.takes ==> peeked.Some? && rests[peeked.value] != [])
    && InRange(m.local, |rests|)
    && Knows(kind, m.local, After(rests, peeked, m.takes))
    && Future(kind, local, rests) == m.sends + Future(kind, m.local, After(rests, peeked, m.takes))
  }

  /** A connected worker's step: what it still owed is what it sends now and what it owes after. */
  lemma StepKeeps(kind: Kind, rests: seq<seq<nat>>, local: Local, item: Option<nat>)
    requires Fits(kind, |rests|) && !local.Done? && InRange(local, |rests|) && Knows(kind, local, rests)
    requires Peeks(local, |rests|).Some? ==> item == Head(rests[Peeks(local, |rests|).value])
    ensures Keeps(kind, rests, local, Next(kind, |rests|, local, item, true))
  {
    var f := Future(kind, local, rests);
    assert [] + f == f;
    match local
    case Check =>
      assert Scanned(kind, rests, 0, None);
    case Scan(i, best) => ScanKeeps(kind, rests, local, item);
    case Gate(c) =>
      assert rests[..0] == [];
    case Round(i, lower, higher, c) => RoundKeeps(kind, rests, local, item);
    case Pop(i, c, hits) => PopKeeps(kind, rests, local, item);
  }

  lemma ScanKeeps(kind: Kind, rests: seq<seq<nat>>, local: Local, item: Option<nat>)
    requires Fits(kind, |rests|) && local.Scan? && InRange(local, |rests|) && Knows(kind, local, rests)
    requires local.i < |rests| ==> item == Head(rests[local.i])
    ensures Keeps(kind, rests, local, Next(kind, |rests|, local, item, true))
  {
    hide Out; hide StreamsDescend; hide PopFrom; hide Scanned; hide Candidate; hide HeadsBelow; hide WeightFrom;
    var i, best := local.i, local.best;
    Nothing(Out(kind, rests));
    if i < |rests| {
      if kind.And? && item.None? {
        DryAnd(rests, i);
      } else {
        ScanStep(kind, rests, i, best);
      }
    } else if best.None? {
      ScanEmpty(kind, rests);
    } else {
      ScanFinds(kind, rests, best.value);
      ScannedSome(kind, rests, best);
      if kind.Or? {
        SettledAt(kind, rests, best.value);
      }
    }
  }

  lemma Nothing(s: seq<nat>)
    ensures [] + s == s
  {
  }

  lemma ScannedSome(kind: Kind, rests: seq<seq<nat>>, best: Option<nat>)
    requires Scanned(kind, rests, |rests|, best) && best.Some?
    ensures rests != []
  {
  }

  lemma RoundKeeps(kind: Kind, rests: seq<seq<nat>>, local: Local, item: Option<nat>)
    requires Fits(kind, |rests|) && local.Round? && InRange(local, |rests|) && Knows(kind, local, rests)
    requires local.i < |rests| ==> item == Head(rests[local.i])
    ensures Keeps(kind, rests, local, Next(kind, |rests|, local, item, true))
  {
    hide Out; hide StreamsDescend; hide PopFrom; hide Candidate; hide HeadsBelow; hide WeightFrom; hide AllOn;
    hide SomeBelow;
    var i, c := local.i, local.c;
    Nothing(Out(kind, rests));
    if i < |rests| {
      if kind.And? {
        RoundAnd(rests, i, c);
      } else {
        HeadAtMost(kind, rests, i, c);
      }
    } else {
      assert rests[..i] == rests;
      if local.higher == 0 && local.lower == 0 {
        SettledAt(kind, rests, c);
      }
    }
  }

  lemma HeadAtMost(kind: Kind, rests: seq<seq<nat>>, i: nat, c: nat)
    requires Fits(kind, |rests|) && Candidate(kind, rests, c) && !kind.And? && i < |rests|
    ensures rests[i] == [] || rests[i][0] <= c
  {
  }

  /** One input of an `And` in a round. */
  lemma RoundAnd(rests: seq<seq<nat>>, i: nat, c: nat)
    requires i < |rests| && StreamsDescend(rests) && Candidate(And, rests, c)
    ensures rests[i] == [] ==> Out(And, rests) == []
    ensures rests[i] != [] && c < rests[i][0] ==>
              var after := rests[i := rests[i][1..]];
              && StreamsDescend(after) && Candidate(And, after, c) && Out(And, after) == Out(And, rests)
              && after[..i] == rests[..i] && (SomeBelow(rests, c) ==> SomeBelow(after, c))
    ensures rests[i] != [] && rests[i][0] < c ==> SomeBelow(rests, c)
    ensures Head(rests[i]) == Some(c) && AllOn(rests[..i], c) ==> AllOn(rests[..i + 1], c)
  {
    assert rests[..i + 1] == rests[..i] + [rests[i]];
    if rests[i] == [] {
      DryAnd(rests, i);
    } else if c < rests[i][0] {
      DropKeeps(rests, i, c);
      if j :| 0 <= j < |rests| && rests[j] != [] && rests[j][0] < c {
        assert rests[i := rests[i][1..]][j] == rests[j];
      }
    }
  }

  lemma SettledAt(kind: Kind, rests: seq<seq<nat>>, c: nat)
    requires Fits(kind, |rests|) && StreamsDescend(rests) && rests != []
    requires if kind.And? then AllOn(rests, c) else Candidate(kind, rests, c)
    ensures HeadsBelow(rests, c)
    ensures Out(kind, rests) == Future(kind, Pop(0, c, 0), rests)
  {
    hide Out; hide PopFrom; hide StreamsDescend; hide WeightFrom;
    if kind.And? {
      assert Head(rests[0]) == Some(c);
    }
    var j :| 0 <= j < |rests| && Head(rests[j]) == Some(c);
    assert c in rests[j];
    PopSettles(kind, rests, c);
  }

  lemma PopKeeps(kind: Kind, rests: seq<seq<nat>>, local: Local, item: Option<nat>)
    requires Fits(kind, |rests|) && local.Pop? && InRange(local, |rests|) && Knows(kind, local, rests)
    requires local.i < |rests| ==> item == Head(rests[local.i])
    ensures Keeps(kind, rests, local, Next(kind, |rests|, local, item, true))
  {
    hide Out; hide PopFrom; hide HeadsBelow; hide StreamsDescend; hide WeightFrom;
    var i, c, hits := local.i, local.c, local.hits;
    Nothing(Future(kind, local, rests));
    if i < |rests| {
      PopInput(kind, rests, i, c);
    } else {
      PopNone(kind, rests, c);
    }
  }

  lemma PopNone(kind: Kind, rests: seq<seq<nat>>, c: nat)
    requires Fits(kind, |rests|)
    ensures PopFrom(rests, |rests|, c) == rests
    ensures kind.MinOf? ==> WeightFrom(rests, kind.weights, |rests|, c) == 0
  {
  }

  /** Popping one input that may stand on `c`. */
  lemma PopInput(kind: Kind, rests: seq<seq<nat>>, i: nat, c: nat)
    requires Fits(kind, |rests|) && StreamsDescend(rests) && HeadsBelow(rests, c) && i < |rests|
    ensures var after := rests[i := PopAt(rests[i], c)];
            && StreamsDescend(after) && HeadsBelow(after, c)
            && PopFrom(after, i + 1, c) == PopFrom(rests, i, c)
            && (kind.MinOf? ==>
                  WeightFrom(rests, kind.weights, i, c)
                  == (if Head(rests[i]) == Some(c) then kind.weights[i] else 0)
                     + WeightFrom(after, kind.weights, i + 1, c))
    ensures Head(rests[i]) != Some(c) ==> rests[i := PopAt(rests[i], c)] == rests
  {
    PopFacts(rests, c, i);
    PopOne(rests, if kind.MinOf? then kind.weights else seq(|rests|, _ => 0), i, c);
  }
}
