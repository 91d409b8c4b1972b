/**
 The three workers of a query as they loop over their channel ends, each against `Out`.
 A channel is the sequence of ids it still has to bring; the workers' consumers stay connected
 (`QueryNetwork` lets them leave).
 */
module QueryWorkers {
  import opened Bytes
  import opened QueryStreams

  /** A channel end with a lookahead of one: `next` is what the last fetch brought, if not yet used. */
  class Receiver {
    var input: seq<nat>
    var next: Option<Option<nat>>

    /** Once the channel has ended nothing more comes. */
    ghost predicate Valid() reads this {
      next == Some(None) ==> input == []
    }

    /** What the holder of this end has yet to see. */
    ghost function Rest(): seq<nat> reads this {
      if next.Some? && next.value.Some? then [next.value.value] + input else input
    }

    constructor (stream: seq<nat>)
      ensures Valid() && Rest() == stream
    {
      input := stream;
      next := None;
    }

    method FetchNext()
      requires Valid()
      modifies this
      ensures Valid() && Rest() == old(Rest()) && next == Some(Head(Rest()))
    {
      if next.None? {
        if input == [] {
          next := Some(None);
        } else {
          next, input := Some(Some(input[0])), input[1..];
        }
      }
    }

    method Peek() returns (item: Option<nat>)
      requires Valid()
      modifies this
      ensures Valid() && Rest() == old(Rest()) && item == Head(Rest())
    {
      FetchNext();
      item := next.value;
    }

    method Skip()
      requires Valid()
      modifies this
      ensures Valid() && Rest() == if old(Rest()) == [] then [] else old(Rest())[1..]
    {
      if next.Some? {
        next := None;
        return;
      }
      FetchNext();
      next := None;
    }

    method Next() returns (item: Option<nat>)
      requires Valid()
      modifies this
      ensures Valid() && item == old(Head(Rest()))
      ensures Rest() == if old(Rest()) == [] then [] else old(Rest())[1..]
    {
      FetchNext();
      item := next.value;
      next := None;
    }
  }

  // ---------------------------------------------------------------- the inputs of a worker

  ghost function Rests(inputs: seq<Receiver>): (rests: seq<seq<nat>>)
    reads inputs
    ensures |rests| == |inputs|
  {
    seq(|inputs|, i requires 0 <= i < |inputs| reads inputs => inputs[i].Rest())
  }

  ghost predicate Ready(inputs: seq<Receiver>) reads inputs {
    && (forall i, j :: 0 <= i < j < |inputs| ==> inputs[i] != inputs[j])
    && (forall i :: 0 <= i < |inputs| ==> inputs[i].Valid())
    && StreamsDescend(Rests(inputs))
  }

  lemma ReadyDescends(inputs: seq<Receiver>)
    requires Ready(inputs)
    ensures StreamsDescend(Rests(inputs))
  {
  }

  method PeekAt(inputs: seq<Receiver>, i: nat) returns (item: Option<nat>)
    requires Ready(inputs) && i < |inputs|
    modifies inputs
    ensures Ready(inputs) && Rests(inputs) == old(Rests(inputs)) && item == Head(Rests(inputs)[i])
  {
    item := inputs[i].Peek();
    assert Rests(inputs) == old(Rests(inputs));
  }

  method SkipAt(inputs: seq<Receiver>, i: nat)
    requires Ready(inputs) && i < |inputs| && Rests(inputs)[i] != []
    modifies inputs
    ensures Ready(inputs) && Rests(inputs) == old(Rests(inputs))[i := old(Rests(inputs))[i][1..]]
  {
    TailFacts(Rests(inputs)[i]);
    inputs[i].Skip();
    assert Rests(inputs) == old(Rests(inputs))[i := old(Rests(inputs))[i][1..]];
  }

  lemma HeadFacts(r: seq<nat>)
    ensures Head(r) == if r == [] then None else Some(r[0])
  {
  }

  // ---------------------------------------------------------------- one pass over the inputs

  /** The scan that opens a round: the greatest head, or for `And` the least, given up at a dry input. */
  method Scan(kind: Kind, inputs: seq<Receiver>) returns (best: Option<nat>)
    requires Ready(inputs) && Fits(kind, |inputs|)
    modifies inputs
    ensures Ready(inputs) && Rests(inputs) == old(Rests(inputs))
    ensures best.Some? ==> Scanned(kind, Rests(inputs), |inputs|, best)
    ensures best.None? ==> Out(kind, Rests(inputs)) == []
  {
    best := None;
    var i := 0;
    while i < |inputs|
      invariant i <= |inputs| && Ready(inputs) && Rests(inputs) == old(Rests(inputs))
      invariant Scanned(kind, Rests(inputs), i, best)
    {
      hide Ready; hide Rests; hide Scanned; hide Out;
      var item := PeekAt(inputs, i);
      if kind.And? && item.None? {
        DryAnd(Rests(inputs), i);
        return None;
      }
      ScanStep(kind, Rests(inputs), i, best);
      best := if kind.And? then Min(best, item) else Max(best, item);
      i := i + 1;
    }
    if best.None? {
      ScanEmpty(kind, Rests(inputs));
    }
  }

  /** Pops the inputs that stand on `c` and adds up their weights. */
  method Pop(inputs: seq<Receiver>, weights: seq<nat>, c: nat) returns (hits: nat)
    requires Ready(inputs) && |weights| == |inputs| && HeadsBelow(Rests(inputs), c)
    modifies inputs
    ensures Ready(inputs) && Rests(inputs) == PopFrom(old(Rests(inputs)), 0, c)
    ensures hits == WeightFrom(old(Rests(inputs)), weights, 0, c)
  {
    PopStart(Rests(inputs), weights, c);
    hide *;
    hits := 0;
    var i := 0;
    ghost var all := Rests(inputs);
    while i < |inputs|
      invariant i <= |inputs| && Ready(inputs)
      invariant Popping(Rests(inputs), all, weights, i, c, hits)
    {
      ghost var rests := Rests(inputs);
      ReadyDescends(inputs);
      PopStep(rests, all, weights, i, c, hits);
      var item := PeekAt(inputs, i);
      if item == Some(c) {
        hits := hits + weights[i];
        SkipAt(inputs, i);
      }
      i := i + 1;
    }
    PopDone(Rests(inputs), all, weights, c, hits);
  }

  /** The first `i` inputs of `all` are popped, and `hits` is what they weighed. */
  ghost predicate Popping(rests: seq<seq<nat>>, all: seq<seq<nat>>, weights: seq<nat>, i: nat, c: nat, hits: nat) {
    && i <= |rests| == |all| == |weights|
    && HeadsBelow(rests, c)
    && PopFrom(rests, i, c) == PopFrom(all, 0, c)
    && hits + WeightFrom(rests, weights, i, c) == WeightFrom(all, weights, 0, c)
  }

  lemma PopStart(rests: seq<seq<nat>>, weights: seq<nat>, c: nat)
    requires HeadsBelow(rests, c) && |weights| == |rests|
    ensures Popping(rests, rests, weights, 0, c, 0)
  {
  }

  lemma PopDone(rests: seq<seq<nat>>, all: seq<seq<nat>>, weights: seq<nat>, c: nat, hits: nat)
    requires Popping(rests, all, weights, |rests|, c, hits)
    ensures rests == PopFrom(all, 0, c) && |all| == |weights| && hits == WeightFrom(all, weights, 0, c)
  {
    assert PopFrom(rests, |rests|, c) == rests;
  }

  lemma PopStep(rests: seq<seq<nat>>, all: seq<seq<nat>>, weights: seq<nat>, i: nat, c: nat, hits: nat)
    requires StreamsDescend(rests) && Popping(rests, all, weights, i, c, hits) && i < |rests|
    ensures |weights| == |rests|
    ensures Head(rests[i]) == Some(c) ==>
              rests[i] != [] && Popping(rests[i := rests[i][1..]], all, weights, i + 1, c, hits + weights[i])
    ensures Head(rests[i]) != Some(c) ==> Popping(rests, all, weights, i + 1, c, hits)
  {
    PopOne(rests, weights, i, c);
    hide PopFrom; hide HeadsBelow; hide WeightFrom;
    if Head(rests[i]) != Some(c) {
      assert rests[i := rests[i]] == rests;
    }
  }

  lemma PopShrinks(rests: seq<seq<nat>>, c: nat)
    requires exists j :: 0 <= j < |rests| && Head(rests[j]) == Some(c)
    ensures Total(PopFrom(rests, 0, c)) < Total(rests)
  {
    var j :| 0 <= j < |rests| && Head(rests[j]) == Some(c);
    assert |PopFrom(rests, 0, c)[j]| < |rests[j]|;
    TotalShrinks(rests, PopFrom(rests, 0, c));
  }

  /** What a pass of `query_and` over its first `i` inputs has established. */
  ghost predicate Caught(rests: seq<seq<nat>>, start: seq<seq<nat>>, i: nat, c: nat, lower: nat, higher: nat) {
    && i <= |rests| == |start|
    && StreamsDescend(rests) && Candidate(And, rests, c) && Out(And, rests) == Out(And, start)
    && (lower > 0 ==> SomeBelow(rests[..i], c))
    && (if higher == 0 then rests == start else Total(rests) < Total(start))
    && (lower == 0 && higher == 0 ==> AllOn(rests[..i], c))
  }

  lemma CaughtStep(rests: seq<seq<nat>>, start: seq<seq<nat>>, i: nat, c: nat, lower: nat, higher: nat)
    requires Caught(rests, start, i, c, lower, higher) && i < |rests| && rests[i] != []
    ensures var h := rests[i][0];
            && (h < c ==> Caught(rests, start, i + 1, c, lower + 1, higher))
            && (h == c ==> Caught(rests, start, i + 1, c, lower, higher))
            && (h > c ==> Caught(rests[i := rests[i][1..]], start, i + 1, c, lower, higher + 1))
  {
    var h := rests[i][0];
    if h > c {
      CaughtDrop(rests, start, i, c, lower, higher);
    } else if h < c {
      assert rests[..i + 1][i] == rests[i];
    } else {
      if lower > 0 {
        BelowGrows(rests, i, c);
      }
      assert rests[..i + 1] == rests[..i] + [rests[i]];
    }
  }

  lemma CaughtDrop(rests: seq<seq<nat>>, start: seq<seq<nat>>, i: nat, c: nat, lower: nat, higher: nat)
    requires Caught(rests, start, i, c, lower, higher) && i < |rests| && rests[i] != [] && rests[i][0] > c
    ensures Caught(rests[i := rests[i][1..]], start, i + 1, c, lower, higher + 1)
  {
    var after := rests[i := rests[i][1..]];
    DropKeeps(rests, i, c);
    assert |after[i]| < |rests[i]|;
    TotalShrinks(rests, after);
    assert after[..i] == rests[..i];
    if lower > 0 {
      BelowGrows(after, i, c);
    }
  }

  lemma CaughtStart(rests: seq<seq<nat>>, c: nat)
    requires StreamsDescend(rests) && Candidate(And, rests, c)
    ensures Caught(rests, rests, 0, c, 0, 0)
  {
  }

  lemma CaughtOut(rests: seq<seq<nat>>, start: seq<seq<nat>>, i: nat, c: nat, lower: nat, higher: nat)
    requires Caught(rests, start, i, c, lower, higher)
    ensures |rests| == |start| && Out(And, rests) == Out(And, start)
  {
  }

  lemma BelowGrows(rests: seq<seq<nat>>, i: nat, c: nat)
    requires i < |rests| && SomeBelow(rests[..i], c)
    ensures SomeBelow(rests[..i + 1], c)
  {
    var j :| 0 <= j < i && rests[..i][j] != [] && rests[..i][j][0] < c;
    assert rests[..i + 1][j] == rests[j];
  }

  /** One pass of `query_and` over its inputs: each gets the chance to come down by one id. */
  method CatchUp(inputs: seq<Receiver>, c: nat) returns (dry: bool, lower: nat, higher: nat)
    requires Ready(inputs) && Candidate(And, Rests(inputs), c)
    modifies inputs
    ensures Ready(inputs)
    ensures dry ==> Out(And, old(Rests(inputs))) == []
    ensures !dry ==> Caught(Rests(inputs), old(Rests(inputs)), |inputs|, c, lower, higher)
  {
    hide *;
    lower, higher := 0, 0;
    ghost var start := Rests(inputs);
    var i := 0;
    ReadyDescends(inputs);
    CaughtStart(start, c);
    while i < |inputs|
      invariant i <= |inputs| && Ready(inputs)
      invariant Caught(Rests(inputs), start, i, c, lower, higher)
    {
      ghost var rests := Rests(inputs);
      CaughtOut(rests, start, i, c, lower, higher);
      var item := PeekAt(inputs, i);
      HeadFacts(rests[i]);
      if item.None? {
        DryAnd(rests, i);
        return true, lower, higher;
      }
      CaughtStep(rests, start, i, c, lower, higher);
      if item.value < c {
        lower := lower + 1;
      } else if item.value > c {
        SkipAt(inputs, i);
        higher := higher + 1;
      }
      i := i + 1;
    }
    dry := false;
  }

  // ---------------------------------------------------------------- the workers

  lemma Sending(sent: seq<nat>, now: seq<nat>, later: seq<nat>, all: seq<nat>)
    requires sent + (now + later) == all
    ensures (sent + now) + later == all
  {
    assert (sent + now) + later == sent + (now + later);
  }

  method QueryOr(inputs: seq<Receiver>) returns (sent: seq<nat>)
    requires Ready(inputs)
    modifies inputs
    ensures sent == Out(Or, old(Rests(inputs)))
  {
    assert Fits(Or, |inputs|);
    hide *;
    sent := [];
    ghost var all := Out(Or, Rests(inputs));
    var best := Scan(Or, inputs);
    while best.Some?
      invariant Ready(inputs) && sent + Out(Or, Rests(inputs)) == all
      invariant best.Some? ==> Scanned(Or, Rests(inputs), |inputs|, best)
      invariant best.None? ==> Out(Or, Rests(inputs)) == []
      decreases Total(Rests(inputs))
    {
      var c := best.value;
      ReadyDescends(inputs);
      OrRound(Rests(inputs), c);
      Sending(sent, [c], Out(Or, PopFrom(Rests(inputs), 0, c)), all);
      var _ := Pop(inputs, seq(|inputs|, _ => 1), c);
      sent := sent + [c];
      best := Scan(Or, inputs);
    }
  }

  /** What a completed scan of `query_or` makes of its candidate. */
  lemma OrRound(rests: seq<seq<nat>>, c: nat)
    requires StreamsDescend(rests) && Scanned(Or, rests, |rests|, Some(c))
    ensures HeadsBelow(rests, c)
    ensures Out(Or, rests) == [c] + Out(Or, PopFrom(rests, 0, c))
    ensures Total(PopFrom(rests, 0, c)) < Total(rests)
  {
    ScanFinds(Or, rests, c);
    PopSettles(Or, rests, c);
    PopShrinks(rests, c);
  }

  /** Whether every input stands on the candidate, some input lacks it, or some input has ended. */
  datatype Verdict = Match | Miss | Dry

  lemma CaughtUp(rests: seq<seq<nat>>, start: seq<seq<nat>>, c: nat, lower: nat, higher: nat)
    requires Caught(rests, start, |rests|, c, lower, higher)
    ensures StreamsDescend(rests) && Candidate(And, rests, c)
    ensures if higher == 0 then rests == start else Total(rests) < Total(start)
    ensures lower > 0 ==> SomeBelow(rests, c)
    ensures lower == 0 && higher == 0 ==> AllOn(rests, c)
  {
    assert rests[..|rests|] == rests;
  }

  /** The inner loop of `query_and`: brings every input down to the candidate or below. */
  method Settle(inputs: seq<Receiver>, c: nat) returns (verdict: Verdict)
    requires Ready(inputs) && Candidate(And, Rests(inputs), c) && !SomeBelow(Rests(inputs), c)
    modifies inputs
    ensures Ready(inputs)
    ensures verdict.Dry? ==> Out(And, old(Rests(inputs))) == []
    ensures !verdict.Dry? ==> Out(And, Rests(inputs)) == Out(And, old(Rests(inputs)))
    ensures verdict.Match? ==> AllOn(Rests(inputs), c) && Total(Rests(inputs)) <= Total(old(Rests(inputs)))
    ensures verdict.Miss? ==> Total(Rests(inputs)) < Total(old(Rests(inputs)))
  {
    assert Fits(And, |inputs|);
    hide *;
    ghost var start := Rests(inputs);
    var higher := 1;
    var lower := 0;
    var dry := false;
    while higher > 0
      invariant Ready(inputs) && Candidate(And, Rests(inputs), c)
      invariant Out(And, Rests(inputs)) == Out(And, start)
      invariant Total(Rests(inputs)) <= Total(start)
      invariant Total(Rests(inputs)) < Total(start) || Rests(inputs) == start
      invariant lower > 0 ==> SomeBelow(Rests(inputs), c)
      invariant higher == 0 && lower == 0 ==> AllOn(Rests(inputs), c)
      decreases Total(Rests(inputs)), higher
    {
      ghost var rests := Rests(inputs);
      dry, lower, higher := CatchUp(inputs, c);
      if dry { return Dry; }
      CaughtOut(Rests(inputs), rests, |inputs|, c, lower, higher);
      CaughtUp(Rests(inputs), rests, c, lower, higher);
    }
    verdict := if lower > 0 then Miss else Match;
  }

  /** What a completed scan of `query_and` makes of its candidate. */
  lemma AndScan(rests: seq<seq<nat>>, c: nat)
    requires StreamsDescend(rests) && Scanned(And, rests, |rests|, Some(c))
    ensures rests != [] && Candidate(And, rests, c) && !SomeBelow(rests, c)
  {
    ScanFinds(And, rests, c);
  }

  lemma AndRound(rests: seq<seq<nat>>, c: nat)
    requires StreamsDescend(rests) && rests != [] && AllOn(rests, c)
    ensures HeadsBelow(rests, c)
    ensures Out(And, rests) == [c] + Out(And, PopFrom(rests, 0, c))
    ensures Total(PopFrom(rests, 0, c)) < Total(rests)
  {
    assert Head(rests[0]) == Some(c);
    PopSettles(And, rests, c);
    PopShrinks(rests, c);
  }

  method QueryAnd(inputs: seq<Receiver>) returns (sent: seq<nat>)
    requires Ready(inputs)
    modifies inputs
    ensures sent == Out(And, old(Rests(inputs)))
  {
    assert Fits(And, |inputs|);
    hide *;
    sent := [];
    ghost var all := Out(And, Rests(inputs));
    var best := Scan(And, inputs);
    while best.Some?
      invariant Ready(inputs) && sent + Out(And, Rests(inputs)) == all
      invariant best.Some? ==> Scanned(And, Rests(inputs), |inputs|, best)
      invariant best.None? ==> Out(And, Rests(inputs)) == []
      decreases Total(Rests(inputs))
    {
      var c := best.value;
      ReadyDescends(inputs);
      AndScan(Rests(inputs), c);
      var verdict := Settle(inputs, c);
      if verdict.Dry? { return; }
      if verdict.Match? {
        ReadyDescends(inputs);
        AndRound(Rests(inputs), c);
        Sending(sent, [c], Out(And, PopFrom(Rests(inputs), 0, c)), all);
        var _ := Pop(inputs, seq(|inputs|, _ => 1), c);
        sent := sent + [c];
      }
      best := Scan(And, inputs);
    }
  }

  /** One pass of `query_min_of` that lets inputs above the candidate come down by one id. */
  method SkipAbove(inputs: seq<Receiver>, c: nat) returns (higher: nat)
    requires Ready(inputs)
    modifies inputs
    ensures Ready(inputs)
    ensures HeadsBelow(old(Rests(inputs)), c) ==> Rests(inputs) == old(Rests(inputs)) && higher == 0
    ensures higher == 0 ==> HeadsBelow(Rests(inputs), c)
    ensures if higher == 0 then Rests(inputs) == old(Rests(inputs))
            else Total(Rests(inputs)) < Total(old(Rests(inputs)))
  {
    higher := 0;
    ghost var start := Rests(inputs);
    var i := 0;
    while i < |inputs|
      invariant i <= |inputs| && Ready(inputs)
      invariant if higher == 0 then Rests(inputs) == start && HeadsBelow(start[..i], c)
                else Total(Rests(inputs)) < Total(start) && !HeadsBelow(start, c)
      invariant Rests(inputs)[i..] == start[i..]
    {
      ghost var rests := Rests(inputs);
      SkipStep(rests, start, i, c);
      hide *;
      HeadFacts(rests[i]);
      var item := PeekAt(inputs, i);
      if item.Some? && item.value > c {
        SkipAt(inputs, i);
        higher := higher + 1;
      }
      i := i + 1;
    }
    assert start[..|inputs|] == start;
  }

  lemma SkipStep(rests: seq<seq<nat>>, start: seq<seq<nat>>, i: nat, c: nat)
    requires i < |rests| == |start| && rests[i..] == start[i..]
    ensures rests[i] == start[i] && rests[i + 1..] == start[i + 1..]
    ensures rests[i] == [] || rests[i][0] <= c ==> HeadsBelow(start[..i], c) ==> HeadsBelow(start[..i + 1], c)
    ensures rests[i] != [] && c < rests[i][0] ==>
              var after := rests[i := rests[i][1..]];
              !HeadsBelow(start, c) && Total(after) < Total(rests) && after[i + 1..] == start[i + 1..]
  {
    assert rests[i] == rests[i..][0] == start[i];
    assert rests[i + 1..] == rests[i..][1..] == start[i..][1..] == start[i + 1..];
    assert start[..i + 1] == start[..i] + [start[i]];
    if rests[i] != [] && c < rests[i][0] {
      var after := rests[i := rests[i][1..]];
      assert |after[i]| < |rests[i]|;
      TotalShrinks(rests, after);
      assert after[i + 1..] == rests[i + 1..];
    }
  }

  lemma MinOfRound(kind: Kind, rests: seq<seq<nat>>, c: nat)
    requires kind.MinOf? && Fits(kind, |rests|)
    requires StreamsDescend(rests) && Scanned(kind, rests, |rests|, Some(c))
    ensures HeadsBelow(rests, c)
    ensures Out(kind, rests)
         == (if AsUsize(kind.count) <= WeightFrom(rests, kind.weights, 0, c) then [c] else [])
            + Out(kind, PopFrom(rests, 0, c))
    ensures Total(PopFrom(rests, 0, c)) < Total(rests)
  {
    ScanFinds(kind, rests, c);
    PopSettles(kind, rests, c);
    PopShrinks(rests, c);
    var j :| 0 <= j < |rests| && Head(rests[j]) == Some(c);
    assert c in rests[j];
  }

  method QueryMinOf(count: int, inputs: seq<Receiver>, weights: seq<nat>) returns (sent: seq<nat>)
    requires Ready(inputs) && |weights| == |inputs|
    modifies inputs
    ensures sent == Out(MinOf(count, weights), old(Rests(inputs)))
    ensures StrictlyDescending(sent)
    ensures count >= 0 ==> Reaches(sent, count, weights, old(Rests(inputs)))
    ensures -0x8000_0000_0000_0000 <= count < 0 && SumFrom(weights, 0) < 0x8000_0000_0000_0000 ==> sent == []
  {
    ghost var kind := MinOf(count, weights);
    CountMeaning(count, weights, Rests(inputs));
    OutMeaning(kind, Rests(inputs));
    assert Fits(kind, |inputs|);
    hide *;
    sent := [];
    ghost var all := Out(kind, Rests(inputs));
    var best := Scan(MinOf(count, weights), inputs);
    while best.Some?
      invariant Ready(inputs) && sent + Out(kind, Rests(inputs)) == all
      invariant best.Some? ==> Scanned(kind, Rests(inputs), |inputs|, best)
      invariant best.None? ==> Out(kind, Rests(inputs)) == []
      decreases Total(Rests(inputs))
    {
      var c := best.value;
      ReadyDescends(inputs);
      MinOfRound(kind, Rests(inputs), c);
      ghost var rests := Rests(inputs);
      var higher := 1;
      while higher > 0
        invariant Ready(inputs) && Rests(inputs) == rests
        decreases higher
      {
        higher := SkipAbove(inputs, c);
      }
      var hits := Pop(inputs, weights, c);
      var now := if hits >= AsUsize(count) then [c] else [];
      Sending(sent, now, Out(kind, Rests(inputs)), all);
      sent := sent + now;
      best := Scan(MinOf(count, weights), inputs);
    }
  }
}
