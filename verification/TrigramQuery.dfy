/**
 A compiled query (`TrigramQuery`, src/query/mod.rs): a table of numbered operations over
 trigrams and other entries, with a root.  `Holds` is the and/or/min-of formula that the table
 stands for, `Stream` is the list of ids the network of channels has to deliver for an entry.
 */
module TrigramQuery {
  import opened Bytes
  import opened JournalLog
  import opened QueryStreams

  datatype Reference = Trigram(trigram: nat) | Expression(id: nat)

  datatype Operation = Operation(kind: Kind, refs: seq<Reference>)

  datatype Query = Query(root: Reference, expressions: map<nat, Operation>)

  /** Every input of an entry exists and ranks below it, and weights match inputs. */
  ghost predicate Sound(expressions: map<nat, Operation>, rank: map<nat, nat>) {
    && expressions.Keys <= rank.Keys
    && forall id :: id in expressions ==>
         var op := expressions[id];
         && Fits(op.kind, |op.refs|)
         && forall i :: 0 <= i < |op.refs| ==> Below(expressions, rank, op.refs[i], rank[id])
  }

  predicate Below(expressions: map<nat, Operation>, rank: map<nat, nat>, r: Reference, bound: nat) {
    r.Trigram? || (r.id in expressions && r.id in rank && rank[r.id] < bound)
  }

  predicate Known(expressions: map<nat, Operation>, r: Reference) {
    r.Trigram? || r.id in expressions
  }

  function RankOf(rank: map<nat, nat>, r: Reference): nat {
    if r.Expression? && r.id in rank then rank[r.id] + 1 else 0
  }

  /** The formula: `has` says which trigrams are present. */
  ghost predicate Holds(expressions: map<nat, Operation>, rank: map<nat, nat>, has: nat -> bool, r: Reference)
    requires Sound(expressions, rank) && Known(expressions, r)
    decreases RankOf(rank, r), 1
  {
    match r
    case Trigram(t) => has(t)
    case Expression(id) => Applies(expressions[id].kind, Truths(expressions, rank, has, id))
  }

  ghost function Truths(expressions: map<nat, Operation>, rank: map<nat, nat>, has: nat -> bool, id: nat)
    : (r: seq<bool>)
    requires Sound(expressions, rank) && id in expressions
    ensures |r| == |expressions[id].refs|
    decreases rank[id] + 1, 0
  {
    var refs := expressions[id].refs;
    assert forall i :: 0 <= i < |refs| ==> Below(expressions, rank, refs[i], rank[id]);
    seq(|refs|, i requires 0 <= i < |refs| => Holds(expressions, rank, has, refs[i]))
  }

  /** What an operation makes of its inputs: an `And` of nothing and a `MinOf` with no input fail. */
  ghost predicate Applies(kind: Kind, inputs: seq<bool>)
    requires Fits(kind, |inputs|)
  {
    match kind
    case Or => true in inputs
    case And => inputs != [] && false !in inputs
    case MinOf(count, weights) => true in inputs && AsUsize(count) <= Weight(inputs, weights, 0)
  }

  function Weight(inputs: seq<bool>, weights: seq<nat>, i: nat): nat
    requires |inputs| == |weights| && i <= |inputs|
    decreases |inputs| - i
  {
    if i == |inputs| then 0 else (if inputs[i] then weights[i] else 0) + Weight(inputs, weights, i + 1)
  }

  /** What the channel of `r` brings from its start to its end. */
  ghost function Stream(expressions: map<nat, Operation>, rank: map<nat, nat>, log: seq<Entry>, r: Reference): seq<nat>
    requires Sound(expressions, rank) && Known(expressions, r)
    decreases RankOf(rank, r), 1
  {
    match r
    case Trigram(t) => Postings(log, t)
    case Expression(id) => Out(expressions[id].kind, Inputs(expressions, rank, log, id))
  }

  /** The complete streams of an entry's inputs. */
  ghost function Inputs(expressions: map<nat, Operation>, rank: map<nat, nat>, log: seq<Entry>, id: nat)
    : (r: seq<seq<nat>>)
    requires Sound(expressions, rank) && id in expressions
    ensures |r| == |expressions[id].refs|
    decreases rank[id] + 1, 0
  {
    var refs := expressions[id].refs;
    assert forall i :: 0 <= i < |refs| ==> Below(expressions, rank, refs[i], rank[id]);
    seq(|refs|, i requires 0 <= i < |refs| => Stream(expressions, rank, log, refs[i]))
  }

  function HasId(log: seq<Entry>, x: nat): nat -> bool {
    (t: nat) => x in Postings(log, t)
  }

  /** Every stream is strictly descending and brings exactly the ids that satisfy the formula. */
  lemma {:induction false} StreamMeaning(expressions: map<nat, Operation>, rank: map<nat, nat>, log: seq<Entry>,
                                         r: Reference, x: nat)
    requires Sound(expressions, rank) && Known(expressions, r)
    requires AllDescending(log)
    ensures StrictlyDescending(Stream(expressions, rank, log, r))
    ensures x in Stream(expressions, rank, log, r) <==> Holds(expressions, rank, HasId(log, x), r)
    decreases RankOf(rank, r)
  {
    if r.Expression? {
      var op := expressions[r.id];
      var streams := Inputs(expressions, rank, log, r.id);
      var truths := Truths(expressions, rank, HasId(log, x), r.id);
      forall i | 0 <= i < |op.refs| ensures x in streams[i] <==> truths[i] {
        assert Below(expressions, rank, op.refs[i], rank[r.id]);
        StreamMeaning(expressions, rank, log, op.refs[i], x);
      }
      OutMeaning(op.kind, streams);
      WantedApplies(op.kind, streams, truths, x);
    }
  }

  lemma WantedApplies(kind: Kind, streams: seq<seq<nat>>, truths: seq<bool>, x: nat)
    requires |streams| == |truths| && Fits(kind, |truths|)
    requires forall i :: 0 <= i < |truths| ==> (x in streams[i] <==> truths[i])
    ensures Wanted(kind, streams, x) <==> Applies(kind, truths)
  {
    if kind.MinOf? {
      WeightsMatch(streams, truths, kind.weights, x, 0);
    }
  }

  lemma {:induction false} WeightsMatch(streams: seq<seq<nat>>, truths: seq<bool>, weights: seq<nat>, x: nat, i: nat)
    requires |streams| == |truths| == |weights| && i <= |truths|
    requires forall i :: 0 <= i < |truths| ==> (x in streams[i] <==> truths[i])
    ensures WeightFrom(streams, weights, i, x) == Weight(truths, weights, i)
    decreases |truths| - i
  {
    if i < |truths| {
      WeightsMatch(streams, truths, weights, x, i + 1);
    }
  }
}
