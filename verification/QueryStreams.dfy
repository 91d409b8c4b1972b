/**
 The workers of a query (`query_or`, `query_and`, `query_min_of`, src/worker/journal.rs) over
 descending streams of ids, and the channel ends they read from (src/query/broadcast.rs).
 `Out` says what a worker owes its consumers: the ids its inputs call for, in descending order.
 */
module QueryStreams {
  import opened Bytes

  /** What a node of the query does with its inputs; `MinOf` carries a signed count. */
  datatype Kind = Or | And | MinOf(count: int, weights: seq<nat>)

  /** `count as usize`: a negative count becomes a huge one. */
  function AsUsize(count: int): int {
    if count < 0 then count + 0x1_0000_0000_0000_0000 else count
  }

  predicate Fits(kind: Kind, inputs: nat) {
    kind.MinOf? ==> |kind.weights| == inputs
  }

  // ---------------------------------------------------------------- what a node is to send

  predicate InSome(rests: seq<seq<nat>>, x: nat) {
    exists i :: 0 <= i < |rests| && x in rests[i]
  }

  predicate InAll(rests: seq<seq<nat>>, x: nat) {
    forall i :: 0 <= i < |rests| ==> x in rests[i]
  }

  /** The weights of the streams from the `i`-th on that hold `x`. */
  function WeightFrom(rests: seq<seq<nat>>, weights: seq<nat>, i: nat, x: nat): nat
    requires |rests| == |weights| && i <= |rests|
    decreases |rests| - i
  {
    if i == |rests| then 0
    else (if x in rests[i] then weights[i] else 0) + WeightFrom(rests, weights, i + 1, x)
  }

  /** Whether a node that has `rests` still to read is to send `x`. */
  predicate Wanted(kind: Kind, rests: seq<seq<nat>>, x: nat)
    requires Fits(kind, |rests|)
  {
    match kind
    case Or => InSome(rests, x)
    case And => rests != [] && InAll(rests, x)
    case MinOf(count, weights) => InSome(rests, x) && AsUsize(count) <= WeightFrom(rests, weights, 0, x)
  }

  ghost function Greatest(s: set<nat>): (m: nat)
    requires s != {}
    ensures m in s && forall x :: x in s ==> x <= m
  {
    HasGreatest(s);
    var m :| m in s && forall x :: x in s ==> x <= m;
    m
  }

  lemma {:induction false} HasGreatest(s: set<nat>)
    requires s != {}
    ensures exists m :: m in s && forall x :: x in s ==> x <= m
  {
    var a :| a in s;
    if s - {a} != {} {
      HasGreatest(s - {a});
      var b :| b in s - {a} && forall x :: x in s - {a} ==> x <= b;
      assert forall x :: x in s ==> x == a || x in s - {a};
      var m := if a < b then b else a;
      assert m in s && forall x :: x in s ==> x <= m;
    } else {
      assert forall x :: x in s && x != a ==> x in s - {a};
      assert a in s && forall x :: x in s ==> x <= a;
    }
  }

  /** The members of a set from the greatest to the least. */
  ghost function Descending(s: set<nat>): seq<nat> {
    if s == {} then [] else [Greatest(s)] + Descending(s - {Greatest(s)})
  }

  lemma DescendingCons(c: nat, r: seq<nat>)
    requires StrictlyDescending(r) && forall x: nat :: x in r ==> x < c
    ensures StrictlyDescending([c] + r)
    ensures forall x: nat :: x in [c] + r <==> x == c || x in r
  {
    assert forall k :: 0 <= k < |r| ==> r[k] in r;
  }

  lemma {:induction false} DescendingFacts(s: set<nat>)
    ensures StrictlyDescending(Descending(s))
    ensures forall x: nat :: x in Descending(s) <==> x in s
  {
    if s != {} {
      var m := Greatest(s);
      DescendingFacts(s - {m});
      DescendingCons(m, Descending(s - {m}));
    }
  }

  ghost function WantedSet(kind: Kind, rests: seq<seq<nat>>): set<nat>
    requires Fits(kind, |rests|)
  {
    set i, x | 0 <= i < |rests| && x in rests[i] && Wanted(kind, rests, x) :: x
  }

  /** The sum of all weights from the `i`-th on. */
  function SumFrom(weights: seq<nat>, i: nat): nat
    requires i <= |weights|
    decreases |weights| - i
  {
    if i == |weights| then 0 else weights[i] + SumFrom(weights, i + 1)
  }

  lemma {:induction false} WeightAtMostSum(rests: seq<seq<nat>>, weights: seq<nat>, i: nat, x: nat)
    requires |rests| == |weights| && i <= |rests|
    ensures WeightFrom(rests, weights, i, x) <= SumFrom(weights, i)
    decreases |rests| - i
  {
    if i < |rests| {
      WeightAtMostSum(rests, weights, i + 1, x);
    }
  }

  /** The ids that a `MinOf` asks for: those of some input whose weights reach a count of zero or more. */
  ghost predicate Reaches(sent: seq<nat>, count: int, weights: seq<nat>, rests: seq<seq<nat>>)
    requires |rests| == |weights|
  {
    forall x: nat :: x in sent <==> InSome(rests, x) && count <= WeightFrom(rests, weights, 0, x)
  }

  /**
   What the count of a `MinOf` means.  From zero on it is the weight to be reached; a negative count,
   which the source takes for a huge one, sends nothing as long as the weights stay below 2^63.
   */
  lemma CountMeaning(count: int, weights: seq<nat>, rests: seq<seq<nat>>)
    requires |rests| == |weights|
    ensures count >= 0 ==> Reaches(Out(MinOf(count, weights), rests), count, weights, rests)
    ensures -0x8000_0000_0000_0000 <= count < 0 && SumFrom(weights, 0) < 0x8000_0000_0000_0000 ==>
              Out(MinOf(count, weights), rests) == []
  {
    var kind := MinOf(count, weights);
    OutMeaning(kind, rests);
    if -0x8000_0000_0000_0000 <= count < 0 && SumFrom(weights, 0) < 0x8000_0000_0000_0000 {
      var out := Out(kind, rests);
      if out != [] {
        assert out[0] in out;
        WeightAtMostSum(rests, weights, 0, out[0]);
        assert false;
      }
    }
  }

  lemma WantedSetFacts(kind: Kind, rests: seq<seq<nat>>, x: nat)
    requires Fits(kind, |rests|)
    ensures x in WantedSet(kind, rests) <==> Wanted(kind, rests, x)
  {
    if Wanted(kind, rests, x) {
      if kind.And? {
        assert x in rests[0];
      }
      assert InSome(rests, x);
    }
  }

  /** Everything a node sends, to its end, when its inputs still hold `rests`. */
  ghost function Out(kind: Kind, rests: seq<seq<nat>>): seq<nat>
    requires Fits(kind, |rests|)
  {
    Descending(WantedSet(kind, rests))
  }

  lemma OutMeaning(kind: Kind, rests: seq<seq<nat>>)
    requires Fits(kind, |rests|)
    ensures StrictlyDescending(Out(kind, rests))
    ensures forall x: nat :: x in Out(kind, rests) <==> Wanted(kind, rests, x)
  {
    DescendingFacts(WantedSet(kind, rests));
    forall x: nat {
      WantedSetFacts(kind, rests, x);
    }
  }

  lemma TailFacts(r: seq<nat>)
    requires StrictlyDescending(r) && r != []
    ensures r == [r[0]] + r[1..] && StrictlyDescending(r[1..])
    ensures forall x :: x in r ==> x <= r[0]
    ensures forall x :: x in r[1..] <==> x in r && x != r[0]
  {
    assert r == [r[0]] + r[1..];
    forall x | x in r[1..] ensures x != r[0] {
      var k :| 0 <= k < |r[1..]| && r[1..][k] == x;
      assert r[0] > r[k + 1];
    }
  }

  /** Descending streams with the same ids are the same stream. */
  lemma {:induction false} DescendingUnique(a: seq<nat>, b: seq<nat>)
    requires StrictlyDescending(a) && StrictlyDescending(b)
    requires forall x: nat :: x in a <==> x in b
    ensures a == b
  {
    hide StrictlyDescending;
    assert b != [] ==> b[0] in b;
    if a != [] {
      TailFacts(a);
      assert a[0] in b;
      TailFacts(b);
      assert b[0] in a;
      DescendingUnique(a[1..], b[1..]);
    }
  }

  lemma SameWanted(kind: Kind, a: seq<seq<nat>>, b: seq<seq<nat>>)
    requires Fits(kind, |a|) && Fits(kind, |b|)
    requires forall x: nat :: Wanted(kind, a, x) <==> Wanted(kind, b, x)
    ensures Out(kind, a) == Out(kind, b)
  {
    OutMeaning(kind, a);
    OutMeaning(kind, b);
    DescendingUnique(Out(kind, a), Out(kind, b));
  }

  /** Sending the greatest wanted id `c` leaves a node with the output of streams that lack just `c`. */
  lemma NextOut(kind: Kind, a: seq<seq<nat>>, b: seq<seq<nat>>, c: nat)
    requires Fits(kind, |a|) && Fits(kind, |b|)
    requires Wanted(kind, a, c)
    requires forall x: nat :: Wanted(kind, a, x) ==> x <= c
    requires forall x: nat :: Wanted(kind, b, x) <==> Wanted(kind, a, x) && x != c
    ensures Out(kind, a) == [c] + Out(kind, b)
  {
    hide Wanted;
    OutMeaning(kind, a);
    OutMeaning(kind, b);
    hide Out;
    DescendingCons(c, Out(kind, b));
    DescendingUnique(Out(kind, a), [c] + Out(kind, b));
  }

  // ---------------------------------------------------------------- heads

  ghost predicate StreamsDescend(rests: seq<seq<nat>>) {
    forall i :: 0 <= i < |rests| ==> StrictlyDescending(rests[i])
  }

  function Head(r: seq<nat>): Option<nat> {
    if r == [] then None else Some(r[0])
  }

  function Max(best: Option<nat>, item: Option<nat>): Option<nat> {
    if item.None? then best
    else if best.None? then item
    else Some(if best.value < item.value then item.value else best.value)
  }

  function Min(best: Option<nat>, item: Option<nat>): Option<nat> {
    if item.None? then best
    else if best.None? then item
    else Some(if item.value < best.value then item.value else best.value)
  }

  /** What a scan over the first `i` inputs has found: for `And` the least head, otherwise the greatest. */
  ghost predicate Scanned(kind: Kind, rests: seq<seq<nat>>, i: nat, best: Option<nat>)
    requires i <= |rests|
  {
    && (best.None? ==> forall j :: 0 <= j < i ==> rests[j] == [])
    && (best.Some? ==> exists j :: 0 <= j < i && Head(rests[j]) == best)
    && (best.Some? && !kind.And? ==> forall j :: 0 <= j < i && rests[j] != [] ==> rests[j][0] <= best.value)
    && (best.Some? && kind.And? ==> forall j :: 0 <= j < i && rests[j] != [] ==> best.value <= rests[j][0])
    && (kind.And? ==> forall j :: 0 <= j < i ==> rests[j] != [])
  }

  lemma ScanStep(kind: Kind, rests: seq<seq<nat>>, i: nat, best: Option<nat>)
    requires i < |rests| && Scanned(kind, rests, i, best)
    requires kind.And? ==> rests[i] != []
    ensures var item := Head(rests[i]);
            Scanned(kind, rests, i + 1, if kind.And? then Min(best, item) else Max(best, item))
  {
    var item := Head(rests[i]);
    var next := if kind.And? then Min(best, item) else Max(best, item);
    if next.Some? {
      if next == item {
        assert Head(rests[i]) == next;
      } else {
        var j :| 0 <= j < i && Head(rests[j]) == best;
        assert Head(rests[j]) == next;
      }
    }
  }

  /** A scan that found nothing: the node is done. */
  lemma ScanEmpty(kind: Kind, rests: seq<seq<nat>>)
    requires Fits(kind, |rests|) && Scanned(kind, rests, |rests|, None)
    ensures Out(kind, rests) == []
  {
    assert WantedSet(kind, rests) == {};
  }

  /** One dry input ends an `And`. */
  lemma DryAnd(rests: seq<seq<nat>>, i: nat)
    requires i < |rests| && rests[i] == []
    ensures Out(And, rests) == []
  {
    forall x: nat ensures !Wanted(And, rests, x) {
      assert x !in rests[i];
    }
    assert WantedSet(And, rests) == {};
  }

  /** No head is above `c`. */
  predicate HeadsBelow(rests: seq<seq<nat>>, c: nat) {
    forall j :: 0 <= j < |rests| && rests[j] != [] ==> rests[j][0] <= c
  }

  /** Nothing above `c` is wanted. */
  ghost predicate Candidate(kind: Kind, rests: seq<seq<nat>>, c: nat)
    requires Fits(kind, |rests|)
  {
    if kind.And? then forall x: nat :: Wanted(kind, rests, x) ==> x <= c
    else HeadsBelow(rests, c) && exists j :: 0 <= j < |rests| && Head(rests[j]) == Some(c)
  }

  lemma ScanFinds(kind: Kind, rests: seq<seq<nat>>, c: nat)
    requires Fits(kind, |rests|) && StreamsDescend(rests) && Scanned(kind, rests, |rests|, Some(c))
    ensures Candidate(kind, rests, c)
  {
    var j :| 0 <= j < |rests| && Head(rests[j]) == Some(c);
    if kind.And? {
      forall x: nat | Wanted(kind, rests, x) ensures x <= c {
        TailFacts(rests[j]);
        assert x in rests[j];
      }
    }
  }

  /** Dropping a head above an `And`'s candidate changes nothing. */
  lemma DropKeeps(rests: seq<seq<nat>>, i: nat, c: nat)
    requires i < |rests| && StreamsDescend(rests) && Candidate(And, rests, c)
    requires rests[i] != [] && c < rests[i][0]
    ensures var after := rests[i := rests[i][1..]];
            && StreamsDescend(after) && Candidate(And, after, c) && Out(And, after) == Out(And, rests)
  {
    var after := rests[i := rests[i][1..]];
    TailFacts(rests[i]);
    forall x: nat ensures Wanted(And, after, x) <==> Wanted(And, rests, x) {
      if Wanted(And, rests, x) {
        assert x in rests[i];
      } else if Wanted(And, after, x) {
        forall j | 0 <= j < |rests| ensures x in rests[j] {
          assert x in after[j];
        }
      }
    }
    SameWanted(And, after, rests);
  }

  // ---------------------------------------------------------------- popping a candidate

  function PopAt(r: seq<nat>, c: nat): seq<nat> {
    if Head(r) == Some(c) then r[1..] else r
  }

  /** Pops every stream from the `i`-th on that stands on `c`. */
  function PopFrom(rests: seq<seq<nat>>, i: nat, c: nat): (r: seq<seq<nat>>)
    ensures |r| == |rests|
    ensures forall j :: 0 <= j < |rests| ==> r[j] == if j < i then rests[j] else PopAt(rests[j], c)
  {
    seq(|rests|, j requires 0 <= j < |rests| => if j < i then rests[j] else PopAt(rests[j], c))
  }

  predicate AllOn(rests: seq<seq<nat>>, c: nat) {
    forall i :: 0 <= i < |rests| ==> Head(rests[i]) == Some(c)
  }

  lemma PopFacts(rests: seq<seq<nat>>, c: nat, j: nat)
    requires StreamsDescend(rests) && HeadsBelow(rests, c) && j < |rests|
    ensures StrictlyDescending(PopAt(rests[j], c))
    ensures forall x :: x in PopAt(rests[j], c) <==> x in rests[j] && x != c
    ensures forall x :: x in rests[j] ==> x <= c
    ensures c in rests[j] <==> Head(rests[j]) == Some(c)
  {
    if rests[j] != [] {
      TailFacts(rests[j]);
    }
  }

  lemma {:induction false} WeightsAgree(a: seq<seq<nat>>, b: seq<seq<nat>>, weights: seq<nat>, i: nat, x: nat)
    requires |a| == |b| == |weights| && i <= |a|
    requires forall j :: i <= j < |a| ==> (x in a[j] <==> x in b[j])
    ensures WeightFrom(a, weights, i, x) == WeightFrom(b, weights, i, x)
    decreases |a| - i
  {
    if i < |a| {
      WeightsAgree(a, b, weights, i + 1, x);
    }
  }

  /** Once all heads are at or below the candidate, popping it settles whether it is sent. */
  lemma PopSettles(kind: Kind, rests: seq<seq<nat>>, c: nat)
    requires Fits(kind, |rests|) && StreamsDescend(rests) && HeadsBelow(rests, c)
    requires exists j :: 0 <= j < |rests| && Head(rests[j]) == Some(c)
    requires kind.And? ==> AllOn(rests, c)
    ensures StreamsDescend(PopFrom(rests, 0, c))
    ensures Out(kind, rests) == (if Wanted(kind, rests, c) then [c] else []) + Out(kind, PopFrom(rests, 0, c))
    ensures !kind.MinOf? ==> Wanted(kind, rests, c)
  {
    var after := PopFrom(rests, 0, c);
    PopsDescend(rests, c);
    StandsWanted(kind, rests, c);
    hide Out; hide StreamsDescend; hide HeadsBelow; hide PopFrom; hide Wanted; hide AllOn;
    forall x: nat
      ensures Wanted(kind, after, x) <==> Wanted(kind, rests, x) && x != c
      ensures Wanted(kind, rests, x) ==> x <= c
    {
      PopWanted(kind, rests, after, c, x);
    }
    if Wanted(kind, rests, c) {
      NextOut(kind, rests, after, c);
    } else {
      SameWanted(kind, rests, after);
      assert [] + Out(kind, after) == Out(kind, after);
    }
  }

  lemma StandsWanted(kind: Kind, rests: seq<seq<nat>>, c: nat)
    requires Fits(kind, |rests|)
    requires exists j :: 0 <= j < |rests| && Head(rests[j]) == Some(c)
    requires kind.And? ==> AllOn(rests, c)
    ensures !kind.MinOf? ==> Wanted(kind, rests, c)
    ensures rests != []
  {
    var j :| 0 <= j < |rests| && Head(rests[j]) == Some(c);
    assert c in rests[j];
    if kind.And? {
      forall i | 0 <= i < |rests| ensures c in rests[i] {
        assert Head(rests[i]) == Some(c);
      }
    }
  }

  lemma PopsDescend(rests: seq<seq<nat>>, c: nat)
    requires StreamsDescend(rests) && HeadsBelow(rests, c)
    ensures var after := PopFrom(rests, 0, c);
            && StreamsDescend(after)
            && (forall j :: 0 <= j < |rests| ==> forall y :: y in after[j] <==> y in rests[j] && y != c)
            && forall j :: 0 <= j < |rests| ==> forall y :: y in rests[j] ==> y <= c
  {
    forall j | 0 <= j < |rests| {
      PopFacts(rests, c, j);
    }
  }

  lemma PopWanted(kind: Kind, rests: seq<seq<nat>>, after: seq<seq<nat>>, c: nat, x: nat)
    requires |after| == |rests| && Fits(kind, |rests|) && (kind.And? ==> rests != [])
    requires forall j :: 0 <= j < |rests| ==> forall y :: y in after[j] <==> y in rests[j] && y != c
    requires forall j :: 0 <= j < |rests| ==> forall y :: y in rests[j] ==> y <= c
    ensures Wanted(kind, after, x) <==> Wanted(kind, rests, x) && x != c
    ensures Wanted(kind, rests, x) ==> x <= c
  {
    if Wanted(kind, rests, x) {
      WantedSetFacts(kind, rests, x);
    }
    if x != c {
      assert InSome(after, x) <==> InSome(rests, x) by {
        if InSome(rests, x) {
          var j :| 0 <= j < |rests| && x in rests[j];
          assert x in after[j];
        }
      }
      if kind.MinOf? {
        WeightsAgree(after, rests, kind.weights, 0, x);
      }
    } else {
      assert forall j :: 0 <= j < |rests| ==> c !in after[j];
      if kind.And? {
        assert c !in after[0];
      }
    }
  }

  // ---------------------------------------------------------------- progress

  function Total(rests: seq<seq<nat>>): nat {
    if rests == [] then 0 else |rests[0]| + Total(rests[1..])
  }

  lemma {:induction false} TotalShrinks(a: seq<seq<nat>>, b: seq<seq<nat>>)
    requires |a| == |b| && forall i :: 0 <= i < |a| ==> |b[i]| <= |a[i]|
    ensures Total(b) <= Total(a)
    ensures (exists i :: 0 <= i < |a| && |b[i]| < |a[i]|) ==> Total(b) < Total(a)
  {
    if a != [] {
      TotalShrinks(a[1..], b[1..]);
      if i :| 1 <= i < |a| && |b[i]| < |a[i]| {
        assert |b[1..][i - 1]| < |a[1..][i - 1]|;
      }
    }
  }

  /** Some head is below `c`: the candidate cannot be in every stream. */
  predicate SomeBelow(rests: seq<seq<nat>>, c: nat) {
    exists j :: 0 <= j < |rests| && rests[j] != [] && rests[j][0] < c
  }

  /** Popping one input that may stand on `c`. */
  lemma PopOne(rests: seq<seq<nat>>, weights: seq<nat>, i: nat, c: nat)
    requires StreamsDescend(rests) && HeadsBelow(rests, c) && i < |rests| == |weights|
    ensures var after := rests[i := PopAt(rests[i], c)];
            && HeadsBelow(after, c)
            && PopFrom(after, i + 1, c) == PopFrom(rests, i, c)
            && WeightFrom(rests, weights, i, c)
               == (if Head(rests[i]) == Some(c) then weights[i] else 0) + WeightFrom(after, weights, i + 1, c)
  {
    var after := rests[i := PopAt(rests[i], c)];
    assert PopFrom(after, i + 1, c) == PopFrom(rests, i, c);
    PopFacts(rests, c, i);
    WeightsAgree(rests, after, weights, i + 1, c);
    assert after[i] == [] || after[i][0] in after[i];
  }
}
