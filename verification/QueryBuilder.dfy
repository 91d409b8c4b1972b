/**
 The compiler from phrase queries to tables of trigram operations (`TrigramQueryBuilder`,
 src/query/mod.rs).  Every table it builds is acyclic, and its root means what `Compiled` says;
 `CompleteIff` says for which phrases that never loses a file.
 */
module QueryBuilder {
  import opened Bytes
  import opened PhraseQuery
  import opened Sorting
  import Q = QueryStreams
  import opened TrigramQuery
  import opened QueryNetwork
  import opened Trigrams

  /** Whether a spelling of these three bytes in some mix of cases is present. */
  predicate AnyCase(a: byte, b: byte, c: byte, has: nat -> bool) {
    exists x, y, z :: x in [Lower(a), Upper(a)] && y in [Lower(b), Upper(b)] && z in [Lower(c), Upper(c)]
        && has(Pack(x, y, z))
  }

  /** What the compiled form of a phrase asks of a file's trigrams. */
  ghost predicate Compiled(q: Phrase, has: nat -> bool) {
    match q
    case And(parts) => parts != [] && forall i :: 0 <= i < |parts| ==> Compiled(parts[i], has)
    case Or(parts) => exists i :: 0 <= i < |parts| && Compiled(parts[i], has)
    case Literal(bytes) => |bytes| >= 3 && forall i :: 0 <= i <= |bytes| - 3 ==> has(TrigramAt(bytes, i))
    case InsensitiveLiteral(bytes) =>
      |bytes| >= 3 && forall i :: 0 <= i <= |bytes| - 3 ==> AnyCase(bytes[i], bytes[i + 1], bytes[i + 2], has)
    case MinOf(count, parts) =>
      var truths := seq(|parts|, i requires 0 <= i < |parts| => Compiled(parts[i], has));
      true in truths && Q.AsUsize(count) <= CountTrue(truths)
  }

  // ---------------------------------------------------------------- tables

  /** The order in which references are sorted: trigrams first, then expressions, by number. */
  predicate RefLeq(a: Reference, b: Reference) {
    match (a, b)
    case (Trigram(s), Trigram(t)) => s <= t
    case (Trigram(_), Expression(_)) => true
    case (Expression(_), Trigram(_)) => false
    case (Expression(i), Expression(j)) => i <= j
  }

  /** Every entry ranks by its own number: it refers only to smaller ones. */
  function Ids(expressions: map<nat, Operation>): map<nat, nat> {
    map id | id in expressions :: id
  }

  ghost predicate Ordered(expressions: map<nat, Operation>) {
    Sound(expressions, Ids(expressions))
  }

  ghost predicate Truth(expressions: map<nat, Operation>, has: nat -> bool, r: Reference)
    requires Ordered(expressions) && Known(expressions, r)
  {
    Holds(expressions, Ids(expressions), has, r)
  }

  ghost predicate AllKnown(expressions: map<nat, Operation>, values: seq<Reference>) {
    forall i :: 0 <= i < |values| ==> Known(expressions, values[i])
  }

  ghost function TruthsOf(expressions: map<nat, Operation>, has: nat -> bool, values: seq<Reference>): (r: seq<bool>)
    requires Ordered(expressions) && AllKnown(expressions, values)
    ensures |r| == |values|
  {
    seq(|values|, i requires 0 <= i < |values| => Truth(expressions, has, values[i]))
  }

  /** The table only grows. */
  predicate Extends(older: map<nat, Operation>, newer: map<nat, Operation>) {
    forall id :: id in older ==> id in newer && newer[id] == older[id]
  }

  lemma {:induction false} TruthGrows(older: map<nat, Operation>, newer: map<nat, Operation>, has: nat -> bool,
                                      r: Reference)
    requires Ordered(older) && Ordered(newer) && Extends(older, newer) && Known(older, r)
    ensures Known(newer, r) && Truth(newer, has, r) == Truth(older, has, r)
    decreases RankOf(Ids(older), r)
  {
    if r.Expression? {
      var refs := older[r.id].refs;
      var a, b := Truths(older, Ids(older), has, r.id), Truths(newer, Ids(newer), has, r.id);
      forall i | 0 <= i < |refs| ensures a[i] == b[i] {
        assert Below(older, Ids(older), refs[i], Ids(older)[r.id]);
        TruthGrows(older, newer, has, refs[i]);
      }
      assert a == b;
    }
  }

  /** A new entry over known references keeps the table ordered, and applies its operation to them. */
  lemma AddEntry(older: map<nat, Operation>, id: nat, op: Operation)
    requires Ordered(older) && (forall k :: k in older ==> k < id)
    requires Q.Fits(op.kind, |op.refs|) && AllKnown(older, op.refs)
    ensures var newer := older[id := op];
            Ordered(newer) && Extends(older, newer)
  {
    var newer := older[id := op];
    forall k, i | k in newer && 0 <= i < |newer[k].refs| ensures Below(newer, Ids(newer), newer[k].refs[i], k) {
      if k == id {
        assert Known(older, op.refs[i]);
      } else {
        assert Below(older, Ids(older), older[k].refs[i], Ids(older)[k]);
      }
    }
  }

  lemma EntryTruth(older: map<nat, Operation>, id: nat, op: Operation, has: nat -> bool)
    requires Ordered(older) && (forall k :: k in older ==> k < id)
    requires Q.Fits(op.kind, |op.refs|) && AllKnown(older, op.refs)
    ensures Ordered(older[id := op])
    ensures Truth(older[id := op], has, Expression(id)) == Applies(op.kind, TruthsOf(older, has, op.refs))
  {
    var newer := older[id := op];
    AddEntry(older, id, op);
    var truths := Truths(newer, Ids(newer), has, id);
    forall i | 0 <= i < |op.refs| ensures truths[i] == Truth(older, has, op.refs[i]) {
      TruthGrows(older, newer, has, op.refs[i]);
    }
    assert truths == TruthsOf(older, has, op.refs);
  }

  // ---------------------------------------------------------------- the builder

  /** `r` in the newer table stands for "some of `values`", or for "all of `values`, and there are some". */
  ghost predicate StandsForSome(older: map<nat, Operation>, values: seq<Reference>, newer: map<nat, Operation>,
                                r: Reference)
    requires Ordered(older) && Ordered(newer) && AllKnown(older, values) && Known(newer, r)
  {
    forall has: nat -> bool :: Truth(newer, has, r) <==> true in TruthsOf(older, has, values)
  }

  ghost predicate StandsForAll(older: map<nat, Operation>, values: seq<Reference>, newer: map<nat, Operation>,
                               r: Reference)
    requires Ordered(older) && Ordered(newer) && AllKnown(older, values) && Known(newer, r)
  {
    forall has: nat -> bool :: Truth(newer, has, r) <==> values != [] && false !in TruthsOf(older, has, values)
  }

  predicate Same(values: seq<Reference>, r: Reference) {
    values != [] && forall i :: 0 <= i < |values| ==> values[i] == r
  }

  lemma RefOrder()
    ensures TotalOrder(RefLeq)
  {
  }

  /** One reference is left exactly when all were the same. */
  lemma OneLeft(values: seq<Reference>)
    ensures |SortDedup(values, RefLeq)| == 1 <==> exists r :: Same(values, r)
    ensures forall r :: Same(values, r) ==> SortDedup(values, RefLeq) == [r]
    ensures |SortDedup(values, RefLeq)| == 1 ==> Same(values, SortDedup(values, RefLeq)[0])
  {
    RefOrder();
    var s := SortDedup(values, RefLeq);
    SortDedupMembers(values, RefLeq);
    SortDedupAscending(values, RefLeq);
    assert |s| > 1 ==> s[0] != s[1];
    forall r | Same(values, r) ensures s == [r] {
      assert forall k :: 0 <= k < |s| ==> s[k] in values;
      forall k | 0 <= k < |s| ensures s[k] == r {
        assert s[k] in values;
      }
    }
    if |s| == 1 {
      assert forall i :: 0 <= i < |values| ==> values[i] in s;
      assert Same(values, s[0]);
    }
  }

  /** Which values are true depends on the members alone. */
  lemma MemberTruths(e: map<nat, Operation>, has: nat -> bool, a: seq<Reference>, b: seq<Reference>)
    requires Ordered(e) && AllKnown(e, a) && (forall x :: x in b ==> x in a)
    ensures AllKnown(e, b)
    ensures forall v :: v in TruthsOf(e, has, b) ==> v in TruthsOf(e, has, a)
  {
    forall i | 0 <= i < |b| ensures Known(e, b[i]) {
      assert b[i] in a;
    }
    forall v | v in TruthsOf(e, has, b) ensures v in TruthsOf(e, has, a) {
      var i :| 0 <= i < |b| && TruthsOf(e, has, b)[i] == v;
      assert b[i] in a;
      var j :| 0 <= j < |a| && a[j] == b[i];
      assert TruthsOf(e, has, a)[j] == v;
    }
  }

  lemma SortedTruths(e: map<nat, Operation>, values: seq<Reference>, has: nat -> bool)
    requires Ordered(e) && AllKnown(e, values)
    ensures var s := SortDedup(values, RefLeq);
            && AllKnown(e, s) && (s == [] <==> values == [])
            && forall v :: v in TruthsOf(e, has, s) <==> v in TruthsOf(e, has, values)
  {
    SortDedupMembers(values, RefLeq);
    MemberTruths(e, has, values, SortDedup(values, RefLeq));
    MemberTruths(e, has, SortDedup(values, RefLeq), values);
  }

  lemma SomeEntry(e: map<nat, Operation>, id: nat, values: seq<Reference>)
    requires Ordered(e) && AllKnown(e, values) && forall k :: k in e ==> k < id
    ensures var op := Operation(Q.Or, SortDedup(values, RefLeq));
            && Ordered(e[id := op]) && Extends(e, e[id := op])
            && StandsForSome(e, values, e[id := op], Expression(id))
  {
    var op := Operation(Q.Or, SortDedup(values, RefLeq));
    SortedTruths(e, values, t => true);
    AddEntry(e, id, op);
    hide SortDedup; hide TruthsOf; hide Ordered; hide Truth;
    forall has: nat -> bool ensures Truth(e[id := op], has, Expression(id)) <==> true in TruthsOf(e, has, values) {
      SortedTruths(e, values, has);
      EntryTruth(e, id, op, has);
    }
  }

  lemma AllEntry(e: map<nat, Operation>, id: nat, values: seq<Reference>)
    requires Ordered(e) && AllKnown(e, values) && forall k :: k in e ==> k < id
    ensures var op := Operation(Q.And, SortDedup(values, RefLeq));
            && Ordered(e[id := op]) && Extends(e, e[id := op])
            && StandsForAll(e, values, e[id := op], Expression(id))
  {
    var op := Operation(Q.And, SortDedup(values, RefLeq));
    SortedTruths(e, values, t => true);
    AddEntry(e, id, op);
    hide SortDedup; hide TruthsOf; hide Ordered; hide Truth;
    forall has: nat -> bool
      ensures Truth(e[id := op], has, Expression(id)) <==> values != [] && false !in TruthsOf(e, has, values)
    {
      SortedTruths(e, values, has);
      EntryTruth(e, id, op, has);
    }
  }

  /** A sole value stands for itself. */
  lemma SameTruths(e: map<nat, Operation>, values: seq<Reference>, r: Reference)
    requires Ordered(e) && AllKnown(e, values) && Same(values, r)
    ensures Known(e, r) && StandsForSome(e, values, e, r) && StandsForAll(e, values, e, r)
  {
    assert values[0] == r;
    forall has: nat -> bool
      ensures Truth(e, has, r) <==> true in TruthsOf(e, has, values)
      ensures Truth(e, has, r) <==> values != [] && false !in TruthsOf(e, has, values)
    {
      assert TruthsOf(e, has, values)[0] == Truth(e, has, r);
    }
  }

  // ---------------------------------------------------------------- weights

  /** `refs` lists the distinct values, `weights` how often each occurs. */
  ghost predicate Counted(values: seq<Reference>, refs: seq<Reference>, weights: seq<nat>) {
    && |refs| == |weights|
    && (forall i, j :: 0 <= i < j < |refs| ==> refs[i] != refs[j])
    && (forall i :: 0 <= i < |refs| ==> weights[i] == multiset(values)[refs[i]])
    && (forall x :: x in values ==> x in refs)
  }

  lemma {:induction false} WeightBump(truths: seq<bool>, weights: seq<nat>, j: nat, i: nat)
    requires |truths| == |weights| && j < |truths| && i <= |truths|
    ensures Weight(truths, weights[j := weights[j] + 1], i)
         == Weight(truths, weights, i) + if i <= j && truths[j] then 1 else 0
    decreases |truths| - i
  {
    if i < |truths| {
      WeightBump(truths, weights, j, i + 1);
    }
  }

  lemma {:induction false} WeightNothing(truths: seq<bool>, weights: seq<nat>, i: nat)
    requires |truths| == |weights| && i <= |truths| && forall k :: 0 <= k < |weights| ==> weights[k] == 0
    ensures Weight(truths, weights, i) == 0
    decreases |truths| - i
  {
    if i < |truths| {
      WeightNothing(truths, weights, i + 1);
    }
  }

  /** Weighing distinct references by how often they occur counts the true occurrences. */
  lemma {:induction false} WeightsCount(e: map<nat, Operation>, has: nat -> bool, values: seq<Reference>,
                                        refs: seq<Reference>, weights: seq<nat>)
    requires Ordered(e) && AllKnown(e, refs) && AllKnown(e, values) && Counted(values, refs, weights)
    ensures Weight(TruthsOf(e, has, refs), weights, 0) == CountTrue(TruthsOf(e, has, values))
    decreases |values|
  {
    var truths := TruthsOf(e, has, refs);
    if values == [] {
      WeightNothing(truths, weights, 0);
    } else {
      var n := |values| - 1;
      var older, x := values[..n], values[n];
      assert values[n] in refs;
      var j :| 0 <= j < |refs| && refs[j] == x;
      assert weights[j] > 0 by { assert x in multiset(values); }
      var before := weights[j := weights[j] - 1];
      CountedLess(values, refs, weights, j);
      assert TruthsOf(e, has, values)[..n] == TruthsOf(e, has, older);
      assert TruthsOf(e, has, values)[n] == truths[j];
      hide Counted; hide TruthsOf;
      WeightsCount(e, has, older, refs, before);
      WeightBump(truths, before, j, 0);
      assert before[j := before[j] + 1] == weights;
    }
  }

  lemma CountedLess(values: seq<Reference>, refs: seq<Reference>, weights: seq<nat>, j: nat)
    requires values != [] && Counted(values, refs, weights) && j < |refs| && refs[j] == values[|values| - 1]
    requires weights[j] > 0
    ensures Counted(values[..|values| - 1], refs, weights[j := weights[j] - 1])
  {
    var n := |values| - 1;
    assert values == values[..n] + [values[n]];
    forall x | x in values[..n] ensures x in refs {
      assert x in values;
    }
  }

  lemma MinOfEntry(e: map<nat, Operation>, id: nat, count: int, values: seq<Reference>, op: Operation)
    requires Ordered(e) && AllKnown(e, values) && forall k :: k in e ==> k < id
    requires op.kind.MinOf? && op.kind.count == count && Counted(values, op.refs, op.kind.weights)
    requires forall x :: x in op.refs ==> x in values
    ensures Ordered(e[id := op]) && Extends(e, e[id := op])
    ensures forall has: nat -> bool ::
              Truth(e[id := op], has, Expression(id))
              <==> true in TruthsOf(e, has, values) && Q.AsUsize(count) <= CountTrue(TruthsOf(e, has, values))
  {
    MemberTruths(e, t => true, values, op.refs);
    AddEntry(e, id, op);
    hide TruthsOf; hide Ordered; hide Truth; hide Counted;
    forall has: nat -> bool
      ensures Truth(e[id := op], has, Expression(id))
         <==> true in TruthsOf(e, has, values) && Q.AsUsize(count) <= CountTrue(TruthsOf(e, has, values))
    {
      EntryTruth(e, id, op, has);
      MemberTruths(e, has, values, op.refs);
      CountedMembers(values, op.refs, op.kind.weights);
      MemberTruths(e, has, op.refs, values);
      WeightsCount(e, has, values, op.refs, op.kind.weights);
    }
  }

  lemma CountedMembers(values: seq<Reference>, refs: seq<Reference>, weights: seq<nat>)
    requires Counted(values, refs, weights)
    ensures |refs| == |weights| && forall x :: x in values ==> x in refs
  {
  }

  // ---------------------------------------------------------------- phrases

  ghost predicate Means(e: map<nat, Operation>, r: Reference, q: Phrase) {
    Ordered(e) && Known(e, r) && forall has: nat -> bool :: Truth(e, has, r) <==> Compiled(q, has)
  }

  ghost predicate AllMean(e: map<nat, Operation>, refs: seq<Reference>, parts: seq<Phrase>) {
    |refs| == |parts| && forall i :: 0 <= i < |refs| ==> Means(e, refs[i], parts[i])
  }

  lemma MeansGrows(older: map<nat, Operation>, newer: map<nat, Operation>, r: Reference, q: Phrase)
    requires Means(older, r, q) && Ordered(newer) && Extends(older, newer)
    ensures Means(newer, r, q)
  {
    forall has: nat -> bool ensures Known(newer, r) && (Truth(newer, has, r) <==> Compiled(q, has)) {
      TruthGrows(older, newer, has, r);
    }
    TruthGrows(older, newer, t => true, r);
  }

  ghost function CompiledParts(parts: seq<Phrase>, has: nat -> bool): (r: seq<bool>)
    ensures |r| == |parts|
  {
    seq(|parts|, i requires 0 <= i < |parts| => Compiled(parts[i], has))
  }

  lemma PartsTruths(e: map<nat, Operation>, refs: seq<Reference>, parts: seq<Phrase>, has: nat -> bool)
    requires Ordered(e) && AllMean(e, refs, parts)
    ensures AllKnown(e, refs) && TruthsOf(e, has, refs) == CompiledParts(parts, has)
  {
    forall i | 0 <= i < |refs| ensures Known(e, refs[i]) && Truth(e, has, refs[i]) == Compiled(parts[i], has) {
      assert Means(e, refs[i], parts[i]);
    }
  }

  /**
   What the count of a compiled `MinOf` means: from one on, that many parts must pass; from zero down
   to the least 64 bit number, as long as there are fewer than 2^63 parts, a count of zero asks for
   some part, and a negative one for the impossible.
   */
  lemma CompiledCount(parts: seq<Phrase>, count: int, has: nat -> bool)
    ensures count >= 1 ==>
              (Compiled(Phrase.MinOf(count, parts), has) <==> count <= CountTrue(CompiledParts(parts, has)))
    ensures count == 0 ==>
              (Compiled(Phrase.MinOf(count, parts), has) <==> exists i :: 0 <= i < |parts| && Compiled(parts[i], has))
    ensures -0x8000_0000_0000_0000 <= count < 0 && |parts| < 0x8000_0000_0000_0000 ==>
              !Compiled(Phrase.MinOf(count, parts), has)
  {
    var truths := CompiledParts(parts, has);
    CompiledAsParts(parts, count, has);
    CountBounds(truths);
    if count == 0 {
      CompiledAsParts(parts, 0, has);
      assert Compiled(Phrase.Or(parts), has) <==> true in truths;
    }
  }

  lemma CompiledAsParts(parts: seq<Phrase>, count: int, has: nat -> bool)
    ensures Compiled(Phrase.Or(parts), has) <==> true in CompiledParts(parts, has)
    ensures Compiled(Phrase.And(parts), has) <==> parts != [] && false !in CompiledParts(parts, has)
    ensures Compiled(Phrase.MinOf(count, parts), has)
       <==> true in CompiledParts(parts, has) && Q.AsUsize(count) <= CountTrue(CompiledParts(parts, has))
  {
    var truths := CompiledParts(parts, has);
    assert forall i :: 0 <= i < |parts| ==> truths[i] == Compiled(parts[i], has);
    if Compiled(Phrase.Or(parts), has) {
      var i :| 0 <= i < |parts| && Compiled(parts[i], has);
      assert truths[i];
    }
    if false in truths {
      var i :| 0 <= i < |truths| && !truths[i];
      assert !Compiled(parts[i], has);
    }
    var q := Phrase.MinOf(count, parts);
    assert truths == seq(|q.parts|, i requires 0 <= i < |q.parts| => Compiled(q.parts[i], has));
  }

  /** The phrases that compile to the bare trigram `t` instead of an entry of the table. */
  predicate IsSingle(q: Phrase, t: nat) {
    match q
    case And(parts) => parts != [] && forall i :: 0 <= i < |parts| ==> IsSingle(parts[i], t)
    case Or(parts) => parts != [] && forall i :: 0 <= i < |parts| ==> IsSingle(parts[i], t)
    case Literal(bytes) => |bytes| >= 3 && forall i :: 0 <= i <= |bytes| - 3 ==> TrigramAt(bytes, i) == t
    case InsensitiveLiteral(bytes) =>
      && |bytes| >= 3 && (forall i :: 0 <= i < |bytes| ==> Lower(bytes[i]) == Upper(bytes[i]))
      && forall i :: 0 <= i <= |bytes| - 3 ==> TrigramAt(bytes, i) == t
    case MinOf(_, _) => false
  }

  ghost predicate AllSingle(refs: seq<Reference>, parts: seq<Phrase>) {
    |refs| == |parts| && forall i, t: nat :: 0 <= i < |refs| ==> (refs[i] == Trigram(t) <==> IsSingle(parts[i], t))
  }

  lemma AllMeanGrows(older: map<nat, Operation>, newer: map<nat, Operation>, refs: seq<Reference>, parts: seq<Phrase>,
                     r: Reference, q: Phrase)
    requires AllMean(older, refs, parts) && Ordered(newer) && Extends(older, newer) && Means(newer, r, q)
    ensures AllMean(newer, refs + [r], parts + [q])
  {
    forall i | 0 <= i < |refs| ensures Means(newer, refs[i], parts[i]) {
      MeansGrows(older, newer, refs[i], parts[i]);
    }
  }

  lemma PartsKnown(e: map<nat, Operation>, refs: seq<Reference>, parts: seq<Phrase>)
    requires AllMean(e, refs, parts)
    ensures AllKnown(e, refs) && |refs| == |parts|
  {
    forall i | 0 <= i < |refs| ensures Known(e, refs[i]) {
      assert Means(e, refs[i], parts[i]);
    }
  }

  lemma OrMeans(e: map<nat, Operation>, e': map<nat, Operation>, refs: seq<Reference>, parts: seq<Phrase>, r: Reference)
    requires Ordered(e) && Ordered(e') && AllMean(e, refs, parts) && AllKnown(e, refs) && Known(e', r)
    requires StandsForSome(e, refs, e', r)
    ensures Means(e', r, Phrase.Or(parts))
  {
    forall has: nat -> bool ensures Truth(e', has, r) <==> Compiled(Phrase.Or(parts), has) {
      PartsTruths(e, refs, parts, has);
      CompiledAsParts(parts, 0, has);
    }
  }

  lemma AndMeans(e: map<nat, Operation>, e': map<nat, Operation>, refs: seq<Reference>, parts: seq<Phrase>,
                 r: Reference)
    requires Ordered(e) && Ordered(e') && AllMean(e, refs, parts) && AllKnown(e, refs) && Known(e', r)
    requires StandsForAll(e, refs, e', r)
    ensures Means(e', r, Phrase.And(parts))
  {
    forall has: nat -> bool ensures Truth(e', has, r) <==> Compiled(Phrase.And(parts), has) {
      PartsTruths(e, refs, parts, has);
      CompiledAsParts(parts, 0, has);
    }
  }

  lemma MinOfMeans(e: map<nat, Operation>, e': map<nat, Operation>, refs: seq<Reference>, parts: seq<Phrase>,
                   count: int,
                   r: Reference)
    requires Ordered(e) && Ordered(e') && AllMean(e, refs, parts) && AllKnown(e, refs) && Known(e', r)
    requires forall has: nat -> bool ::
               Truth(e', has, r) <==>
                 true in TruthsOf(e, has, refs) && Q.AsUsize(count) <= CountTrue(TruthsOf(e, has, refs))
    ensures Means(e', r, Phrase.MinOf(count, parts))
  {
    forall has: nat -> bool ensures Truth(e', has, r) <==> Compiled(Phrase.MinOf(count, parts), has) {
      PartsTruths(e, refs, parts, has);
      CompiledAsParts(parts, count, has);
    }
  }

  lemma SingleParts(values: seq<Reference>, parts: seq<Phrase>, r: Reference)
    requires AllSingle(values, parts)
    requires Same(values, r) <==> exists v :: Same(values, v)
    requires r.Trigram? ==> Same(values, r)
    ensures forall t: nat :: r == Trigram(t) <==> IsSingle(Phrase.Or(parts), t)
    ensures forall t: nat :: r == Trigram(t) <==> IsSingle(Phrase.And(parts), t)
  {
    forall t: nat
      ensures r == Trigram(t) <==> IsSingle(Phrase.Or(parts), t)
      ensures r == Trigram(t) <==> IsSingle(Phrase.And(parts), t)
    {
      assert Same(values, Trigram(t)) <==> IsSingle(Phrase.Or(parts), t);
      assert IsSingle(Phrase.And(parts), t) <==> IsSingle(Phrase.Or(parts), t);
      if Same(values, Trigram(t)) {
        assert values[0] == Trigram(t);
      }
    }
  }

  /** A literal as the sequence of its three byte windows. */
  function Windows(literal: seq<byte>, folded: bool): (w: seq<Phrase>)
    ensures |w| == if |literal| < 3 then 0 else |literal| - 2
  {
    seq(if |literal| < 3 then 0 else |literal| - 2, i requires 0 <= i <= |literal| - 3 =>
      if folded then Phrase.InsensitiveLiteral(literal[i..i + 3]) else Phrase.Literal(literal[i..i + 3]))
  }

  lemma OneWindow(literal: seq<byte>, i: nat, has: nat -> bool, t: nat)
    requires i + 3 <= |literal|
    ensures var w := literal[i..i + 3];
            && (Compiled(Phrase.Literal(w), has) <==> has(TrigramAt(literal, i)))
            && (Compiled(Phrase.InsensitiveLiteral(w), has)
                <==> AnyCase(literal[i], literal[i + 1], literal[i + 2], has))
            && (IsSingle(Phrase.Literal(w), t) <==> TrigramAt(literal, i) == t)
            && (IsSingle(Phrase.InsensitiveLiteral(w), t) <==>
                  && TrigramAt(literal, i) == t
                  && (forall k :: i <= k < i + 3 ==> Lower(literal[k]) == Upper(literal[k])))
  {
    hide Pack; hide Lower; hide Upper; hide AnyCase;
    var w := literal[i..i + 3];
    assert TrigramAt(w, 0) == TrigramAt(literal, i);
    assert forall k :: 0 <= k < 3 ==> w[k] == literal[i + k];
    assert forall k :: i <= k < i + 3 ==> w[k - i] == literal[k];
  }

  /** A literal means that all its windows are there. */
  lemma WindowsMean(literal: seq<byte>, folded: bool, has: nat -> bool)
    ensures var q := if folded then Phrase.InsensitiveLiteral(literal) else Phrase.Literal(literal);
            Compiled(q, has) <==> Compiled(Phrase.And(Windows(literal, folded)), has)
  {
    forall i | 0 <= i <= |literal| - 3
      ensures folded ==> (Compiled(Windows(literal, folded)[i], has) <==>
                            AnyCase(literal[i], literal[i + 1], literal[i + 2], has))
      ensures !folded ==> (Compiled(Windows(literal, folded)[i], has) <==> has(TrigramAt(literal, i)))
    {
      OneWindow(literal, i, has, 0);
    }
    var windows := Windows(literal, folded);
    var q := Phrase.And(windows);
    assert Compiled(q, has) <==> windows != [] && forall i :: 0 <= i < |windows| ==> Compiled(windows[i], has);
  }

  lemma WindowsSingle(literal: seq<byte>, folded: bool, t: nat)
    ensures var q := if folded then Phrase.InsensitiveLiteral(literal) else Phrase.Literal(literal);
            IsSingle(q, t) <==> IsSingle(Phrase.And(Windows(literal, folded)), t)
  {
    var windows := Windows(literal, folded);
    var q := Phrase.And(windows);
    forall i | 0 <= i <= |literal| - 3
      ensures folded ==> (IsSingle(windows[i], t) <==>
                            && TrigramAt(literal, i) == t
                            && (forall k :: i <= k < i + 3 ==> Lower(literal[k]) == Upper(literal[k])))
      ensures !folded ==> (IsSingle(windows[i], t) <==> TrigramAt(literal, i) == t)
    {
      OneWindow(literal, i, t => true, t);
    }
    if folded && IsSingle(q, t) {
      forall k | 0 <= k < |literal| ensures Lower(literal[k]) == Upper(literal[k]) {
        var i := if k < |literal| - 2 then k else |literal| - 3;
        assert IsSingle(windows[i], t);
      }
    }
  }

  lemma LiteralMeans(e: map<nat, Operation>, r: Reference, literal: seq<byte>, folded: bool)
    requires Means(e, r, Phrase.And(Windows(literal, folded)))
    requires forall t: nat :: r == Trigram(t) <==> IsSingle(Phrase.And(Windows(literal, folded)), t)
    ensures var q := if folded then Phrase.InsensitiveLiteral(literal) else Phrase.Literal(literal);
            Means(e, r, q) && forall t: nat :: r == Trigram(t) <==> IsSingle(q, t)
  {
    var q := if folded then Phrase.InsensitiveLiteral(literal) else Phrase.Literal(literal);
    forall has: nat -> bool ensures Truth(e, has, r) <==> Compiled(q, has) {
      WindowsMean(literal, folded, has);
    }
    forall t: nat ensures r == Trigram(t) <==> IsSingle(q, t) {
      WindowsSingle(literal, folded, t);
    }
  }

  /** A bare trigram means that its bytes are there. */
  lemma TrigramMeans(e: map<nat, Operation>, literal: seq<byte>, i: nat)
    requires Ordered(e) && i + 3 <= |literal|
    ensures var q, r := Phrase.Literal(literal[i..i + 3]), Trigram(TrigramAt(literal, i));
            Means(e, r, q) && forall t: nat :: r == Trigram(t) <==> IsSingle(q, t)
  {
    var q, r := Phrase.Literal(literal[i..i + 3]), Trigram(TrigramAt(literal, i));
    forall has: nat -> bool ensures Truth(e, has, r) <==> Compiled(q, has) {
      OneWindow(literal, i, has, 0);
    }
    forall t: nat ensures r == Trigram(t) <==> IsSingle(q, t) {
      OneWindow(literal, i, t => true, t);
    }
  }

  /** A `Literal` of fewer than two bytes makes the compiler index past its end. */
  predicate NoPanic(q: Phrase) {
    match q
    case And(parts) => forall i :: 0 <= i < |parts| ==> NoPanic(parts[i])
    case Or(parts) => forall i :: 0 <= i < |parts| ==> NoPanic(parts[i])
    case MinOf(_, parts) => forall i :: 0 <= i < |parts| ==> NoPanic(parts[i])
    case Literal(bytes) => |bytes| >= 2
    case InsensitiveLiteral(_) => true
  }

  /** The trigrams of a literal, by rolling a window over it. */
  method RollTrigrams(literal: seq<byte>) returns (values: seq<Reference>)
    requires |literal| >= 2
    ensures |values| == |literal| - 2
    ensures forall j :: 0 <= j < |values| ==> values[j] == Trigram(TrigramAt(literal, j))
  {
    values := [];
    var trigram: nat := Pair(literal[0], literal[1]);
    PairIsLow(literal[0], literal[1]);
    for i := 2 to |literal|
      invariant |values| == i - 2
      invariant trigram % 0x1_0000 == Pair(literal[i - 2], literal[i - 1])
      invariant forall j :: 0 <= j < i - 2 ==> values[j] == Trigram(TrigramAt(literal, j))
    {
      RollPacks(trigram, literal[i - 2], literal[i - 1], literal[i]);
      CutAfter(trigram, literal[i]);
      trigram := (trigram * 0x100 + literal[i] as nat) % 0x100_0000;
      values := values + [Trigram(trigram)];
    }
  }

  class TrigramQueryBuilder {
    var counter: nat
    var expressions: map<nat, Operation>

    ghost predicate Valid() reads this {
      Ordered(expressions) && forall id :: id in expressions ==> id < counter
    }

    constructor ()
      ensures Valid() && expressions == map[]
    {
      counter := 0;
      expressions := map[];
    }

    method NextId() returns (id: nat)
      requires Valid()
      modifies this`counter
      ensures Valid() && id == old(counter) && counter == id + 1
    {
      counter := counter + 1;
      id := counter - 1;
    }

    method Or(values: seq<Reference>) returns (r: Reference)
      requires Valid() && AllKnown(expressions, values)
      modifies this
      ensures Valid() && Extends(old(expressions), expressions) && Known(expressions, r)
      ensures StandsForSome(old(expressions), values, expressions, r)
      ensures Same(values, r) <==> exists v :: Same(values, v)
      ensures r.Trigram? ==> Same(values, r)
      ensures Same(values, r) ==> expressions == old(expressions)
    {
      ghost var e := expressions;
      var sorted := SortDedup(values, RefLeq);
      OneLeft(values);
      SomeEntry(e, counter, values);
      hide SortDedup; hide Ordered; hide Truth; hide TruthsOf;
      if |sorted| == 1 {
        r := sorted[0];
        SameTruths(e, values, r);
      } else {
        var id := NextId();
        expressions := expressions[id := Operation(Q.Or, sorted)];
        r := Expression(id);
      }
    }

    method And(values: seq<Reference>) returns (r: Reference)
      requires Valid() && AllKnown(expressions, values)
      modifies this
      ensures Valid() && Extends(old(expressions), expressions) && Known(expressions, r)
      ensures StandsForAll(old(expressions), values, expressions, r)
      ensures Same(values, r) <==> exists v :: Same(values, v)
      ensures r.Trigram? ==> Same(values, r)
      ensures Same(values, r) ==> expressions == old(expressions)
    {
      ghost var e := expressions;
      var sorted := SortDedup(values, RefLeq);
      OneLeft(values);
      AllEntry(e, counter, values);
      hide SortDedup; hide Ordered; hide Truth; hide TruthsOf;
      if |sorted| == 1 {
        r := sorted[0];
        SameTruths(e, values, r);
      } else {
        var id := NextId();
        expressions := expressions[id := Operation(Q.And, sorted)];
        r := Expression(id);
      }
    }

    /** Counts how often each value occurs; the table of counts gives them up in any order. */
    method MinOf(expected: int, values: seq<Reference>) returns (op: Operation)
      ensures op.kind.MinOf? && op.kind.count == expected && Counted(values, op.refs, op.kind.weights)
      ensures forall x :: x in op.refs ==> x in values
    {
      var counted: map<Reference, nat> := map[];
      var i := 0;
      while i < |values|
        invariant i <= |values|
        invariant forall x :: x in counted <==> x in values[..i]
        invariant forall x :: x in counted ==> counted[x] == multiset(values[..i])[x]
      {
        assert values[..i + 1] == values[..i] + [values[i]];
        assert values[i] !in values[..i] ==> multiset(values[..i])[values[i]] == 0;
        counted := counted[values[i] := (if values[i] in counted then counted[values[i]] else 0) + 1];
        i := i + 1;
      }
      assert values[..i] == values;
      var refs: seq<Reference>, weights: seq<nat> := [], [];
      var left := counted.Keys;
      while left != {}
        invariant |refs| == |weights|
        invariant forall i, j :: 0 <= i < j < |refs| ==> refs[i] != refs[j]
        invariant forall i :: 0 <= i < |refs| ==> refs[i] in values && weights[i] == multiset(values)[refs[i]]
        invariant forall x :: x in left <==> x in values && x !in refs
        decreases left
      {
        var x :| x in left;
        refs, weights, left := refs + [x], weights + [counted[x]], left - {x};
      }
      op := Operation(Q.MinOf(expected, weights), refs);
    }

    method InsertCaseInsensitive(window: seq<byte>) returns (r: Reference)
      requires Valid() && |window| == 3
      modifies this
      ensures Valid() && Extends(old(expressions), expressions)
              && Means(expressions, r, Phrase.InsensitiveLiteral(window))
      ensures forall t: nat :: r == Trigram(t) <==> IsSingle(Phrase.InsensitiveLiteral(window), t)
      ensures r.Trigram? ==> expressions == old(expressions)
    {
      var la, lb, lc := Lower(window[0]), Lower(window[1]), Lower(window[2]);
      var ua, ub, uc := Upper(window[0]), Upper(window[1]), Upper(window[2]);
      if la == ua && lb == ub && lc == uc {
        r := Trigram(Pack(la, lb, lc));
        CaselessMeans(expressions, window);
        return;
      }
      ghost var e := expressions;
      var values := [Trigram(Pack(la, lb, lc)), Trigram(Pack(la, lb, uc)),
                     Trigram(Pack(la, ub, lc)), Trigram(Pack(la, ub, uc)),
                     Trigram(Pack(ua, lb, lc)), Trigram(Pack(ua, lb, uc)),
                     Trigram(Pack(ua, ub, lc)), Trigram(Pack(ua, ub, uc))];
      r := Or(values);
      assert values[0] != values[7];
      VariantsMean(e, expressions, window, values, r);
    }

    method InsertLiteral(literal: seq<byte>) returns (r: Reference)
      requires Valid() && |literal| >= 2
      modifies this
      ensures Valid() && Extends(old(expressions), expressions) && Means(expressions, r, Phrase.Literal(literal))
      ensures forall t: nat :: r == Trigram(t) <==> IsSingle(Phrase.Literal(literal), t)
      ensures r.Trigram? ==> expressions == old(expressions)
    {
      ghost var e := expressions;
      var values := RollTrigrams(literal);
      var windows := Windows(literal, false);
      forall j | 0 <= j < |values|
        ensures Means(e, values[j], windows[j]) && forall t: nat :: values[j] == Trigram(t) <==> IsSingle(windows[j], t)
      {
        TrigramMeans(e, literal, j);
      }
      hide Means; hide IsSingle; hide Windows; hide Ordered;
      PartsKnown(e, values, windows);
      r := And(values);
      AndMeans(e, expressions, values, windows, r);
      SingleParts(values, windows, r);
      LiteralMeans(expressions, r, literal, false);
    }

    method InsertInsensitive(literal: seq<byte>) returns (r: Reference)
      requires Valid()
      modifies this
      ensures Valid() && Extends(old(expressions), expressions)
              && Means(expressions, r, Phrase.InsensitiveLiteral(literal))
      ensures forall t: nat :: r == Trigram(t) <==> IsSingle(Phrase.InsensitiveLiteral(literal), t)
      ensures r.Trigram? ==> expressions == old(expressions)
    {
      hide Means; hide IsSingle; hide Ordered;
      var values: seq<Reference> := [];
      ghost var windows := Windows(literal, true);
      var i := 0;
      while i + 3 <= |literal|
        invariant i <= |windows| && Valid() && Extends(old(expressions), expressions)
        invariant AllMean(expressions, values, windows[..i]) && AllSingle(values, windows[..i])
        invariant (forall j :: 0 <= j < i ==> values[j].Trigram?) ==> expressions == old(expressions)
      {
        ghost var before := expressions;
        r := InsertCaseInsensitive(literal[i..i + 3]);
        AllMeanGrows(before, expressions, values, windows[..i], r, windows[i]);
        assert windows[..i + 1] == windows[..i] + [windows[i]];
        values := values + [r];
        i := i + 1;
      }
      assert windows[..i] == windows;
      ghost var e := expressions;
      PartsKnown(e, values, windows);
      r := And(values);
      AndMeans(e, expressions, values, windows, r);
      SingleParts(values, windows, r);
      LiteralMeans(expressions, r, literal, true);
    }

    /** Compiles every part in turn. */
    method InsertAll(parts: seq<Phrase>) returns (refs: seq<Reference>)
      requires Valid() && forall i :: 0 <= i < |parts| ==> NoPanic(parts[i])
      modifies this
      ensures Valid() && Extends(old(expressions), expressions)
      ensures AllMean(expressions, refs, parts) && AllSingle(refs, parts)
      ensures (forall i :: 0 <= i < |refs| ==> refs[i].Trigram?) ==> expressions == old(expressions)
      decreases parts
    {
      refs := [];
      var i := 0;
      while i < |parts|
        invariant i <= |parts| && Valid() && Extends(old(expressions), expressions)
        invariant AllMean(expressions, refs, parts[..i]) && AllSingle(refs, parts[..i])
        invariant (forall j :: 0 <= j < i ==> refs[j].Trigram?) ==> expressions == old(expressions)
      {
        ghost var e := expressions;
        var r := Insert(parts[i]);
        AllMeanGrows(e, expressions, refs, parts[..i], r, parts[i]);
        hide Means; hide IsSingle; hide Ordered;
        assert parts[..i + 1] == parts[..i] + [parts[i]];
        refs := refs + [r];
        i := i + 1;
      }
      assert parts[..i] == parts;
    }

    /** Compiles a phrase: the reference returned means what `Compiled` says of the phrase. */
    method Insert(input: Phrase) returns (r: Reference)
      requires Valid() && NoPanic(input)
      modifies this
      ensures Valid() && Extends(old(expressions), expressions) && Means(expressions, r, input)
      ensures forall t: nat :: r == Trigram(t) <==> IsSingle(input, t)
      ensures r.Trigram? ==> expressions == old(expressions)
      decreases input
    {
      match input
      case Or(parts) =>
        var values := InsertAll(parts);
        ghost var e := expressions;
        PartsKnown(e, values, parts);
        r := Or(values);
        OrMeans(e, expressions, values, parts, r);
        SingleParts(values, parts, r);
      case And(parts) =>
        var values := InsertAll(parts);
        ghost var e := expressions;
        PartsKnown(e, values, parts);
        r := And(values);
        AndMeans(e, expressions, values, parts, r);
        SingleParts(values, parts, r);
      case MinOf(expected, parts) =>
        var values := InsertAll(parts);
        var id := NextId();
        var op := MinOf(expected, values);
        ghost var e := expressions;
        PartsKnown(e, values, parts);
        MinOfEntry(e, id, expected, values, op);
        expressions := expressions[id := op];
        r := Expression(id);
        MinOfMeans(e, expressions, values, parts, expected, r);
      case Literal(literal) =>
        r := InsertLiteral(literal);
      case InsensitiveLiteral(literal) =>
        r := InsertInsensitive(literal);
    }
  }

  lemma PairIsLow(a: byte, b: byte)
    ensures Pair(a, b) % 0x1_0000 == Pair(a, b)
  {
  }

  /** Cutting to 24 bits after the shift is the same as cutting to 16 bits before it. */
  lemma CutAfter(trigram: nat, c: byte)
    ensures (trigram * 0x100 + c) % 0x100_0000 == Roll(trigram, c)
  {
    var high, low := trigram / 0x1_0000, trigram % 0x1_0000;
    assert trigram * 0x100 + c == high * 0x100_0000 + (low * 0x100 + c);
    CutHigh(high, low * 0x100 + c);
  }

  lemma CutHigh(high: nat, low: nat)
    requires low < 0x100_0000
    ensures (high * 0x100_0000 + low) % 0x100_0000 == low
  {
  }

  lemma CaselessMeans(e: map<nat, Operation>, window: seq<byte>)
    requires Ordered(e) && |window| == 3 && forall i :: 0 <= i < 3 ==> Lower(window[i]) == Upper(window[i])
    ensures var q, r := Phrase.InsensitiveLiteral(window), Trigram(Pack(window[0], window[1], window[2]));
            Means(e, r, q) && forall t: nat :: r == Trigram(t) <==> IsSingle(q, t)
  {
    var q, r := Phrase.InsensitiveLiteral(window), Trigram(Pack(window[0], window[1], window[2]));
    assert TrigramAt(window, 0) == r.trigram;
    forall has: nat -> bool ensures Truth(e, has, r) <==> Compiled(q, has) {
      assert AnyCase(window[0], window[1], window[2], has) <==> has(r.trigram);
    }
  }

  lemma VariantsMean(e: map<nat, Operation>, e': map<nat, Operation>, window: seq<byte>, values: seq<Reference>,
                     r: Reference)
    requires |window| == 3 && Ordered(e) && Ordered(e') && AllKnown(e, values) && Known(e', r)
    requires values == Variants(window) && StandsForSome(e, values, e', r)
    ensures Means(e', r, Phrase.InsensitiveLiteral(window))
  {
    forall has: nat -> bool ensures Truth(e', has, r) <==> Compiled(Phrase.InsensitiveLiteral(window), has) {
      VariantTruths(e, has, window);
    }
  }

  /** The eight spellings of a window. */
  function Variants(window: seq<byte>): seq<Reference>
    requires |window| == 3
  {
    var (a, b, c) := (window[0], window[1], window[2]);
    [Trigram(Pack(Lower(a), Lower(b), Lower(c))), Trigram(Pack(Lower(a), Lower(b), Upper(c))),
     Trigram(Pack(Lower(a), Upper(b), Lower(c))), Trigram(Pack(Lower(a), Upper(b), Upper(c))),
     Trigram(Pack(Upper(a), Lower(b), Lower(c))), Trigram(Pack(Upper(a), Lower(b), Upper(c))),
     Trigram(Pack(Upper(a), Upper(b), Lower(c))), Trigram(Pack(Upper(a), Upper(b), Upper(c)))]
  }

  lemma VariantTruths(e: map<nat, Operation>, has: nat -> bool, window: seq<byte>)
    requires |window| == 3 && Ordered(e) && AllKnown(e, Variants(window))
    ensures true in TruthsOf(e, has, Variants(window)) <==> Compiled(Phrase.InsensitiveLiteral(window), has)
  {
    hide Pack; hide Lower; hide Upper; hide Ordered;
    var a, b, c := window[0], window[1], window[2];
    var values := Variants(window);
    var truths := TruthsOf(e, has, values);
    if true in truths {
      var i :| 0 <= i < 8 && truths[i];
      assert has(values[i].trigram);
    }
    if AnyCase(a, b, c, has) {
      var x, y, z :| x in [Lower(a), Upper(a)] && y in [Lower(b), Upper(b)] && z in [Lower(c), Upper(c)]
          && has(Pack(x, y, z));
      var i := VariantAt(window, x, y, z);
      assert truths[i];
    }
  }

  lemma VariantAt(window: seq<byte>, x: byte, y: byte, z: byte) returns (i: nat)
    requires |window| == 3
    requires x in [Lower(window[0]), Upper(window[0])]
    requires y in [Lower(window[1]), Upper(window[1])] && z in [Lower(window[2]), Upper(window[2])]
    ensures i < 8 && Variants(window)[i] == Trigram(Pack(x, y, z))
  {
    hide Pack; hide Lower; hide Upper;
    i := (if x == Lower(window[0]) then 0 else 4) + (if y == Lower(window[1]) then 0 else 2)
         + (if z == Lower(window[2]) then 0 else 1);
  }

  // ---------------------------------------------------------------- whole queries

  /**
   `TrigramQuery::build`: an acyclic table whose root means what the phrase compiles to.  The root
   has a channel in the network exactly when the phrase does not collapse to one bare trigram;
   otherwise the query is refused as corrupt.
   */
  method Build(input: Phrase) returns (query: Query)
    requires NoPanic(input)
    ensures Means(query.expressions, query.root, input)
    ensures Start(query).None? <==> exists t: nat :: IsSingle(input, t)
    ensures Registered(query, query.root) <==> !exists t: nat :: IsSingle(input, t)
  {
    var builder := new TrigramQueryBuilder();
    var root := builder.Insert(input);
    query := Query(root, builder.expressions);
    if root.Trigram? {
      assert IsSingle(input, root.trigram);
      assert UsedTrigrams(query.expressions) == {};
    }
  }

  /** The trigrams of a content, as the formula asks for them. */
  ghost function TrigramsIn(content: seq<byte>): nat -> bool {
    (t: nat) => HasTrigram(content, t)
  }

  /** The phrases whose compiled form finds every file they are satisfied by. */
  ghost predicate Complete(q: Phrase) {
    forall content :: Satisfies(q, content) ==> Compiled(q, TrigramsIn(content))
  }

  /** Literals of three bytes and more, no conjunction of nothing, no count below one. */
  predicate WellFormed(q: Phrase) {
    match q
    case And(parts) => parts != [] && forall i :: 0 <= i < |parts| ==> WellFormed(parts[i])
    case Or(parts) => forall i :: 0 <= i < |parts| ==> WellFormed(parts[i])
    case Literal(bytes) => |bytes| >= 3
    case InsensitiveLiteral(bytes) => |bytes| >= 3
    case MinOf(count, parts) => count >= 1 && forall i :: 0 <= i < |parts| ==> WellFormed(parts[i])
  }

  predicate PartsWellFormed(q: Phrase) {
    (q.And? || q.Or? || q.MinOf?) ==> forall i :: 0 <= i < |q.parts| ==> WellFormed(q.parts[i])
  }

  /** No false negatives: a file that satisfies a well-formed phrase passes its compiled form. */
  lemma {:induction false} NothingIsLost(q: Phrase, content: seq<byte>)
    requires WellFormed(q) && Satisfies(q, content)
    ensures Compiled(q, TrigramsIn(content))
  {
    var has := TrigramsIn(content);
    match q
    case And(parts) =>
      forall i | 0 <= i < |parts| ensures Compiled(parts[i], has) {
        NothingIsLost(parts[i], content);
      }
    case Or(parts) =>
      var i :| 0 <= i < |parts| && Satisfies(parts[i], content);
      NothingIsLost(parts[i], content);
    case Literal(bytes) =>
      var at: nat :| OccursAt(bytes, content, at);
      forall i | 0 <= i <= |bytes| - 3 ensures has(TrigramAt(bytes, i)) {
        assert TrigramAt(content, at + i) == TrigramAt(bytes, i);
      }
    case InsensitiveLiteral(bytes) =>
      var at: nat :| FoldedAt(bytes, content, at);
      forall i | 0 <= i <= |bytes| - 3 ensures AnyCase(bytes[i], bytes[i + 1], bytes[i + 2], has) {
        FoldedWindow(bytes, content, at, i);
      }
    case MinOf(count, parts) =>
      HoldCountBounds(parts, content);
      var before := seq(|parts|, i requires 0 <= i < |parts| => Satisfies(parts[i], content));
      assert before == seq(|q.parts|, i requires 0 <= i < |q.parts| => Satisfies(q.parts[i], content));
      forall i | 0 <= i < |parts| && before[i] ensures Compiled(parts[i], has) {
        NothingIsLost(parts[i], content);
      }
      CountGrows(before, CompiledParts(parts, has));
      CountBounds(before);
      CountBounds(CompiledParts(parts, has));
      CompiledAsParts(parts, count, has);
  }

  lemma FoldedWindow(bytes: seq<byte>, content: seq<byte>, at: nat, i: nat)
    requires FoldedAt(bytes, content, at) && i + 3 <= |bytes|
    ensures AnyCase(bytes[i], bytes[i + 1], bytes[i + 2], TrigramsIn(content))
  {
    var x, y, z := content[at + i], content[at + i + 1], content[at + i + 2];
    assert Lower(content[at + (i + 1)]) == Lower(bytes[i + 1]) && Lower(content[at + (i + 2)]) == Lower(bytes[i + 2]);
    FoldedByte(x, bytes[i]);
    FoldedByte(y, bytes[i + 1]);
    FoldedByte(z, bytes[i + 2]);
    assert TrigramAt(content, at + i) == Pack(x, y, z);
    assert TrigramsIn(content)(Pack(x, y, z));
  }

  lemma FoldedByte(x: byte, b: byte)
    requires Lower(x) == Lower(b)
    ensures x in [Lower(b), Upper(b)]
  {
    assert x == Lower(b) || x == Upper(b);
    assert [Lower(b), Upper(b)][0] == Lower(b) && [Lower(b), Upper(b)][1] == Upper(b);
  }

  /** A file without trigrams passes no compiled phrase. */
  lemma {:induction false} NothingFromNothing(q: Phrase, has: nat -> bool)
    requires forall t: nat :: !has(t)
    ensures !Compiled(q, has)
  {
    match q
    case And(parts) =>
      if parts != [] { NothingFromNothing(parts[0], has); }
    case Or(parts) =>
      forall i | 0 <= i < |parts| ensures !Compiled(parts[i], has) {
        NothingFromNothing(parts[i], has);
      }
    case Literal(bytes) =>
      if |bytes| >= 3 { assert !has(TrigramAt(bytes, 0)); }
    case InsensitiveLiteral(bytes) =>
      if |bytes| >= 3 { assert !AnyCase(bytes[0], bytes[1], bytes[2], has); }
    case MinOf(count, parts) =>
      forall i | 0 <= i < |parts| ensures !Compiled(parts[i], has) {
        NothingFromNothing(parts[i], has);
      }
      assert true !in CompiledParts(parts, has);
      CompiledAsParts(parts, count, has);
  }

  /** Exactly when a phrase of well-formed parts is complete: when it is itself well formed. */
  lemma CompleteIff(q: Phrase)
    requires PartsWellFormed(q)
    ensures Complete(q) <==> WellFormed(q)
  {
    if WellFormed(q) {
      forall content | Satisfies(q, content) ensures Compiled(q, TrigramsIn(content)) {
        NothingIsLost(q, content);
      }
    } else {
      var content := if q.Literal? || q.InsensitiveLiteral? then q.bytes else [];
      assert Satisfies(q, content) by {
        if q.Literal? { assert OccursAt(q.bytes, content, 0); }
        if q.InsensitiveLiteral? { assert FoldedAt(q.bytes, content, 0); }
      }
      assert forall t: nat :: |content| < 3 ==> !HasTrigram(content, t);
      NothingFromNothing(q, TrigramsIn(content));
    }
  }
}
