/**
 Phrase queries (src/query/phrases.rs): what they say about the bytes of a file, and the smart
 constructors `or`, `and` and `min_of`, which flatten, sort, drop repeats and shorten.
 */
module PhraseQuery {
  import opened Bytes
  import opened Sorting

  datatype Phrase =
    | And(parts: seq<Phrase>)
    | Or(parts: seq<Phrase>)
    | Literal(bytes: seq<byte>)
    | MinOf(count: int, parts: seq<Phrase>)
    | InsensitiveLiteral(bytes: seq<byte>)

  /** `to_ascii_lowercase` and `to_ascii_uppercase`. */
  function Lower(b: byte): byte {
    if 65 <= b <= 90 then b + 32 else b
  }

  function Upper(b: byte): byte {
    if 97 <= b <= 122 then b - 32 else b
  }

  // ---------------------------------------------------------------- meaning

  predicate OccursAt(literal: seq<byte>, content: seq<byte>, at: nat) {
    at + |literal| <= |content| && forall k :: 0 <= k < |literal| ==> content[at + k] == literal[k]
  }

  predicate FoldedAt(literal: seq<byte>, content: seq<byte>, at: nat) {
    at + |literal| <= |content| && forall k :: 0 <= k < |literal| ==> Lower(content[at + k]) == Lower(literal[k])
  }

  function CountTrue(truths: seq<bool>): nat {
    if truths == [] then 0 else CountTrue(truths[..|truths| - 1]) + if truths[|truths| - 1] then 1 else 0
  }

  /** Whether a file with these bytes satisfies the query. */
  ghost predicate Satisfies(q: Phrase, content: seq<byte>) {
    match q
    case And(parts) => forall i :: 0 <= i < |parts| ==> Satisfies(parts[i], content)
    case Or(parts) => exists i :: 0 <= i < |parts| && Satisfies(parts[i], content)
    case Literal(bytes) => exists at: nat :: OccursAt(bytes, content, at)
    case InsensitiveLiteral(bytes) => exists at: nat :: FoldedAt(bytes, content, at)
    case MinOf(count, parts) =>
      count <= CountTrue(seq(|parts|, i requires 0 <= i < |parts| => Satisfies(parts[i], content)))
  }

  ghost predicate SomeHolds(items: seq<Phrase>, content: seq<byte>) {
    exists i :: 0 <= i < |items| && Satisfies(items[i], content)
  }

  ghost predicate AllHold(items: seq<Phrase>, content: seq<byte>) {
    forall i :: 0 <= i < |items| ==> Satisfies(items[i], content)
  }

  ghost function HoldCount(items: seq<Phrase>, content: seq<byte>): nat {
    CountTrue(seq(|items|, i requires 0 <= i < |items| => Satisfies(items[i], content)))
  }

  // ---------------------------------------------------------------- counting

  lemma {:induction false} CountBounds(truths: seq<bool>)
    ensures CountTrue(truths) <= |truths|
    ensures CountTrue(truths) >= 1 <==> true in truths
    ensures CountTrue(truths) == |truths| <==> false !in truths
  {
    if truths != [] {
      var rest, last := truths[..|truths| - 1], truths[|truths| - 1];
      LastTruth(truths, rest, last);
      hide *;
      CountBounds(rest);
      InSnoc(rest, last, true);
      InSnoc(rest, last, false);
    }
  }

  ghost function TrueAt(truths: seq<bool>): set<int> {
    set i | 0 <= i < |truths| && truths[i]
  }

  /** Counting is the size of the set of places that hold. */
  lemma {:induction false} CountIsSize(truths: seq<bool>)
    ensures CountTrue(truths) == |TrueAt(truths)|
  {
    if truths == [] {
      assert TrueAt(truths) == {};
    } else {
      var n := |truths| - 1;
      CountIsSize(truths[..n]);
      assert TrueAt(truths) == TrueAt(truths[..n]) + if truths[n] then {n} else {};
    }
  }

  lemma LastTruth(truths: seq<bool>, rest: seq<bool>, last: bool)
    requires truths != [] && rest == truths[..|truths| - 1] && last == truths[|truths| - 1]
    ensures truths == rest + [last] && |rest| == |truths| - 1
    ensures CountTrue(truths) == CountTrue(rest) + if last then 1 else 0
  {
  }

  lemma InSnoc(a: seq<bool>, last: bool, x: bool)
    ensures x in a + [last] <==> x in a || x == last
  {
  }

  lemma HoldCountBounds(items: seq<Phrase>, content: seq<byte>)
    ensures HoldCount(items, content) <= |items|
    ensures HoldCount(items, content) >= 1 <==> SomeHolds(items, content)
    ensures HoldCount(items, content) == |items| <==> AllHold(items, content)
  {
    var truths := seq(|items|, i requires 0 <= i < |items| => Satisfies(items[i], content));
    CountBounds(truths);
    if SomeHolds(items, content) {
      var i :| 0 <= i < |items| && Satisfies(items[i], content);
      assert truths[i];
    }
    if true in truths {
      var i :| 0 <= i < |truths| && truths[i];
      assert Satisfies(items[i], content);
    }
    if false in truths {
      var i :| 0 <= i < |truths| && !truths[i];
      assert !Satisfies(items[i], content);
    }
    if !AllHold(items, content) {
      var i :| 0 <= i < |items| && !Satisfies(items[i], content);
      assert !truths[i];
    }
  }

  /** Counting depends on how many of each item there are, not on their order. */
  lemma {:induction false} CountPermutes(a: seq<Phrase>, b: seq<Phrase>, content: seq<byte>)
    requires multiset(a) == multiset(b)
    ensures HoldCount(a, content) == HoldCount(b, content)
    decreases |a|
  {
    SameMembers(a, b);
    if a != [] {
      var n := |a| - 1;
      assert a[n] in b;
      var j :| 0 <= j < |b| && b[j] == a[n];
      CountWithout(a, n, content);
      CountWithout(b, j, content);
      hide HoldCount;
      CountPermutes(Without(a, n), Without(b, j), content);
    }
  }

  function Without(a: seq<Phrase>, j: nat): seq<Phrase>
    requires j < |a|
  {
    a[..j] + a[j + 1..]
  }

  lemma CountWithout(a: seq<Phrase>, j: nat, content: seq<byte>)
    requires j < |a|
    ensures HoldCount(a, content)
         == HoldCount(Without(a, j), content) + if Satisfies(a[j], content) then 1 else 0
    ensures multiset(Without(a, j)) == multiset(a) - multiset{a[j]}
  {
    assert a == (a[..j] + [a[j]]) + a[j + 1..];
    CountSplit(a[..j], a[j + 1..], content);
    CountSplit(a[..j] + [a[j]], a[j + 1..], content);
    CountSnoc(a[..j] + [a[j]], content);
    assert (a[..j] + [a[j]])[..j] == a[..j];
  }

  lemma {:induction false} CountSplit(a: seq<Phrase>, b: seq<Phrase>, content: seq<byte>)
    ensures HoldCount(a + b, content) == HoldCount(a, content) + HoldCount(b, content)
    decreases |b|
  {
    if b == [] {
      assert a + b == a;
    } else {
      var n := |b| - 1;
      CountSplit(a, b[..n], content);
      assert (a + b)[..|a| + n] == a + b[..n];
      CountSnoc(a + b, content);
      CountSnoc(b, content);
    }
  }

  lemma CountSnoc(a: seq<Phrase>, content: seq<byte>)
    requires a != []
    ensures HoldCount(a, content)
         == HoldCount(a[..|a| - 1], content) + if Satisfies(a[|a| - 1], content) then 1 else 0
  {
    var n := |a| - 1;
    var truths := seq(|a|, i requires 0 <= i < |a| => Satisfies(a[i], content));
    assert truths[..n] == seq(n, i requires 0 <= i < n => Satisfies(a[..n][i], content));
  }

  // ---------------------------------------------------------------- smart constructors

  /** Items that sort and drop of repeats leaves mean the same under `or` and `and`. */
  lemma SortDedupHolds(items: seq<Phrase>, leq: (Phrase, Phrase) -> bool, content: seq<byte>)
    ensures SomeHolds(SortDedup(items, leq), content) <==> SomeHolds(items, content)
    ensures AllHold(SortDedup(items, leq), content) <==> AllHold(items, content)
  {
    var s := SortDedup(items, leq);
    SortDedupMembers(items, leq);
    SameHolds(s, items, content);
    SameHolds(items, s, content);
  }

  lemma SameHolds(a: seq<Phrase>, b: seq<Phrase>, content: seq<byte>)
    requires forall x :: x in a ==> x in b
    ensures SomeHolds(a, content) ==> SomeHolds(b, content)
    ensures AllHold(b, content) ==> AllHold(a, content)
  {
    forall i | 0 <= i < |a| ensures exists j :: 0 <= j < |b| && b[j] == a[i] {
      assert a[i] in b;
    }
  }

  lemma HoldsSplit(a: seq<Phrase>, b: seq<Phrase>, content: seq<byte>)
    ensures SomeHolds(a + b, content) <==> SomeHolds(a, content) || SomeHolds(b, content)
    ensures AllHold(a + b, content) <==> AllHold(a, content) && AllHold(b, content)
  {
    if SomeHolds(a, content) {
      var i :| 0 <= i < |a| && Satisfies(a[i], content);
      assert (a + b)[i] == a[i];
    }
    if SomeHolds(b, content) {
      var i :| 0 <= i < |b| && Satisfies(b[i], content);
      assert (a + b)[|a| + i] == b[i];
    }
    if AllHold(a + b, content) {
      forall i | 0 <= i < |a| ensures Satisfies(a[i], content) { assert (a + b)[i] == a[i]; }
      forall i | 0 <= i < |b| ensures Satisfies(b[i], content) { assert (a + b)[|a| + i] == b[i]; }
    }
  }

  lemma HoldsOne(x: Phrase, content: seq<byte>)
    ensures SomeHolds([x], content) <==> Satisfies(x, content)
    ensures AllHold([x], content) <==> Satisfies(x, content)
  {
    assert [x][0] == x;
  }

  /** `PhraseQuery::or`: nothing is made of nothing, otherwise the disjunction of the items. */
  method MakeOr(items: seq<Phrase>, leq: (Phrase, Phrase) -> bool) returns (made: Option<Phrase>)
    ensures made.Some? ==> forall content :: Satisfies(made.value, content) <==> SomeHolds(items, content)
    ensures made.None? <==> forall i :: 0 <= i < |items| ==> items[i] == Or([])
  {
    var produced := [];
    var i := 0;
    while i < |items|
      invariant i <= |items|
      invariant forall content :: SomeHolds(produced, content) <==> SomeHolds(items[..i], content)
      invariant produced == [] <==> forall j :: 0 <= j < i ==> items[j] == Or([])
    {
      var item := items[i];
      var parts := if item.Or? then item.parts else [item];
      forall content
        ensures SomeHolds(produced + parts, content) <==> SomeHolds(items[..i + 1], content)
      {
        HoldsSplit(produced, parts, content);
        HoldsSplit(items[..i], [item], content);
        HoldsOne(item, content);
        assert items[..i + 1] == items[..i] + [item];
      }
      produced := produced + parts;
      i := i + 1;
    }
    assert items[..i] == items;
    SortDedupMembers(produced, leq);
    forall content ensures SomeHolds(SortDedup(produced, leq), content) <==> SomeHolds(items, content) {
      SortDedupHolds(produced, leq, content);
    }
    produced := SortDedup(produced, leq);
    if |produced| <= 1 {
      if produced == [] { return None; }
      forall content ensures SomeHolds(produced, content) <==> Satisfies(produced[0], content) {
        HoldsOne(produced[0], content);
      }
      return Some(produced[0]);
    }
    made := Some(Or(produced));
  }

  /** `PhraseQuery::and`: nothing is made of nothing, otherwise the conjunction of the items. */
  method MakeAnd(items: seq<Phrase>, leq: (Phrase, Phrase) -> bool) returns (made: Option<Phrase>)
    ensures made.Some? ==> forall content :: Satisfies(made.value, content) <==> AllHold(items, content)
    ensures made.None? <==> forall i :: 0 <= i < |items| ==> items[i] == And([])
  {
    var produced := [];
    var i := 0;
    while i < |items|
      invariant i <= |items|
      invariant forall content :: AllHold(produced, content) <==> AllHold(items[..i], content)
      invariant produced == [] <==> forall j :: 0 <= j < i ==> items[j] == And([])
    {
      var item := items[i];
      var parts := if item.And? then item.parts else [item];
      forall content
        ensures AllHold(produced + parts, content) <==> AllHold(items[..i + 1], content)
      {
        HoldsSplit(produced, parts, content);
        HoldsSplit(items[..i], [item], content);
        HoldsOne(item, content);
        assert items[..i + 1] == items[..i] + [item];
      }
      produced := produced + parts;
      i := i + 1;
    }
    assert items[..i] == items;
    SortDedupMembers(produced, leq);
    forall content ensures AllHold(SortDedup(produced, leq), content) <==> AllHold(items, content) {
      SortDedupHolds(produced, leq, content);
    }
    produced := SortDedup(produced, leq);
    if |produced| <= 1 {
      if produced == [] { return None; }
      forall content ensures AllHold(produced, content) <==> Satisfies(produced[0], content) {
        HoldsOne(produced[0], content);
      }
      return Some(produced[0]);
    }
    made := Some(And(produced));
  }

  /** `PhraseQuery::min_of`: at least `count` of the items, shortened to `or` and `and` where they say the same. */
  method MakeMinOf(count: int, items: seq<Phrase>, leq: (Phrase, Phrase) -> bool) returns (made: Option<Phrase>)
    ensures made.Some? ==> forall content :: Satisfies(made.value, content) <==> count <= HoldCount(items, content)
    ensures made.None? <==>
              || (count == 1 && forall i :: 0 <= i < |items| ==> items[i] == Or([]))
              || (count == |items| != 1 && forall i :: 0 <= i < |items| ==> items[i] == And([]))
  {
    forall content
      ensures HoldCount(items, content) <= |items|
      ensures HoldCount(items, content) >= 1 <==> SomeHolds(items, content)
      ensures HoldCount(items, content) == |items| <==> AllHold(items, content)
    {
      HoldCountBounds(items, content);
    }
    hide Satisfies; hide HoldCount; hide SomeHolds; hide AllHold;
    if count == 1 {
      made := MakeOr(items, leq);
      return;
    } else if count == |items| {
      made := MakeAnd(items, leq);
      return;
    }
    made := Some(MinOf(count, Sort(items, leq)));
    forall content ensures Satisfies(made.value, content) <==> count <= HoldCount(items, content) {
      SortMembers(items, leq);
      CountPermutes(items, Sort(items, leq), content);
      MinOfHolds(count, Sort(items, leq), content);
    }
  }

  lemma MinOfHolds(count: int, parts: seq<Phrase>, content: seq<byte>)
    ensures Satisfies(MinOf(count, parts), content) <==> count <= HoldCount(parts, content)
  {
    assert seq(|parts|, i requires 0 <= i < |parts| => Satisfies(parts[i], content))
        == seq(|parts|, i requires 0 <= i < |MinOf(count, parts).parts| =>
                 Satisfies(MinOf(count, parts).parts[i], content));
  }

  // ---------------------------------------------------------------- ignoring case

  /** `make_case_insensitive`. */
  function IgnoreCase(q: Phrase): Phrase {
    match q
    case And(parts) => And(seq(|parts|, i requires 0 <= i < |parts| => IgnoreCase(parts[i])))
    case Or(parts) => Or(seq(|parts|, i requires 0 <= i < |parts| => IgnoreCase(parts[i])))
    case Literal(bytes) => InsensitiveLiteral(bytes)
    case MinOf(count, parts) => MinOf(count, seq(|parts|, i requires 0 <= i < |parts| => IgnoreCase(parts[i])))
    case InsensitiveLiteral(bytes) => q
  }

  /** Ignoring case never loses a file. */
  lemma {:induction false} IgnoreCaseWidens(q: Phrase, content: seq<byte>)
    requires Satisfies(q, content)
    ensures Satisfies(IgnoreCase(q), content)
  {
    match q
    case And(parts) =>
      forall i | 0 <= i < |parts| ensures Satisfies(IgnoreCase(parts[i]), content) {
        IgnoreCaseWidens(parts[i], content);
      }
    case Or(parts) =>
      var i :| 0 <= i < |parts| && Satisfies(parts[i], content);
      IgnoreCaseWidens(parts[i], content);
      assert IgnoreCase(q).parts[i] == IgnoreCase(parts[i]);
    case Literal(bytes) =>
      var at: nat :| OccursAt(bytes, content, at);
      assert FoldedAt(bytes, content, at);
    case MinOf(count, parts) =>
      var before := seq(|parts|, i requires 0 <= i < |parts| => Satisfies(parts[i], content));
      var wide := IgnoreCase(q).parts;
      var after := seq(|wide|, i requires 0 <= i < |wide| => Satisfies(wide[i], content));
      forall i | 0 <= i < |parts| ensures before[i] ==> after[i] {
        if before[i] { IgnoreCaseWidens(parts[i], content); }
      }
      CountGrows(before, after);
    case InsensitiveLiteral(bytes) =>
  }

  function LowerAll(bytes: seq<byte>): (r: seq<byte>)
    ensures |r| == |bytes| && forall i :: 0 <= i < |bytes| ==> r[i] == Lower(bytes[i])
  {
    seq(|bytes|, i requires 0 <= i < |bytes| => Lower(bytes[i]))
  }

  /** The phrase with every literal in lower case. */
  function LowerLiterals(q: Phrase): Phrase {
    match q
    case And(parts) => And(seq(|parts|, i requires 0 <= i < |parts| => LowerLiterals(parts[i])))
    case Or(parts) => Or(seq(|parts|, i requires 0 <= i < |parts| => LowerLiterals(parts[i])))
    case Literal(bytes) => Literal(LowerAll(bytes))
    case MinOf(count, parts) => MinOf(count, seq(|parts|, i requires 0 <= i < |parts| => LowerLiterals(parts[i])))
    case InsensitiveLiteral(bytes) => InsensitiveLiteral(LowerAll(bytes))
  }

  /** Two bytes have the same lower case exactly when they are equal or the two cases of one letter. */
  lemma SameLetter(a: byte, b: byte)
    ensures Lower(a) == Lower(b) <==> a == b || TwoCases(a, b) || TwoCases(b, a)
  {
  }

  predicate TwoCases(upper: byte, lower: byte) {
    'A' as int <= upper as int <= 'Z' as int && lower as int - upper as int == 'a' as int - 'A' as int
  }

  /** The spellings of a byte that the compiler tries are all that differ from it in case only. */
  lemma Spellings(a: byte, x: byte)
    ensures x in [Lower(a), Upper(a)] <==> Lower(x) == Lower(a)
  {
  }

  lemma LowerStays(a: byte)
    ensures Lower(Lower(a)) == Lower(a)
  {
  }

  lemma FoldedLowers(literal: seq<byte>, content: seq<byte>, at: nat)
    ensures FoldedAt(literal, content, at) <==> OccursAt(LowerAll(literal), LowerAll(content), at)
    ensures FoldedAt(literal, content, at) <==> FoldedAt(LowerAll(literal), LowerAll(content), at)
  {
  }

  /** Items that hold alike, each of its own content, are counted alike. */
  lemma HoldAlike(a: seq<Phrase>, b: seq<Phrase>, c: seq<byte>, d: seq<byte>)
    requires |a| == |b| && forall i :: 0 <= i < |a| ==> (Satisfies(a[i], c) <==> Satisfies(b[i], d))
    ensures SomeHolds(a, c) <==> SomeHolds(b, d)
    ensures AllHold(a, c) <==> AllHold(b, d)
    ensures HoldCount(a, c) == HoldCount(b, d)
  {
    assert seq(|a|, i requires 0 <= i < |a| => Satisfies(a[i], c))
        == seq(|b|, i requires 0 <= i < |b| => Satisfies(b[i], d));
  }

  lemma FoldedAlike(literal: seq<byte>, content: seq<byte>)
    ensures Satisfies(InsensitiveLiteral(literal), content)
       <==> Satisfies(Literal(LowerAll(literal)), LowerAll(content))
    ensures Satisfies(InsensitiveLiteral(literal), content)
       <==> Satisfies(InsensitiveLiteral(LowerAll(literal)), LowerAll(content))
  {
    forall at: nat
      ensures FoldedAt(literal, content, at) <==> OccursAt(LowerAll(literal), LowerAll(content), at)
      ensures FoldedAt(literal, content, at) <==> FoldedAt(LowerAll(literal), LowerAll(content), at)
    {
      FoldedLowers(literal, content, at);
    }
    hide FoldedAt; hide OccursAt; hide LowerAll;
  }

  /**
   Ignoring case widens a phrase to exactly this: with its literals in lower case it holds of the
   content in lower case.
   */
  lemma {:induction false} IgnoreCaseExactly(q: Phrase, content: seq<byte>)
    ensures Satisfies(IgnoreCase(q), content) <==> Satisfies(LowerLiterals(q), LowerAll(content))
  {
    match q
    case Literal(bytes) => FoldedAlike(bytes, content);
    case InsensitiveLiteral(bytes) => FoldedAlike(bytes, content);
    case And(parts) =>
      IgnoredParts(parts, content);
      HoldAlike(IgnoreCase(q).parts, LowerLiterals(q).parts, content, LowerAll(content));
    case Or(parts) =>
      IgnoredParts(parts, content);
      HoldAlike(IgnoreCase(q).parts, LowerLiterals(q).parts, content, LowerAll(content));
    case MinOf(count, parts) =>
      IgnoredParts(parts, content);
      HoldAlike(IgnoreCase(q).parts, LowerLiterals(q).parts, content, LowerAll(content));
      MinOfHolds(count, IgnoreCase(q).parts, content);
      MinOfHolds(count, LowerLiterals(q).parts, LowerAll(content));
  }

  lemma {:induction false} IgnoredParts(parts: seq<Phrase>, content: seq<byte>)
    ensures forall i :: 0 <= i < |parts| ==>
              (Satisfies(IgnoreCase(parts[i]), content) <==> Satisfies(LowerLiterals(parts[i]), LowerAll(content)))
  {
    forall i | 0 <= i < |parts|
      ensures Satisfies(IgnoreCase(parts[i]), content) <==> Satisfies(LowerLiterals(parts[i]), LowerAll(content))
    {
      IgnoreCaseExactly(parts[i], content);
    }
  }

  /** A phrase that ignores case holds of all contents alike that differ in case only. */
  lemma CaseDoesNotMatter(q: Phrase, c: seq<byte>, d: seq<byte>)
    requires |c| == |d| && forall i :: 0 <= i < |c| ==> Lower(c[i]) == Lower(d[i])
    ensures Satisfies(IgnoreCase(q), c) <==> Satisfies(IgnoreCase(q), d)
  {
    IgnoreCaseExactly(q, c);
    IgnoreCaseExactly(q, d);
    assert LowerAll(c) == LowerAll(d);
  }

  lemma {:induction false} CountGrows(a: seq<bool>, b: seq<bool>)
    requires |a| == |b| && forall i :: 0 <= i < |a| && a[i] ==> b[i]
    ensures CountTrue(a) <= CountTrue(b)
  {
    if a != [] {
      CountGrows(a[..|a| - 1], b[..|b| - 1]);
    }
  }
}
