/**
 `factor` and `simplify` as they loop over their vectors (src/access.rs), each against its
 specification in `AccessSimplify`.
 */
module AccessFactor {
  import opened Bytes
  import opened Sorting
  import opened Access
  import opened AccessSimplify

  function SetOf(items: seq<Access>): set<Access> {
    set x | x in items
  }

  ghost function OpsOf(operands: seq<set<Access>>): set<set<Access>> {
    set op | op in operands
  }

  method IntoAndList(items: seq<Access>) returns (r: Access)
    requires items != []
    ensures r == IntoAnd(SetOf(items))
  {
    ListedUnique(items, SetOf(items));
    var sorted := SortDedup(items, Leq);
    r := if |sorted| == 1 then sorted[0] else And(sorted);
  }

  method IntoOrList(items: seq<Access>) returns (r: Access)
    requires items != []
    ensures r == IntoOr(SetOf(items))
  {
    ListedUnique(items, SetOf(items));
    var sorted := SortDedup(items, Leq);
    r := if |sorted| == 1 then sorted[0] else Or(sorted);
  }

  /** The members of a set, in no particular order. */
  method Drain(s: set<Access>) returns (items: seq<Access>)
    ensures SetOf(items) == s && |items| == |s|
  {
    items := [];
    var left := s;
    while left != {}
      invariant left <= s && SetOf(items) == s - left && |items| + |left| == |s|
      decreases |left|
    {
      var x :| x in left;
      SetSnoc(items, x);
      left := left - {x};
      items := items + [x];
    }
  }

  lemma SetSnoc(items: seq<Access>, x: Access)
    ensures SetOf(items + [x]) == SetOf(items) + {x}
  {
    assert (items + [x])[|items|] == x;
  }

  /** The order of vectors of expressions. */
  predicate ListLeq(a: seq<Access>, b: seq<Access>) {
    CompareLists(a, b) <= 0
  }

  /** Whether `lists` holds exactly the sorted lists of `rests`. */
  ghost predicate Lists(lists: seq<seq<Access>>, rests: set<set<Access>>) {
    && (forall x :: x in lists ==> SetOf(x) in rests && x == Listed(SetOf(x)))
    && (forall r :: r in rests ==> Listed(r) in lists)
  }

  lemma ListedSet(s: set<Access>)
    ensures SetOf(Listed(s)) == s
  {
  }

  /** The intersection of the operands. */
  method Intersect(items: seq<set<Access>>) returns (common: set<Access>)
    requires items != []
    ensures common == Common(OpsOf(items))
  {
    common := items[0];
    for i := 1 to |items|
      invariant forall x :: x in common <==> forall k :: 0 <= k < i ==> x in items[k]
    {
      common := common * items[i];
    }
    CommonOf(items, common);
  }

  /** What is left of the first operands without the common terms. */
  ghost function Left(items: seq<set<Access>>, common: set<Access>): set<set<Access>> {
    set k | 0 <= k < |items| && items[k] - common != {} :: items[k] - common
  }

  ghost predicate SomeEmpty(items: seq<set<Access>>, common: set<Access>) {
    exists k :: 0 <= k < |items| && items[k] - common == {}
  }

  lemma LeftSnoc(items: seq<set<Access>>, op: set<Access>, common: set<Access>)
    ensures Left(items + [op], common) ==
              if op - common == {} then Left(items, common) else Left(items, common) + {op - common}
    ensures SomeEmpty(items + [op], common) <==> SomeEmpty(items, common) || op - common == {}
  {
    var all := items + [op];
    assert all[|items|] == op;
    forall r | r in Left(items, common) ensures r in Left(all, common) {
      var k :| 0 <= k < |items| && items[k] - common != {} && items[k] - common == r;
      assert all[k] == items[k];
    }
    if op - common != {} {
      assert all[|items|] - common in Left(all, common);
    }
    if k :| 0 <= k < |items| && items[k] - common == {} {
      assert all[k] - common == {};
    }
  }

  lemma LeftIsRests(items: seq<set<Access>>)
    ensures Left(items, Common(OpsOf(items))) == Rests(OpsOf(items))
    ensures SomeEmpty(items, Common(OpsOf(items))) <==> FallsThrough(OpsOf(items))
  {
    var ops, c := OpsOf(items), Common(OpsOf(items));
    forall r ensures r in Left(items, c) <==> r in Rests(ops) {
      if r in Rests(ops) {
        var op :| op in ops && op - c != {} && op - c == r;
        var k :| 0 <= k < |items| && items[k] == op;
        assert items[k] - c in Left(items, c);
      }
      if r in Left(items, c) {
        var k :| 0 <= k < |items| && items[k] - c != {} && items[k] - c == r;
        assert items[k] in ops;
      }
    }
  }

  lemma ListsSnoc(lists: seq<seq<Access>>, rests: set<set<Access>>, r: set<Access>)
    requires Lists(lists, rests)
    ensures Lists(lists + [Listed(r)], rests + {r})
  {
    ListedSet(r);
    assert (lists + [Listed(r)])[|lists|] == Listed(r);
    forall x | x in rests + {r} ensures Listed(x) in lists + [Listed(r)] {
      if x != r { assert Listed(x) in lists; }
    }
  }

  /** The sorted remainder of each operand, and whether some operand had none. */
  method Remainders(items: seq<set<Access>>, common: set<Access>)
    returns (unfactored: seq<seq<Access>>, fallthrough: bool)
    ensures Lists(unfactored, Left(items, common))
    ensures fallthrough <==> SomeEmpty(items, common)
  {
    unfactored, fallthrough := [], false;
    for i := 0 to |items|
      invariant fallthrough <==> SomeEmpty(items[..i], common)
      invariant Lists(unfactored, Left(items[..i], common))
    {
      LeftSnoc(items[..i], items[i], common);
      assert items[..i + 1] == items[..i] + [items[i]];
      ghost var rest := items[i] - common;
      ListsSnoc(unfactored, Left(items[..i], common), rest);
      ListedSet(rest);
      hide Left; hide SomeEmpty; hide Lists;
      var x := Drain(items[i] - common);
      ListedUnique(x, rest);
      x := SortDedup(x, Leq);
      if x != [] {
        unfactored := unfactored + [x];
      } else {
        fallthrough := true;
      }
    }
    assert items[..|items|] == items;
  }

  /** `factor`: the common terms, the sorted remainders without repeats, and whether some operand had none. */
  method Factor(items: seq<set<Access>>) returns (common: set<Access>, unfactored: seq<seq<Access>>, fallthrough: bool)
    requires items != []
    ensures common == Common(OpsOf(items))
    ensures Lists(unfactored, Rests(OpsOf(items)))
    ensures forall i, j :: 0 <= i < j < |unfactored| ==> unfactored[i] != unfactored[j]
    ensures fallthrough <==> FallsThrough(OpsOf(items))
  {
    common := Intersect(items);
    unfactored, fallthrough := Remainders(items, common);
    LeftIsRests(items);
    SortDedupMembers(unfactored, ListLeq);
    ListLeqTotal();
    SortDedupAscending(unfactored, ListLeq);
    hide Common; hide Rests; hide Left; hide FallsThrough; hide SomeEmpty; hide SortDedup; hide Listed;
    unfactored := SortDedup(unfactored, ListLeq);
  }

  lemma ListLeqTotal()
    ensures TotalOrder(ListLeq)
  {
    forall a, b, c
      ensures ListLeq(a, b) || ListLeq(b, a)
      ensures ListLeq(a, b) && ListLeq(b, a) ==> a == b
      ensures ListLeq(a, b) && ListLeq(b, c) ==> ListLeq(a, c)
    {
      ListOrder(a, b, c);
    }
  }

  lemma CommonOf(items: seq<set<Access>>, common: set<Access>)
    requires items != [] && forall x :: x in common <==> forall k :: 0 <= k < |items| ==> x in items[k]
    ensures common == Common(OpsOf(items))
  {
    var ops := OpsOf(items);
    assert items[0] in ops;
    forall x ensures x in common <==> x in Common(ops) {
      if x in Common(ops) {
        forall k | 0 <= k < |items| ensures x in items[k] {
          assert items[k] in ops;
        }
      }
    }
  }

  // ---------------------------------------------------------------- flattening

  function Size(a: Access): nat
    decreases a, 0
  {
    if a.Or? || a.And? then 1 + Sizes(a.items) else 1
  }

  function Sizes(items: seq<Access>): nat
    decreases items, 1
  {
    if items == [] then 0 else Size(items[0]) + Sizes(items[1..])
  }

  lemma {:induction false} SizesConcat(a: seq<Access>, b: seq<Access>)
    ensures Sizes(a + b) == Sizes(a) + Sizes(b)
  {
    if a == [] {
      assert a + b == b;
    } else {
      SizesConcat(a[1..], b);
      assert (a + b)[1..] == a[1..] + b;
    }
  }

  lemma AllClausesConcat(a: seq<Access>, b: seq<Access>, under: Access)
    requires under.Or? || under.And?
    ensures AllClauses(a + b, under) == AllClauses(a, under) + AllClauses(b, under)
  {
    forall c ensures c in AllClauses(a + b, under) <==> c in AllClauses(a, under) || c in AllClauses(b, under) {
      if c in AllClauses(a, under) {
        var i :| 0 <= i < |a| && c in Clauses(a[i], under);
        assert (a + b)[i] == a[i];
      }
      if c in AllClauses(b, under) {
        var i :| 0 <= i < |b| && c in Clauses(b[i], under);
        assert (a + b)[|a| + i] == b[i];
      }
    }
  }

  lemma AllClausesOne(a: Access, under: Access)
    requires under.Or? || under.And?
    ensures AllClauses([a], under) == Clauses(a, under)
    ensures (a.Or? && under.Or?) || (a.And? && under.And?) ==> Clauses(a, under) == AllClauses(a.items, under)
    ensures (a.Or? && under.And?) || (a.And? && under.Or?) ==> Clauses(a, under) == {SetOf(a.items)}
  {
    assert [a][0] == a;
  }

  ghost predicate Meets(items: seq<Access>) {
    exists i :: 0 <= i < |items| && MeetsAlways(items[i])
  }

  lemma MeetsConcat(a: seq<Access>, b: seq<Access>)
    ensures Meets(a + b) <==> Meets(a) || Meets(b)
    ensures forall x :: Meets([x]) <==> MeetsAlways(x)
  {
    if Meets(a) {
      var i :| 0 <= i < |a| && MeetsAlways(a[i]);
      assert (a + b)[i] == a[i];
    }
    if Meets(b) {
      var i :| 0 <= i < |b| && MeetsAlways(b[i]);
      assert (a + b)[|a| + i] == b[i];
    }
    forall x ensures Meets([x]) <==> MeetsAlways(x) {
      assert [x][0] == x;
    }
  }

  /**
   The loop that takes `Or`s (or, for a conjunction, `And`s) apart: the operands found are those of
   the specification; under `Or` it stops at an `Always`.
   */
  method Flatten(items: seq<Access>, disjunction: bool) returns (operands: seq<set<Access>>, always: bool)
    ensures always <==> disjunction && Meets(items)
    ensures !always ==> OpsOf(operands) == AllClauses(items, if disjunction then Or([]) else And([]))
  {
    ghost var under := if disjunction then Or([]) else And([]);
    operands, always := [], false;
    var stack := items;
    while stack != []
      invariant OpsOf(operands) + AllClauses(stack, under) == AllClauses(items, under)
      invariant disjunction ==> (Meets(stack) <==> Meets(items))
      decreases Sizes(stack)
    {
      var n := |stack| - 1;
      var item := stack[n];
      PopOne(stack, under);
      MeetsConcat(stack[..n], [item]);
      hide AllClauses; hide Meets; hide Sizes;
      stack := stack[..n];
      if item.Always? {
        if disjunction { return operands, true; }
      } else if item.Or? == disjunction && !item.Token? {
        MeetsConcat(stack, item.items);
        AllClausesConcat(stack, item.items, under);
        SizesConcat(stack, item.items);
        stack := stack + item.items;
      } else {
        var op := if item.Token? then {item} else SetOf(item.items);
        OpsSnoc(operands, op);
        operands := operands + [op];
      }
    }
    assert AllClauses([], under) == {};
  }

  lemma OpsSnoc(operands: seq<set<Access>>, op: set<Access>)
    ensures OpsOf(operands + [op]) == OpsOf(operands) + {op}
  {
    assert (operands + [op])[|operands|] == op;
  }

  lemma PopOne(stack: seq<Access>, under: Access)
    requires stack != [] && (under.Or? || under.And?)
    ensures var item, rest := stack[|stack| - 1], stack[..|stack| - 1];
            && stack == rest + [item]
            && AllClauses(stack, under) == AllClauses(rest, under) + Clauses(item, under)
            && Sizes(stack) == Sizes(rest) + Size(item)
  {
    var item, rest := stack[|stack| - 1], stack[..|stack| - 1];
    assert stack == rest + [item];
    AllClausesConcat(rest, [item], under);
    AllClausesOne(item, under);
    SizesConcat(rest, [item]);
    assert Sizes([item]) == Size(item) + Sizes([]);
  }

  // ---------------------------------------------------------------- simplify

  method MapInto(lists: seq<seq<Access>>, ghost rests: set<set<Access>>, conjunctions: bool)
    returns (mapped: seq<Access>)
    requires Lists(lists, rests) && forall r :: r in rests ==> r != {}
    ensures |mapped| == |lists| && SetOf(mapped) == if conjunctions then Ands(rests) else Ors(rests)
  {
    mapped := [];
    for i := 0 to |lists|
      invariant |mapped| == i
      invariant forall k :: 0 <= k < i ==>
                  mapped[k] == if conjunctions then IntoAnd(SetOf(lists[k])) else IntoOr(SetOf(lists[k]))
    {
      ListsNonEmpty(lists, rests, i);
      var one: Access;
      if conjunctions { one := IntoAndList(lists[i]); } else { one := IntoOrList(lists[i]); }
      mapped := mapped + [one];
    }
    ImagesOf(lists, rests, mapped, conjunctions);
  }

  lemma ListsNonEmpty(lists: seq<seq<Access>>, rests: set<set<Access>>, i: nat)
    requires Lists(lists, rests) && i < |lists| && forall r :: r in rests ==> r != {}
    ensures lists[i] != []
  {
    assert lists[i] in lists;
  }

  lemma ImagesOf(lists: seq<seq<Access>>, rests: set<set<Access>>, mapped: seq<Access>, conjunctions: bool)
    requires Lists(lists, rests) && |mapped| == |lists|
    requires forall k :: 0 <= k < |lists| ==>
               mapped[k] == if conjunctions then IntoAnd(SetOf(lists[k])) else IntoOr(SetOf(lists[k]))
    ensures SetOf(mapped) == if conjunctions then Ands(rests) else Ors(rests)
  {
    forall k | 0 <= k < |mapped| ensures mapped[k] in if conjunctions then Ands(rests) else Ors(rests) {
      assert lists[k] in lists;
      OneImage(rests, SetOf(lists[k]));
    }
    forall r | r in rests
      ensures conjunctions ==> IntoAnd(r) in SetOf(mapped)
      ensures !conjunctions ==> IntoOr(r) in SetOf(mapped)
    {
      assert Listed(r) in lists;
      var k :| 0 <= k < |lists| && lists[k] == Listed(r);
      ListedSet(r);
      assert mapped[k] in mapped;
    }
    forall x | x in if conjunctions then Ands(rests) else Ors(rests) ensures x in SetOf(mapped) {
      if conjunctions { var r := FromAnds(rests, x); } else { var r := FromOrs(rests, x); }
    }
  }

  lemma OneRest(lists: seq<seq<Access>>, ops: set<set<Access>>)
    requires Lists(lists, Rests(ops)) && ops != {}
    ensures |lists| == 0 <==> Rests(ops) == {}
    ensures |lists| == 1 ==> FallsThrough(ops)
    ensures |lists| == 0 ==> FallsThrough(ops)
    ensures forall r :: r in Rests(ops) ==> r != {}
  {
    forall r | r in Rests(ops) ensures r != {} && Listed(r) in lists {
      EmptyRest(ops, r);
    }
    if lists != [] {
      assert lists[0] in lists;
    }
    if |lists| == 1 {
      forall r | r in Rests(ops) ensures r == SetOf(lists[0]) {
        ListedSet(r);
      }
      assert Rests(ops) == {SetOf(lists[0])};
      NeverOneRest(ops, SetOf(lists[0]));
    }
    if |lists| == 0 {
      var op :| op in ops;
      CommonBelow(ops, op);
    }
  }

  /** The `Or` side of `simplify` once the operands are collected. */
  method FactorOrList(operands: seq<set<Access>>) returns (r: Access)
    requires operands != [] && (FallsThrough(OpsOf(operands)) ==> Common(OpsOf(operands)) != {})
    ensures r == FactoredOr(OpsOf(operands))
  {
    ghost var ops := OpsOf(operands);
    assert ops != {} by { assert operands[0] in ops; }
    var common, unfactored, fallthrough := Factor(operands);
    OneRest(unfactored, ops);
    FactoredCases(ops);
    hide *;
    var list := Drain(common);
    DrainedNonEmpty(list);
    if fallthrough {
      r := IntoAndList(list);
      return;
    }
    var mapped := MapInto(unfactored, Rests(ops), true);
    if common == {} {
      r := IntoOrList(mapped);
      return;
    }
    r := IntoAndList(list);
    if mapped != [] {
      // A sole remainder would be joined with `|`; `OneRest` shows that there never is one here.
      var rest := IntoOrList(mapped);
      if |mapped| == 1 {
        r := JoinOr(rest, r);
      } else {
        r := JoinAnd(rest, r);
      }
    }
  }

  lemma DrainedNonEmpty(list: seq<Access>)
    ensures SetOf(list) == {} <==> list == []
  {
    if list != [] { assert list[0] in SetOf(list); }
  }

  /** The `And` side of `simplify` once the operands are collected. */
  method FactorAndList(operands: seq<set<Access>>) returns (r: Access)
    requires operands != [] && (Common(OpsOf(operands)) == {} ==> Rests(OpsOf(operands)) != {})
    ensures r == FactoredAnd(OpsOf(operands))
  {
    ghost var ops := OpsOf(operands);
    assert ops != {} by { assert operands[0] in ops; }
    var common, unfactored, _ := Factor(operands);
    OneRest(unfactored, ops);
    FactoredCases(ops);
    hide *;
    var mapped := MapInto(unfactored, Rests(ops), false);
    if common == {} {
      r := IntoAndList(mapped);
      return;
    }
    var list := Drain(common);
    DrainedNonEmpty(list);
    r := IntoOrList(list);
    if |mapped| == 1 {
      SoleAnd(mapped);
      r := JoinAnd(mapped[0], r);
    } else if |mapped| > 1 {
      var rest := IntoAndList(mapped);
      r := JoinAnd(rest, r);
    }
  }

  lemma SoleAnd(mapped: seq<Access>)
    requires |mapped| == 1
    ensures IntoAnd(SetOf(mapped)) == mapped[0]
  {
    ListedUnique(mapped, SetOf(mapped));
    assert Sort(mapped, Leq) == mapped;
  }

  method SimplifyAll(items: seq<Access>) returns (parts: seq<Access>)
    requires forall i :: 0 <= i < |items| ==> !Panics(items[i])
    ensures forall i :: 0 <= i < |items| ==> Simplified(items[i]).Some?
    ensures parts == Parts(items)
    decreases items
  {
    hide Simplified; hide Panics; hide Grants; hide NoEmptyOr; hide NothingShared;
    parts := [];
    for i := 0 to |items|
      invariant |parts| == i
      invariant forall k :: 0 <= k < i ==> Simplified(items[k]) == Some(parts[k])
    {
      var part := Simplify(items[i]);
      parts := parts + [part];
    }
  }

  lemma SimplifyMeans(a: Access)
    requires !Panics(a) && Simplified(a).Some?
    ensures NoEmptyOr(a) ==> forall view :: Grants(Simplified(a).value, view) ==> Grants(a, view)
    ensures NoEmptyOr(a) && NothingShared(a) ==> forall view :: Grants(Simplified(a).value, view) <==> Grants(a, view)
  {
    forall view | NoEmptyOr(a)
      ensures Grants(Simplified(a).value, view) ==> Grants(a, view)
      ensures NothingShared(a) && Grants(a, view) ==> Grants(Simplified(a).value, view)
    {
      SimplifyNarrows(a, view);
    }
  }

  /**
   `simplify`.  On an expression without an empty `Or` the result lets through nobody whom the
   expression denies, and exactly the same viewers where no conjunction narrows.
   */
  method Simplify(a: Access) returns (r: Access)
    requires !Panics(a)
    ensures Simplified(a) == Some(r)
    ensures NoEmptyOr(a) ==> forall view :: Grants(r, view) ==> Grants(a, view)
    ensures NoEmptyOr(a) && NothingShared(a) ==> forall view :: Grants(r, view) <==> Grants(a, view)
    decreases a
  {
    SimplifiedShape(a);
    SimplifyMeans(a);
    hide Grants; hide NoEmptyOr; hide NothingShared; hide FactoredOr; hide FactoredAnd; hide AllClauses; hide Common;
    hide Rests;
    match a
    case Or(items) =>
      var parts := SimplifyAll(items);
      if items == [] { return Always; }
      SimplifiedCases(items);
      PartsSimplified(items);
      OpsShape(parts, Or([]));
      ProperAllClauses(parts, Or([]));
      var operands, always := Flatten(parts, true);
      if always { return Always; }
      ProperParts(OpsOf(operands));
      r := FactorOrList(operands);
    case And(items) =>
      var parts := SimplifyAll(items);
      if items == [] { return Always; }
      SimplifiedCases(items);
      PartsSimplified(items);
      OpsShape(parts, And([]));
      ProperAllClauses(parts, And([]));
      var operands, _ := Flatten(parts, false);
      ProperParts(OpsOf(operands));
      r := FactorAndList(operands);
    case Token(_) => r := a;
    case Always => r := a;
  }
}
