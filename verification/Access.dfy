/**
 Access control expressions (src/access.rs): whom they let through, the order in which lists of
 them are sorted, and how two of them are joined.
 */
module Access {
  import opened Sorting

  datatype Access = Or(items: seq<Access>) | And(items: seq<Access>) | Token(name: string) | Always

  /** `can_access`: whether a viewer with these tokens is let through. */
  predicate Grants(a: Access, view: set<string>) {
    match a
    case Or(items) => exists i :: 0 <= i < |items| && Grants(items[i], view)
    case And(items) => forall i :: 0 <= i < |items| ==> Grants(items[i], view)
    case Token(name) => name in view
    case Always => true
  }

  /** The loops of `can_access`, which stop at the first part that decides. */
  method CanAccess(a: Access, view: set<string>) returns (granted: bool)
    ensures granted == Grants(a, view)
    decreases a
  {
    match a
    case Or(sub) =>
      for i := 0 to |sub|
        invariant forall k :: 0 <= k < i ==> !Grants(sub[k], view)
      {
        var one := CanAccess(sub[i], view);
        if one { return true; }
      }
      return false;
    case And(sub) =>
      for i := 0 to |sub|
        invariant forall k :: 0 <= k < i ==> Grants(sub[k], view)
      {
        var one := CanAccess(sub[i], view);
        if !one { return false; }
      }
      return true;
    case Token(token) => return token in view;
    case Always => return true;
  }

  /** More tokens never shut a viewer out. */
  lemma {:induction false} GrantsGrows(a: Access, view: set<string>, wider: set<string>)
    requires Grants(a, view) && view <= wider
    ensures Grants(a, wider)
  {
    match a
    case Or(items) =>
      var i :| 0 <= i < |items| && Grants(items[i], view);
      GrantsGrows(items[i], view, wider);
    case And(items) =>
      forall i | 0 <= i < |items| ensures Grants(items[i], wider) {
        GrantsGrows(items[i], view, wider);
      }
    case Token(_) =>
    case Always =>
  }

  // ---------------------------------------------------------------- the derived order

  function Rank(a: Access): nat {
    match a
    case Or(_) => 0
    case And(_) => 1
    case Token(_) => 2
    case Always => 3
  }

  function CompareText(a: string, b: string): int {
    if a == [] then (if b == [] then 0 else -1)
    else if b == [] then 1
    else if a[0] < b[0] then -1
    else if a[0] > b[0] then 1
    else CompareText(a[1..], b[1..])
  }

  /** Variants in the order of their declaration, then their contents. */
  function Compare(a: Access, b: Access): int {
    if Rank(a) < Rank(b) then -1
    else if Rank(a) > Rank(b) then 1
    else
      match a
      case Or(items) => CompareLists(items, b.items)
      case And(items) => CompareLists(items, b.items)
      case Token(name) => CompareText(name, b.name)
      case Always => 0
  }

  function CompareLists(a: seq<Access>, b: seq<Access>): int {
    if a == [] then (if b == [] then 0 else -1)
    else if b == [] then 1
    else var c := Compare(a[0], b[0]); if c != 0 then c else CompareLists(a[1..], b[1..])
  }

  predicate Leq(a: Access, b: Access) {
    Compare(a, b) <= 0
  }

  lemma {:induction false} TextOrder(a: string, b: string, c: string)
    ensures CompareText(a, b) == 0 <==> a == b
    ensures CompareText(b, a) == -CompareText(a, b)
    ensures CompareText(a, b) <= 0 && CompareText(b, c) <= 0 ==> CompareText(a, c) <= 0
    decreases |a|
  {
    if a != [] && b != [] {
      TextOrder(a[1..], b[1..], if c == [] then c else c[1..]);
      assert a == [a[0]] + a[1..] && b == [b[0]] + b[1..];
    }
  }

  lemma {:induction false} AccessOrder(a: Access, b: Access, c: Access)
    ensures Compare(a, b) == 0 <==> a == b
    ensures Compare(b, a) == -Compare(a, b)
    ensures Compare(a, b) <= 0 && Compare(b, c) <= 0 ==> Compare(a, c) <= 0
    decreases a
  {
    var xs := if c.Or? || c.And? then c.items else [];
    match a
    case Or(items) =>
      if b.Or? { ListOrder(items, b.items, xs); }
    case And(items) =>
      if b.And? { ListOrder(items, b.items, xs); }
    case Token(name) =>
      if b.Token? { TextOrder(name, b.name, if c.Token? then c.name else ""); }
    case Always =>
  }

  lemma {:induction false} ListOrder(a: seq<Access>, b: seq<Access>, c: seq<Access>)
    ensures CompareLists(a, b) == 0 <==> a == b
    ensures CompareLists(b, a) == -CompareLists(a, b)
    ensures CompareLists(a, b) <= 0 && CompareLists(b, c) <= 0 ==> CompareLists(a, c) <= 0
    decreases a
  {
    if a != [] && b != [] {
      AccessOrder(a[0], b[0], if c == [] then b[0] else c[0]);
      if c != [] { AccessOrder(a[0], c[0], c[0]); }
      ListOrder(a[1..], b[1..], if c == [] then c else c[1..]);
      assert a == [a[0]] + a[1..] && b == [b[0]] + b[1..];
    }
  }

  /** The derived order is total. */
  lemma LeqTotal()
    ensures TotalOrder(Leq)
  {
    forall a, b, c
      ensures Leq(a, b) || Leq(b, a)
      ensures Leq(a, b) && Leq(b, a) ==> a == b
      ensures Leq(a, b) && Leq(b, c) ==> Leq(a, c)
    {
      AccessOrder(a, b, c);
    }
  }

  // ---------------------------------------------------------------- joining

  ghost predicate SomeGrants(items: seq<Access>, view: set<string>) {
    exists i :: 0 <= i < |items| && Grants(items[i], view)
  }

  ghost predicate AllGrant(items: seq<Access>, view: set<string>) {
    forall i :: 0 <= i < |items| ==> Grants(items[i], view)
  }

  lemma GrantsSplit(a: seq<Access>, b: seq<Access>, view: set<string>)
    ensures SomeGrants(a + b, view) <==> SomeGrants(a, view) || SomeGrants(b, view)
    ensures AllGrant(a + b, view) <==> AllGrant(a, view) && AllGrant(b, view)
  {
    if SomeGrants(a, view) {
      var i :| 0 <= i < |a| && Grants(a[i], view);
      assert (a + b)[i] == a[i];
    }
    if SomeGrants(b, view) {
      var i :| 0 <= i < |b| && Grants(b[i], view);
      assert (a + b)[|a| + i] == b[i];
    }
    if AllGrant(a + b, view) {
      forall i | 0 <= i < |a| ensures Grants(a[i], view) { assert (a + b)[i] == a[i]; }
      forall i | 0 <= i < |b| ensures Grants(b[i], view) { assert (a + b)[|a| + i] == b[i]; }
    }
  }

  /** Lists with the same members grant the same. */
  lemma SameGrants(a: seq<Access>, b: seq<Access>, view: set<string>)
    requires forall x :: x in a <==> x in b
    ensures SomeGrants(a, view) <==> SomeGrants(b, view)
    ensures AllGrant(a, view) <==> AllGrant(b, view)
  {
    forall i | 0 <= i < |a| ensures exists j :: 0 <= j < |b| && b[j] == a[i] {
      assert a[i] in b;
    }
    forall i | 0 <= i < |b| ensures exists j :: 0 <= j < |a| && a[j] == b[i] {
      assert b[i] in a;
    }
  }

  lemma OneGrants(x: Access, view: set<string>)
    ensures SomeGrants([x], view) <==> Grants(x, view)
    ensures AllGrant([x], view) <==> Grants(x, view)
  {
    assert [x][0] == x;
  }

  /** What an operand of `or` contributes to the joined list. */
  function Disjuncts(a: Access): seq<Access> {
    if a.Or? then a.items else [a]
  }

  function Conjuncts(a: Access): seq<Access> {
    if a.And? then a.items else if a.Always? then [] else [a]
  }

  /**
   `or`: the join lets through whom either side lets through, unless both sides are an `Or` of
   nothing, which let nobody through while their join lets everybody through.
   */
  method JoinOr(a: Access, b: Access) returns (joined: Access)
    ensures forall view ::
              Grants(joined, view) <==> Grants(a, view) || Grants(b, view) || (a == Or([]) && b == Or([]))
    ensures joined == OrOf(a, b)
  {
    forall view
      ensures Grants(OrOf(a, b), view) <==> Grants(a, view) || Grants(b, view) || (a == Or([]) && b == Or([]))
    {
      OrGrants(a, b, view);
    }
    hide Grants; hide SortDedup;
    if a.Always? || b.Always? { return Always; }
    var collected := Disjuncts(a) + Disjuncts(b);
    collected := SortDedup(collected, Leq);
    if collected == [] {
      joined := Always;
    } else if |collected| == 1 {
      joined := collected[0];
    } else {
      joined := Or(collected);
    }
  }

  lemma OrGrants(a: Access, b: Access, view: set<string>)
    ensures Grants(OrOf(a, b), view) <==> Grants(a, view) || Grants(b, view) || (a == Or([]) && b == Or([]))
  {
    var all := Disjuncts(a) + Disjuncts(b);
    GrantsSplit(Disjuncts(a), Disjuncts(b), view);
    OneGrants(a, view);
    OneGrants(b, view);
    SortDedupMembers(all, Leq);
    var collected := SortDedup(all, Leq);
    SameGrants(collected, all, view);
    if |collected| == 1 {
      OneGrants(collected[0], view);
      assert collected == [collected[0]];
    }
  }

  function OrOf(a: Access, b: Access): Access {
    var collected := SortDedup(Disjuncts(a) + Disjuncts(b), Leq);
    if a.Always? || b.Always? || collected == [] then Always
    else if |collected| == 1 then collected[0]
    else Or(collected)
  }

  function AndOf(a: Access, b: Access): Access {
    var collected := SortDedup(Conjuncts(a) + Conjuncts(b), Leq);
    if |collected| == 1 then collected[0] else And(collected)
  }

  /** `and`: the join lets through exactly whom both sides let through. */
  lemma AndGrants(a: Access, b: Access, view: set<string>)
    ensures Grants(AndOf(a, b), view) <==> Grants(a, view) && Grants(b, view)
  {
    var all := Conjuncts(a) + Conjuncts(b);
    GrantsSplit(Conjuncts(a), Conjuncts(b), view);
    OneGrants(a, view);
    OneGrants(b, view);
    SortDedupMembers(all, Leq);
    var collected := SortDedup(all, Leq);
    SameGrants(collected, all, view);
    if |collected| == 1 {
      OneGrants(collected[0], view);
      assert collected == [collected[0]];
    }
  }

  method JoinAnd(a: Access, b: Access) returns (joined: Access)
    ensures forall view :: Grants(joined, view) <==> Grants(a, view) && Grants(b, view)
    ensures joined == AndOf(a, b)
  {
    var collected := Conjuncts(a) + Conjuncts(b);
    collected := SortDedup(collected, Leq);
    joined := if |collected| == 1 then collected[0] else And(collected);
    forall view ensures Grants(joined, view) <==> Grants(a, view) && Grants(b, view) {
      AndGrants(a, b, view);
    }
  }

  /** Joining is the same in either order, however the sides were nested. */
  lemma JoinsCommute(a: Access, b: Access)
    ensures OrOf(a, b) == OrOf(b, a) && AndOf(a, b) == AndOf(b, a)
  {
    LeqTotal();
    SortDedupCanonical(Disjuncts(a) + Disjuncts(b), Disjuncts(b) + Disjuncts(a), Leq);
    SortDedupCanonical(Conjuncts(a) + Conjuncts(b), Conjuncts(b) + Conjuncts(a), Leq);
  }
}
