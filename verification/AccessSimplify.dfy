/**
 Simplifying access control expressions by factoring out common terms (`factor`, `simplify`,
 src/access.rs): when it panics, that it never lets more viewers through, and when it lets
 through exactly the same.
 */
module AccessSimplify {
  import opened Bytes
  import opened Sorting
  import opened Access

  // ---------------------------------------------------------------- sets of operands as expressions

  ghost function SeqOf(s: set<Access>): (r: seq<Access>)
    ensures forall x :: x in r <==> x in s
  {
    if s == {} then [] else var x :| x in s; [x] + SeqOf(s - {x})
  }

  /** The members of a set as a sorted list. */
  ghost function Listed(s: set<Access>): (r: seq<Access>)
    ensures forall x :: x in r <==> x in s
    ensures Ascending(r, Leq)
  {
    LeqTotal();
    SortDedupMembers(SeqOf(s), Leq);
    SortDedupAscending(SeqOf(s), Leq);
    SortDedup(SeqOf(s), Leq)
  }

  lemma ListedUnique(items: seq<Access>, s: set<Access>)
    requires forall x :: x in items <==> x in s
    ensures SortDedup(items, Leq) == Listed(s)
  {
    LeqTotal();
    SortDedupMembers(items, Leq);
    SortDedupAscending(items, Leq);
    AscendingUnique(SortDedup(items, Leq), Listed(s), Leq);
  }

  /** `into_and` and `into_or`: a sole member stands for itself. */
  ghost function IntoAnd(s: set<Access>): Access {
    if |Listed(s)| == 1 then Listed(s)[0] else And(Listed(s))
  }

  ghost function IntoOr(s: set<Access>): Access {
    if |Listed(s)| == 1 then Listed(s)[0] else Or(Listed(s))
  }

  ghost predicate Every(s: set<Access>, view: set<string>) {
    forall x :: x in s ==> Grants(x, view)
  }

  /** Some conjunction of a set holds; every disjunction of a set holds. */
  ghost predicate SomeEvery(ops: set<set<Access>>, view: set<string>) {
    exists op :: op in ops && Every(op, view)
  }

  ghost predicate EachAny(ops: set<set<Access>>, view: set<string>) {
    forall op :: op in ops ==> AnyOf(op, view)
  }

  lemma OpsAny(ops: set<set<Access>>, view: set<string>)
    ensures SomeEvery(ops, view) <==> exists op :: op in ops && Every(op, view)
    ensures EachAny(ops, view) <==> forall op :: op in ops ==> AnyOf(op, view)
  {
  }

  ghost predicate AnyOf(s: set<Access>, view: set<string>) {
    exists x :: x in s && Grants(x, view)
  }

  lemma IntoGrants(s: set<Access>, view: set<string>)
    ensures Grants(IntoAnd(s), view) <==> Every(s, view)
    ensures Grants(IntoOr(s), view) <==> AnyOf(s, view)
  {
    var l := Listed(s);
    assert AllGrant(l, view) <==> Every(s, view) by {
      if AllGrant(l, view) {
        forall x | x in s ensures Grants(x, view) {
          assert x in l;
        }
      }
      forall i | 0 <= i < |l| ensures l[i] in s {
      }
    }
    assert SomeGrants(l, view) <==> AnyOf(s, view) by {
      if x :| x in s && Grants(x, view) {
        assert x in l;
      }
      forall i | 0 <= i < |l| ensures l[i] in s {
      }
    }
    if |l| == 1 {
      OneGrants(l[0], view);
      assert l == [l[0]];
    }
  }

  // ---------------------------------------------------------------- factoring

  ghost function Common(ops: set<set<Access>>): (c: set<Access>)
    ensures ops != {} ==> forall x :: x in c <==> forall op :: op in ops ==> x in op
  {
    if ops == {} then {}
    else
      var first :| first in ops;
      set x | x in first && forall op :: op in ops ==> x in op
  }

  /** What is left of the operands once the common terms are taken out. */
  ghost function Rests(ops: set<set<Access>>): set<set<Access>> {
    set op | op in ops && op - Common(ops) != {} :: op - Common(ops)
  }

  ghost predicate FallsThrough(ops: set<set<Access>>) {
    exists op :: op in ops && op - Common(ops) == {}
  }

  /** A single remainder is never left over by itself: the branch that would join it with `|` is dead. */
  lemma NeverOneRest(ops: set<set<Access>>, rest: set<Access>)
    requires ops != {} && Rests(ops) == {rest}
    ensures FallsThrough(ops)
  {
    assert rest in Rests(ops);
    var from :| from in ops && from - Common(ops) != {} && from - Common(ops) == rest;
    var x :| x in rest;
    assert x !in Common(ops);
    var op :| op in ops && x !in op;
    assert op - Common(ops) == {} || op - Common(ops) in Rests(ops);
  }

  lemma EverySplit(op: set<Access>, c: set<Access>, view: set<string>)
    requires c <= op
    ensures Every(op, view) <==> Every(c, view) && Every(op - c, view)
    ensures AnyOf(op, view) <==> AnyOf(c, view) || AnyOf(op - c, view)
    ensures op - c == {} ==> Every(op - c, view) && !AnyOf(op - c, view)
  {
    assert forall x :: x in op ==> x in c || x in op - c;
  }

  lemma CommonBelow(ops: set<set<Access>>, op: set<Access>)
    requires op in ops
    ensures Common(ops) <= op
    ensures op - Common(ops) == {} ==> FallsThrough(ops)
    ensures op - Common(ops) != {} ==> op - Common(ops) in Rests(ops)
  {
  }

  lemma RestFrom(ops: set<set<Access>>, rest: set<Access>) returns (op: set<Access>)
    requires rest in Rests(ops)
    ensures op in ops && op - Common(ops) == rest
  {
    op :| op in ops && op - Common(ops) != {} && op - Common(ops) == rest;
  }

  lemma ThroughFrom(ops: set<set<Access>>) returns (op: set<Access>)
    requires FallsThrough(ops)
    ensures op in ops && op - Common(ops) == {}
  {
    op :| op in ops && op - Common(ops) == {};
  }

  /** Factoring a disjunction of conjunctions. */
  lemma FactorOr(ops: set<set<Access>>, view: set<string>)
    requires ops != {}
    ensures SomeEvery(ops, view)
       <==> && Every(Common(ops), view)
            && (FallsThrough(ops) || SomeEvery(Rests(ops), view))
  {
    hide *;
    OpsAny(ops, view);
    OpsAny(Rests(ops), view);
    var c := Common(ops);
    if op :| op in ops && Every(op, view) {
      CommonBelow(ops, op);
      EverySplit(op, c, view);
    }
    if Every(c, view) {
      if FallsThrough(ops) {
        var op := ThroughFrom(ops);
        CommonBelow(ops, op);
        EverySplit(op, c, view);
      } else if r :| r in Rests(ops) && Every(r, view) {
        var op := RestFrom(ops, r);
        CommonBelow(ops, op);
        EverySplit(op, c, view);
      }
    }
  }

  /** Factoring a conjunction of disjunctions. */
  lemma FactorAnd(ops: set<set<Access>>, view: set<string>)
    requires ops != {}
    ensures EachAny(ops, view)
       <==> || AnyOf(Common(ops), view)
            || (!FallsThrough(ops) && EachAny(Rests(ops), view))
  {
    hide *;
    OpsAny(ops, view);
    OpsAny(Rests(ops), view);
    var c := Common(ops);
    if AnyOf(c, view) || (!FallsThrough(ops) && EachAny(Rests(ops), view)) {
      forall op | op in ops ensures AnyOf(op, view) {
        CommonBelow(ops, op);
        EverySplit(op, c, view);
      }
    } else if FallsThrough(ops) {
      var op := ThroughFrom(ops);
      CommonBelow(ops, op);
      EverySplit(op, c, view);
    } else {
      var r :| r in Rests(ops) && !AnyOf(r, view);
      var op := RestFrom(ops, r);
      CommonBelow(ops, op);
      EverySplit(op, c, view);
    }
  }

  // ---------------------------------------------------------------- flattening

  /** The operands that flattening finds, under `Or` (each a conjunction) or under `And` (each a disjunction). */
  ghost function Clauses(a: Access, under: Access): set<set<Access>>
    requires under.Or? || under.And?
  {
    match a
    case Or(items) =>
      if under.Or? then set i, c | 0 <= i < |items| && c in Clauses(items[i], under) :: c else {set x | x in items}
    case And(items) =>
      if under.And? then set i, c | 0 <= i < |items| && c in Clauses(items[i], under) :: c else {set x | x in items}
    case Token(_) => {{a}}
    case Always => {}
  }

  /** Flattening comes upon an `Always`. */
  predicate MeetsAlways(a: Access) {
    a.Always? || (a.Or? && exists i :: 0 <= i < |a.items| && MeetsAlways(a.items[i]))
  }

  lemma {:induction false} OrClausesGrant(a: Access, view: set<string>)
    ensures Grants(a, view) <==> MeetsAlways(a) || SomeEvery(Clauses(a, Or([])), view)
  {
    match a
    case Or(items) =>
      forall i | 0 <= i < |items|
        ensures Grants(items[i], view)
           <==> MeetsAlways(items[i]) || exists c :: c in Clauses(items[i], Or([])) && Every(c, view)
      {
        OrClausesGrant(items[i], view);
      }
      if Grants(a, view) {
        var i :| 0 <= i < |items| && Grants(items[i], view);
        if !MeetsAlways(items[i]) {
          var c :| c in Clauses(items[i], Or([])) && Every(c, view);
          assert c in Clauses(a, Or([]));
        }
      }
      if c :| c in Clauses(a, Or([])) && Every(c, view) {
        var i :| 0 <= i < |items| && c in Clauses(items[i], Or([]));
        assert Grants(items[i], view);
      }
    case And(items) =>
      var c := set x | x in items;
      assert Clauses(a, Or([])) == {c};
      if Every(c, view) {
        forall i | 0 <= i < |items| ensures Grants(items[i], view) { assert items[i] in c; }
      }
    case Token(_) =>
      assert Clauses(a, Or([])) == {{a}};
      assert Every({a}, view) <==> Grants(a, view);
    case Always =>
  }

  lemma {:induction false} AndClausesGrant(a: Access, view: set<string>)
    ensures Grants(a, view) <==> EachAny(Clauses(a, And([])), view)
  {
    match a
    case And(items) =>
      forall i | 0 <= i < |items|
        ensures Grants(items[i], view) <==> forall c :: c in Clauses(items[i], And([])) ==> AnyOf(c, view)
      {
        AndClausesGrant(items[i], view);
      }
      if Grants(a, view) {
        forall c | c in Clauses(a, And([])) ensures AnyOf(c, view) {
          var i :| 0 <= i < |items| && c in Clauses(items[i], And([]));
          assert Grants(items[i], view);
        }
      }
      if forall c :: c in Clauses(a, And([])) ==> AnyOf(c, view) {
        forall i | 0 <= i < |items| ensures Grants(items[i], view) {
          forall c | c in Clauses(items[i], And([])) ensures AnyOf(c, view) {
            assert c in Clauses(a, And([]));
          }
        }
      }
    case Or(items) =>
      var c := set x | x in items;
      assert Clauses(a, And([])) == {c};
      assert AnyOf(c, view) <==> Grants(a, view) by {
        if Grants(a, view) {
          var i :| 0 <= i < |items| && Grants(items[i], view);
          assert items[i] in c;
        }
      }
    case Token(_) =>
      assert Clauses(a, And([])) == {{a}};
      assert AnyOf({a}, view) <==> Grants(a, view) by { assert a in {a}; }
    case Always =>
  }

  // ---------------------------------------------------------------- what simplifying yields

  ghost function AllClauses(parts: seq<Access>, under: Access): set<set<Access>>
    requires under.Or? || under.And?
  {
    set i, c | 0 <= i < |parts| && c in Clauses(parts[i], under) :: c
  }

  ghost function FactoredOr(ops: set<set<Access>>): Access {
    if FallsThrough(ops) then IntoAnd(Common(ops))
    else if Common(ops) == {} then IntoOr(Ands(Rests(ops)))
    else AndOf(IntoOr(Ands(Rests(ops))), IntoAnd(Common(ops)))
  }

  ghost function FactoredAnd(ops: set<set<Access>>): Access {
    if Common(ops) == {} then IntoAnd(Ors(Rests(ops)))
    else if Rests(ops) == {} then IntoOr(Common(ops))
    else AndOf(IntoAnd(Ors(Rests(ops))), IntoOr(Common(ops)))
  }

  /** What `simplify` makes of an expression, or nothing where it panics. */
  ghost function Simplified(a: Access): Option<Access> {
    match a
    case Or(items) =>
      if exists i :: 0 <= i < |items| && Simplified(items[i]).None? then None
      else
        var parts := seq(|items|, i requires 0 <= i < |items| => Simplified(items[i]).value);
        if items == [] || exists i :: 0 <= i < |parts| && MeetsAlways(parts[i]) then Some(Always)
        else
          var ops := AllClauses(parts, Or([]));
          if ops == {} || {} in ops then None else Some(FactoredOr(ops))
    case And(items) =>
      if exists i :: 0 <= i < |items| && Simplified(items[i]).None? then None
      else
        var parts := seq(|items|, i requires 0 <= i < |items| => Simplified(items[i]).value);
        if items == [] then Some(Always)
        else
          var ops := AllClauses(parts, And([]));
          if ops == {} || {} in ops then None else Some(FactoredAnd(ops))
    case Token(_) => Some(a)
    case Always => Some(a)
  }

  /** The expressions that come out as `Always`. */
  predicate Open(a: Access) {
    match a
    case Or(items) => items == [] || exists i :: 0 <= i < |items| && Open(items[i])
    case And(items) => items == []
    case Token(_) => false
    case Always => true
  }

  /** The expressions on which `simplify` panics: a conjunction somewhere in which nothing is left. */
  predicate Panics(a: Access) {
    match a
    case Or(items) => exists i :: 0 <= i < |items| && Panics(items[i])
    case And(items) =>
      || (exists i :: 0 <= i < |items| && Panics(items[i]))
      || (items != [] && forall i :: 0 <= i < |items| ==> Open(items[i]))
    case Token(_) => false
    case Always => false
  }

  /** No empty list anywhere and no `Always`. */
  predicate Proper(a: Access) {
    match a
    case Or(items) => items != [] && forall i :: 0 <= i < |items| ==> Proper(items[i])
    case And(items) => items != [] && forall i :: 0 <= i < |items| ==> Proper(items[i])
    case Token(_) => true
    case Always => false
  }

  ghost predicate AllProper(s: set<Access>) {
    forall x :: x in s ==> Proper(x)
  }

  ghost predicate ProperOps(ops: set<set<Access>>) {
    forall c :: c in ops ==> c != {} && AllProper(c)
  }

  lemma {:induction false} ProperMeetsNone(a: Access)
    requires Proper(a)
    ensures !MeetsAlways(a)
  {
    if a.Or? {
      forall i | 0 <= i < |a.items| ensures !MeetsAlways(a.items[i]) {
        ProperMeetsNone(a.items[i]);
      }
    }
  }

  lemma {:induction false} ProperClauses(a: Access, under: Access)
    requires under.Or? || under.And?
    requires Proper(a)
    ensures Clauses(a, under) != {} && ProperOps(Clauses(a, under))
  {
    if (a.Or? && under.Or?) || (a.And? && under.And?) {
      var items := a.items;
      forall i | 0 <= i < |items|
        ensures Clauses(items[i], under) != {} && ProperOps(Clauses(items[i], under))
      {
        ProperClauses(items[i], under);
      }
      var c :| c in Clauses(items[0], under);
      assert c in Clauses(a, under);
    } else if a.Or? || a.And? {
      var c := set x | x in a.items;
      assert Clauses(a, under) == {c};
      assert a.items[0] in c;
    } else {
      assert Clauses(a, under) == {{a}};
    }
  }

  lemma ProperInto(s: set<Access>)
    requires s != {} && AllProper(s)
    ensures Proper(IntoAnd(s)) && Proper(IntoOr(s))
  {
    var l := Listed(s);
    var x :| x in s;
    assert x in l;
    forall i | 0 <= i < |l| ensures Proper(l[i]) {
      assert l[i] in l;
    }
  }

  lemma ProperAnd(a: Access, b: Access)
    requires Proper(a) && Proper(b)
    ensures Proper(AndOf(a, b))
  {
    var all := Conjuncts(a) + Conjuncts(b);
    SortDedupMembers(all, Leq);
    var collected := SortDedup(all, Leq);
    forall i | 0 <= i < |collected| ensures Proper(collected[i]) {
      assert collected[i] in all;
    }
  }

  /** The common terms and the remainders of proper operands are proper, and not all are empty. */
  lemma ProperParts(ops: set<set<Access>>)
    requires ops != {} && ProperOps(ops)
    ensures AllProper(Common(ops)) && ProperOps(Rests(ops))
    ensures if FallsThrough(ops) then Common(ops) != {} else Rests(ops) != {}
    ensures Common(ops) == {} ==> Rests(ops) != {}
  {
    var op :| op in ops;
    CommonBelow(ops, op);
    hide FallsThrough; hide Common; hide Proper;
    forall r | r in Rests(ops) ensures r != {} && AllProper(r) {
      var from := RestFrom(ops, r);
      EmptyRest(ops, r);
    }
    if FallsThrough(ops) {
      var through := ThroughFrom(ops);
      SmallRest(through, Common(ops));
    }
    SmallRest(op, Common(ops));
  }

  lemma SmallRest(op: set<Access>, c: set<Access>)
    ensures op != {} && op - c == {} ==> c != {}
  {
    if x :| x in op {
      assert x in c || x in op - c;
    }
  }

  lemma EmptyRest(ops: set<set<Access>>, r: set<Access>)
    requires r in Rests(ops)
    ensures r != {}
  {
  }

  ghost function Ands(rests: set<set<Access>>): set<Access> {
    set r | r in rests :: IntoAnd(r)
  }

  ghost function Ors(rests: set<set<Access>>): set<Access> {
    set r | r in rests :: IntoOr(r)
  }

  lemma ProperImages(rests: set<set<Access>>)
    requires ProperOps(rests)
    ensures AllProper(Ands(rests)) && AllProper(Ors(rests))
    ensures rests != {} ==> Ands(rests) != {} && Ors(rests) != {}
  {
    forall r | r in rests ensures Proper(IntoAnd(r)) && Proper(IntoOr(r)) {
      ProperInto(r);
    }
    if r :| r in rests {
      assert IntoAnd(r) in Ands(rests) && IntoOr(r) in Ors(rests);
    }
  }

  lemma ProperFactored(ops: set<set<Access>>)
    requires ops != {} && ProperOps(ops)
    ensures Proper(FactoredOr(ops)) && Proper(FactoredAnd(ops))
  {
    hide *;
    ProperParts(ops);
    ProperImages(Rests(ops));
    FactoredCases(ops);
    var c, ands, ors := Common(ops), Ands(Rests(ops)), Ors(Rests(ops));
    if c != {} { ProperInto(c); }
    if Rests(ops) != {} {
      ProperInto(ands);
      ProperInto(ors);
      if c != {} {
        ProperAnd(IntoOr(ands), IntoAnd(c));
        ProperAnd(IntoAnd(ors), IntoOr(c));
      }
    }
  }

  lemma FactoredCases(ops: set<set<Access>>)
    ensures FactoredOr(ops)
         == if FallsThrough(ops) then IntoAnd(Common(ops))
            else if Common(ops) == {} then IntoOr(Ands(Rests(ops)))
            else AndOf(IntoOr(Ands(Rests(ops))), IntoAnd(Common(ops)))
    ensures FactoredAnd(ops)
         == if Common(ops) == {} then IntoAnd(Ors(Rests(ops)))
            else if Rests(ops) == {} then IntoOr(Common(ops))
            else AndOf(IntoAnd(Ors(Rests(ops))), IntoOr(Common(ops)))
  {
  }

  /** The simplified parts of a list. */
  ghost function Parts(items: seq<Access>): (parts: seq<Access>)
    requires forall i :: 0 <= i < |items| ==> Simplified(items[i]).Some?
    ensures |parts| == |items| && forall i :: 0 <= i < |items| ==> parts[i] == Simplified(items[i]).value
  {
    seq(|items|, i requires 0 <= i < |items| => Simplified(items[i]).value)
  }

  ghost predicate ProperOrAlways(parts: seq<Access>) {
    forall i :: 0 <= i < |parts| ==> parts[i].Always? || Proper(parts[i])
  }

  lemma ProperAllClauses(parts: seq<Access>, under: Access)
    requires (under.Or? || under.And?) && ProperOrAlways(parts)
    ensures ProperOps(AllClauses(parts, under))
    ensures AllClauses(parts, under) == {} <==> forall i :: 0 <= i < |parts| ==> parts[i].Always?
    ensures (exists i :: 0 <= i < |parts| && MeetsAlways(parts[i]))
            <==> exists i :: 0 <= i < |parts| && parts[i].Always?
  {
    var ops := AllClauses(parts, under);
    forall c | c in ops ensures c != {} && AllProper(c) {
      var i :| 0 <= i < |parts| && c in Clauses(parts[i], under);
      if Proper(parts[i]) { ProperClauses(parts[i], under); }
    }
    forall i | 0 <= i < |parts| ensures !parts[i].Always? ==> ops != {} && !MeetsAlways(parts[i]) {
      if Proper(parts[i]) {
        ProperClauses(parts[i], under);
        ProperMeetsNone(parts[i]);
        var c :| c in Clauses(parts[i], under);
        assert c in ops;
      }
    }
    if forall i :: 0 <= i < |parts| ==> parts[i].Always? {
      assert ops == {};
    }
  }

  lemma SimplifiedCases(items: seq<Access>)
    requires forall i :: 0 <= i < |items| ==> Simplified(items[i]).Some?
    ensures Simplified(Or(items))
         == if items == [] || exists i :: 0 <= i < |Parts(items)| && MeetsAlways(Parts(items)[i]) then Some(Always)
            else var ops := AllClauses(Parts(items), Or([]));
            if ops == {} || {} in ops then None else Some(FactoredOr(ops))
    ensures Simplified(And(items))
         == if items == [] then Some(Always)
            else var ops := AllClauses(Parts(items), And([]));
            if ops == {} || {} in ops then None else Some(FactoredAnd(ops))
  {
    var a, b := Or(items), And(items);
    assert Parts(items) == seq(|a.items|, i requires 0 <= i < |a.items| => Simplified(a.items[i]).value);
    assert Parts(items) == seq(|b.items|, i requires 0 <= i < |b.items| => Simplified(b.items[i]).value);
  }

  /** What `SimplifiedShape` says of one expression. */
  ghost predicate ShapeOf(a: Access) {
    && (Simplified(a).None? <==> Panics(a))
    && (Simplified(a).Some? ==> (Simplified(a).value.Always? <==> Open(a)))
    && (Simplified(a).Some? && !Open(a) ==> Proper(Simplified(a).value))
  }

  /** Exactly when `simplify` panics, when it yields `Always`, and that what it yields otherwise is proper. */
  lemma {:induction false} SimplifiedShape(a: Access)
    ensures Simplified(a).None? <==> Panics(a)
    ensures Simplified(a).Some? ==> (Simplified(a).value.Always? <==> Open(a))
    ensures Simplified(a).Some? && !Open(a) ==> Proper(Simplified(a).value)
  {
    if a.Or? || a.And? {
      forall i | 0 <= i < |a.items| ensures ShapeOf(a.items[i]) {
        SimplifiedShape(a.items[i]);
      }
      if forall i :: 0 <= i < |a.items| ==> Simplified(a.items[i]).Some? {
        ListShape(a.items);
      } else {
        var i :| 0 <= i < |a.items| && Simplified(a.items[i]).None?;
        assert ShapeOf(a.items[i]);
      }
    }
  }

  lemma ListShape(items: seq<Access>)
    requires forall i :: 0 <= i < |items| ==> ShapeOf(items[i]) && Simplified(items[i]).Some?
    ensures ShapeOf(Or(items)) && ShapeOf(And(items))
  {
    SimplifiedCases(items);
    OpenCases(items);
    var parts := Parts(items);
    OpsShape(parts, Or([]));
    OpsShape(parts, And([]));
    assert items == [] || Simplified(items[0]) == Some(parts[0]);
    hide *;
    ShapeIs(Or(items));
    ShapeIs(And(items));
  }

  lemma ShapeIs(a: Access)
    ensures ShapeOf(a) <==>
              && (Simplified(a).None? <==> Panics(a))
              && (Simplified(a).Some? ==> (Simplified(a).value.Always? <==> Open(a)))
              && (Simplified(a).Some? && !Open(a) ==> Proper(Simplified(a).value))
  {
  }

  lemma OpenCases(items: seq<Access>)
    requires forall i :: 0 <= i < |items| ==> ShapeOf(items[i]) && Simplified(items[i]).Some?
    ensures var parts := Parts(items);
            && ProperOrAlways(parts)
            && !Panics(Or(items))
            && (Panics(And(items)) <==> items != [] && forall i :: 0 <= i < |parts| ==> parts[i].Always?)
            && (Open(Or(items)) <==> items == [] || exists i :: 0 <= i < |parts| && parts[i].Always?)
            && (Open(And(items)) <==> items == [])
  {
    var parts := Parts(items);
    forall i | 0 <= i < |items|
      ensures !Panics(items[i]) && (parts[i].Always? <==> Open(items[i])) && (parts[i].Always? || Proper(parts[i]))
    {
      assert ShapeOf(items[i]);
    }
    hide Simplified; hide Proper;
    if i :| 0 <= i < |parts| && parts[i].Always? {
      assert Open(items[i]);
    }
    if i :| 0 <= i < |items| && Open(items[i]) {
      assert parts[i].Always?;
    }
  }

  lemma OpsShape(parts: seq<Access>, under: Access)
    requires (under.Or? || under.And?) && ProperOrAlways(parts)
    ensures var ops := AllClauses(parts, under);
            && {} !in ops
            && (ops == {} <==> forall i :: 0 <= i < |parts| ==> parts[i].Always?)
            && (ops != {} ==> && Proper(FactoredOr(ops)) && Proper(FactoredAnd(ops))
                              && !FactoredOr(ops).Always? && !FactoredAnd(ops).Always?)
    ensures (exists i :: 0 <= i < |parts| && MeetsAlways(parts[i]))
            <==> exists i :: 0 <= i < |parts| && parts[i].Always?
  {
    ProperAllClauses(parts, under);
    var ops := AllClauses(parts, under);
    hide FactoredOr; hide FactoredAnd; hide AllClauses; hide MeetsAlways;
    if ops != {} {
      ProperFactored(ops);
    }
  }

  // ---------------------------------------------------------------- whom the result lets through

  lemma OneImage(rests: set<set<Access>>, r: set<Access>)
    requires r in rests
    ensures IntoAnd(r) in Ands(rests) && IntoOr(r) in Ors(rests)
  {
  }

  lemma FromAnds(rests: set<set<Access>>, x: Access) returns (r: set<Access>)
    requires x in Ands(rests)
    ensures r in rests && x == IntoAnd(r)
  {
    r :| r in rests && IntoAnd(r) == x;
  }

  lemma FromOrs(rests: set<set<Access>>, x: Access) returns (r: set<Access>)
    requires x in Ors(rests)
    ensures r in rests && x == IntoOr(r)
  {
    r :| r in rests && IntoOr(r) == x;
  }

  lemma EveryAny(s: set<Access>, view: set<string>)
    ensures Every(s, view) <==> forall x :: x in s ==> Grants(x, view)
    ensures AnyOf(s, view) <==> exists x :: x in s && Grants(x, view)
  {
  }

  lemma AndsGrant(rests: set<set<Access>>, view: set<string>)
    ensures Grants(IntoOr(Ands(rests)), view) <==> SomeEvery(rests, view)
  {
    hide *;
    OpsAny(rests, view);
    IntoGrants(Ands(rests), view);
    EveryAny(Ands(rests), view);
    if r :| r in rests && Every(r, view) {
      OneImage(rests, r);
      IntoGrants(r, view);
    }
    if x :| x in Ands(rests) && Grants(x, view) {
      var r := FromAnds(rests, x);
      IntoGrants(r, view);
    }
  }

  lemma OrsGrant(rests: set<set<Access>>, view: set<string>)
    ensures Grants(IntoAnd(Ors(rests)), view) <==> EachAny(rests, view)
  {
    hide *;
    OpsAny(rests, view);
    IntoGrants(Ors(rests), view);
    EveryAny(Ors(rests), view);
    if r :| r in rests && !AnyOf(r, view) {
      OneImage(rests, r);
      IntoGrants(r, view);
    }
    if x :| x in Ors(rests) && !Grants(x, view) {
      var r := FromOrs(rests, x);
      IntoGrants(r, view);
    }
  }

  lemma EmptySets(s: set<Access>, rests: set<set<Access>>, view: set<string>)
    ensures s == {} ==> Every(s, view) && !AnyOf(s, view)
    ensures rests == {} ==> EachAny(rests, view)
  {
  }

  /** Factoring a disjunction changes nothing. */
  lemma FactoredOrGrants(ops: set<set<Access>>, view: set<string>)
    requires ops != {}
    ensures Grants(FactoredOr(ops), view) <==> SomeEvery(ops, view)
  {
    hide *;
    EmptySets(Common(ops), Rests(ops), view);
    FactorOr(ops, view);
    FactoredCases(ops);
    AndsGrant(Rests(ops), view);
    IntoGrants(Common(ops), view);
    AndGrants(IntoOr(Ands(Rests(ops))), IntoAnd(Common(ops)), view);
  }

  /** Factoring a conjunction asks for a common term and for a term of every remainder. */
  lemma FactoredAndGrants(ops: set<set<Access>>, view: set<string>)
    requires ops != {} && ProperOps(ops)
    ensures Grants(FactoredAnd(ops), view)
       <==> && (Common(ops) != {} ==> AnyOf(Common(ops), view))
            && (EachAny(Rests(ops), view))
  {
    hide *;
    EmptySets(Common(ops), Rests(ops), view);
    FactoredCases(ops);
    OrsGrant(Rests(ops), view);
    IntoGrants(Common(ops), view);
    AndGrants(IntoAnd(Ors(Rests(ops))), IntoOr(Common(ops)), view);
  }

  /** The operands of a conjunction share a term and are not all alike: the case in which `simplify` narrows. */
  ghost predicate Sharing(ops: set<set<Access>>) {
    Common(ops) != {} && Rests(ops) != {}
  }

  lemma SharingIs(ops: set<set<Access>>)
    ensures Sharing(ops) <==> Common(ops) != {} && Rests(ops) != {}
  {
  }

  lemma FactoredAndNarrows(ops: set<set<Access>>, view: set<string>)
    requires ops != {} && ProperOps(ops)
    ensures Grants(FactoredAnd(ops), view) ==> EachAny(ops, view)
    ensures !Sharing(ops) && EachAny(ops, view) ==> Grants(FactoredAnd(ops), view)
  {
    hide *;
    EmptySets(Common(ops), Rests(ops), view);
    SharingIs(ops);
    FactorAnd(ops, view);
    FactoredAndGrants(ops, view);
    ProperParts(ops);
  }

  lemma AllClausesGrant(parts: seq<Access>, view: set<string>)
    ensures SomeGrants(parts, view)
       <==> || (exists i :: 0 <= i < |parts| && MeetsAlways(parts[i]))
            || SomeEvery(AllClauses(parts, Or([])), view)
    ensures AllGrant(parts, view) <==> EachAny(AllClauses(parts, And([])), view)
  {
    OrClausesGrant(Or(parts), view);
    AndClausesGrant(And(parts), view);
    assert AllClauses(parts, Or([])) == Clauses(Or(parts), Or([]));
    assert AllClauses(parts, And([])) == Clauses(And(parts), And([]));
    assert MeetsAlways(Or(parts)) <==> exists i :: 0 <= i < |parts| && MeetsAlways(parts[i]);
    assert Grants(Or(parts), view) <==> SomeGrants(parts, view);
    assert Grants(And(parts), view) <==> AllGrant(parts, view);
  }

  /** No `Or` of nothing anywhere: such a one lets nobody through, yet is taken for `Always`. */
  predicate NoEmptyOr(a: Access) {
    match a
    case Or(items) => items != [] && forall i :: 0 <= i < |items| ==> NoEmptyOr(items[i])
    case And(items) => forall i :: 0 <= i < |items| ==> NoEmptyOr(items[i])
    case Token(_) => true
    case Always => true
  }

  lemma {:induction false} OpenGrants(a: Access, view: set<string>)
    requires Open(a) && NoEmptyOr(a)
    ensures Grants(a, view)
  {
    if a.Or? {
      var i :| 0 <= i < |a.items| && Open(a.items[i]);
      OpenGrants(a.items[i], view);
    }
  }

  /** No conjunction in the expression has, once its parts are simplified, operands that share a term and differ. */
  ghost predicate NothingShared(a: Access) {
    match a
    case Or(items) => forall i :: 0 <= i < |items| ==> NothingShared(items[i])
    case And(items) =>
      && (forall i :: 0 <= i < |items| ==> NothingShared(items[i]))
      && ((forall i :: 0 <= i < |items| ==> Simplified(items[i]).Some?) ==> !Sharing(AllClauses(Parts(items), And([]))))
    case Token(_) => true
    case Always => true
  }

  lemma PartsSimplified(items: seq<Access>)
    requires forall i :: 0 <= i < |items| ==> !Panics(items[i])
    ensures forall i :: 0 <= i < |items| ==> Simplified(items[i]).Some?
    ensures ProperOrAlways(Parts(items))
  {
    forall i | 0 <= i < |items|
      ensures Simplified(items[i]).Some? && (Simplified(items[i]).value.Always? || Proper(Simplified(items[i]).value))
    {
      SimplifiedShape(items[i]);
    }
  }

  lemma AlwaysGrants(view: set<string>)
    ensures Grants(Always, view)
  {
  }

  lemma PartsQuiet(items: seq<Access>)
    ensures !Panics(Or(items)) || !Panics(And(items)) ==> forall i :: 0 <= i < |items| ==> !Panics(items[i])
  {
  }

  /** A simplified disjunction lets through whom some simplified part lets through. */
  lemma OrValue(items: seq<Access>, view: set<string>)
    requires !Panics(Or(items)) && items != []
    ensures (forall i :: 0 <= i < |items| ==> Simplified(items[i]).Some?) && Simplified(Or(items)).Some?
    ensures Grants(Simplified(Or(items)).value, view) <==> SomeGrants(Parts(items), view)
  {
    AlwaysGrants(view);
    PartsQuiet(items);
    hide *;
    PartsSimplified(items);
    SimplifiedShape(Or(items));
    SimplifiedCases(items);
    var ops := AllClauses(Parts(items), Or([]));
    AllClausesGrant(Parts(items), view);
    if ops != {} {
      FactoredOrGrants(ops, view);
    }
  }

  /** A simplified conjunction lets through nobody whom some simplified part denies. */
  lemma AndValue(items: seq<Access>, view: set<string>)
    requires !Panics(And(items)) && items != []
    ensures (forall i :: 0 <= i < |items| ==> Simplified(items[i]).Some?) && Simplified(And(items)).Some?
    ensures Grants(Simplified(And(items)).value, view) ==> AllGrant(Parts(items), view)
    ensures !Sharing(AllClauses(Parts(items), And([]))) && AllGrant(Parts(items), view) ==>
              Grants(Simplified(And(items)).value, view)
  {
    PartsQuiet(items);
    hide *;
    PartsSimplified(items);
    SimplifiedShape(And(items));
    SimplifiedCases(items);
    var ops := AllClauses(Parts(items), And([]));
    ProperAllClauses(Parts(items), And([]));
    AllClausesGrant(Parts(items), view);
    if ops != {} {
      FactoredAndNarrows(ops, view);
    }
  }

  /**
   Wherever `simplify` does not panic and no empty `Or` is taken for `Always`, it lets through
   nobody whom the expression denies; and it lets through exactly the same where no conjunction
   has operands that share a term and differ.
   */
  lemma {:induction false} SimplifyNarrows(a: Access, view: set<string>)
    requires !Panics(a) && NoEmptyOr(a)
    ensures Simplified(a).Some?
    ensures Grants(Simplified(a).value, view) ==> Grants(a, view)
    ensures NothingShared(a) && Grants(a, view) ==> Grants(Simplified(a).value, view)
  {
    SimplifiedShape(a);
    if (a.Or? || a.And?) && a.items != [] {
      forall i | 0 <= i < |a.items|
        ensures !Panics(a.items[i]) && Simplified(a.items[i]).Some?
        ensures Grants(Simplified(a.items[i]).value, view) ==> Grants(a.items[i], view)
        ensures NothingShared(a.items[i]) && Grants(a.items[i], view) ==> Grants(Simplified(a.items[i]).value, view)
      {
        SimplifyNarrows(a.items[i], view);
      }
      if a.Or? {
        OrValue(a.items, view);
        OrFollows(a.items, view);
      } else {
        AndValue(a.items, view);
        AndFollows(a.items, view);
      }
    }
  }

  lemma OrFollows(items: seq<Access>, view: set<string>)
    requires forall i :: 0 <= i < |items| ==> Simplified(items[i]).Some?
    requires forall i :: 0 <= i < |items| ==> Grants(Simplified(items[i]).value, view) ==> Grants(items[i], view)
    requires forall i :: 0 <= i < |items| ==>
               NothingShared(items[i]) && Grants(items[i], view) ==> Grants(Simplified(items[i]).value, view)
    ensures SomeGrants(Parts(items), view) ==> Grants(Or(items), view)
    ensures NothingShared(Or(items)) && Grants(Or(items), view) ==> SomeGrants(Parts(items), view)
  {
    var parts := Parts(items);
    if i :| 0 <= i < |parts| && Grants(parts[i], view) {
      assert Grants(items[i], view);
    }
    if NothingShared(Or(items)) && Grants(Or(items), view) {
      var i :| 0 <= i < |items| && Grants(items[i], view);
      assert Grants(parts[i], view);
    }
  }

  lemma AndFollows(items: seq<Access>, view: set<string>)
    requires forall i :: 0 <= i < |items| ==> Simplified(items[i]).Some?
    requires forall i :: 0 <= i < |items| ==> Grants(Simplified(items[i]).value, view) ==> Grants(items[i], view)
    requires forall i :: 0 <= i < |items| ==>
               NothingShared(items[i]) && Grants(items[i], view) ==> Grants(Simplified(items[i]).value, view)
    ensures AllGrant(Parts(items), view) ==> Grants(And(items), view)
    ensures NothingShared(And(items)) && Grants(And(items), view) ==> AllGrant(Parts(items), view)
    ensures NothingShared(And(items)) ==> !Sharing(AllClauses(Parts(items), And([])))
  {
    var parts := Parts(items);
    if NothingShared(And(items)) && Grants(And(items), view) {
      forall i | 0 <= i < |parts| ensures Grants(parts[i], view) {
        assert NothingShared(items[i]) && Grants(items[i], view);
      }
    }
  }

  /** An empty `Or` denies everybody; simplified, it lets everybody through. */
  lemma EmptyOrOpens(view: set<string>)
    ensures !Grants(Or([]), view) && Simplified(Or([])) == Some(Always)
  {
  }

  ghost predicate TokensOnly(ops: set<set<Access>>) {
    forall op, x :: op in ops && x in op ==> x.Token?
  }

  /**
   For a conjunction whose operands are lists of tokens the condition is exact: simplifying it
   keeps the viewers just when the operands do not share a token while differing.
   */
  lemma NarrowsIffSharing(items: seq<Access>)
    requires items != [] && !Panics(And(items)) && NoEmptyOr(And(items))
    requires forall i :: 0 <= i < |items| ==> NothingShared(items[i])
    requires forall i :: 0 <= i < |items| ==> Simplified(items[i]).Some?
    requires Simplified(And(items)).Some?
    requires TokensOnly(AllClauses(Parts(items), And([])))
    ensures (forall view :: Grants(Simplified(And(items)).value, view) <==> Grants(And(items), view))
       <==> !Sharing(AllClauses(Parts(items), And([])))
  {
    var ops := AllClauses(Parts(items), And([]));
    assert NothingShared(And(items)) <==> !Sharing(ops);
    hide NothingShared; hide AllClauses; hide NoEmptyOr; hide Panics; hide Simplified;
    if Sharing(ops) {
      var c :| c in Common(ops);
      assert c.Token? by {
        var op :| op in ops;
        assert c in op;
      }
      SharingNarrows(items, c, {c.name});
    } else {
      forall view ensures Grants(Simplified(And(items)).value, view) <==> Grants(And(items), view) {
        SimplifyNarrows(And(items), view);
      }
    }
  }

  /** A viewer with nothing but a shared token has a term of every operand, but none of some remainder. */
  lemma SharedToken(ops: set<set<Access>>, c: Access, view: set<string>)
    requires ops != {} && TokensOnly(ops) && Rests(ops) != {}
    requires c in Common(ops) && c.Token? && view == {c.name}
    ensures EachAny(ops, view) && !EachAny(Rests(ops), view)
  {
    assert Grants(c, view);
    forall op | op in ops ensures AnyOf(op, view) {
      assert c in op;
    }
    var r :| r in Rests(ops);
    var from := RestFrom(ops, r);
    forall x | x in r ensures !Grants(x, view) {
      assert x in from && x !in Common(ops);
      assert x.Token? && x != c;
    }
    assert !AnyOf(r, view);
  }

  /** The viewer of `SharedToken` passes the conjunction, but not its simplified form. */
  lemma SharingNarrows(items: seq<Access>, c: Access, view: set<string>)
    requires items != [] && !Panics(And(items)) && NoEmptyOr(And(items))
    requires forall i :: 0 <= i < |items| ==> Simplified(items[i]).Some?
    requires Simplified(And(items)).Some?
    requires var ops := AllClauses(Parts(items), And([]));
             TokensOnly(ops) && Sharing(ops) && c in Common(ops) && c.Token? && view == {c.name}
    ensures Grants(And(items), view) && !Grants(Simplified(And(items)).value, view)
  {
    var ops := AllClauses(Parts(items), And([]));
    assert ops != {} by { assert Common({}) == {}; }
    SharingIs(ops);
    ItemsGrant(items, view);
    PartsQuiet(items);
    hide *;
    SharedToken(ops, c, view);
    AllClausesGrant(Parts(items), view);
    PartsSimplified(items);
    ProperAllClauses(Parts(items), And([]));
    SimplifiedCases(items);
    FactoredAndGrants(ops, view);
  }

  lemma ItemsGrant(items: seq<Access>, view: set<string>)
    requires !Panics(And(items)) && NoEmptyOr(And(items))
    requires forall i :: 0 <= i < |items| ==> Simplified(items[i]).Some?
    ensures AllGrant(Parts(items), view) ==> Grants(And(items), view)
  {
    if AllGrant(Parts(items), view) {
      forall i | 0 <= i < |items| ensures Grants(items[i], view) {
        assert NoEmptyOr(items[i]) && !Panics(items[i]);
        SimplifyNarrows(items[i], view);
        assert Grants(Parts(items)[i], view);
      }
    }
  }
}
