/**
 What becomes of the access control of a file that is sighted again (`_update_file_access`,
 src/worker/database_sqlite.rs): the stored text is parsed, joined with the access of the new
 sighting and simplified.
 */
module AccessUpdate {
  import opened Sorting
  import opened Access
  import opened AccessSimplify
  import Text = AccessText

  /** No empty list anywhere, and `Always` only by itself. */
  predicate Sane(a: Access) {
    a.Always? || Proper(a)
  }

  lemma {:induction false} ProperIsQuiet(a: Access)
    requires Proper(a)
    ensures !Panics(a) && NoEmptyOr(a) && !Open(a)
  {
    if a.Or? || a.And? {
      forall i | 0 <= i < |a.items| ensures !Panics(a.items[i]) && NoEmptyOr(a.items[i]) && !Open(a.items[i]) {
        ProperIsQuiet(a.items[i]);
      }
      assert !Open(a.items[0]);
    }
  }

  lemma OrSane(a: Access, b: Access)
    requires Sane(a) && Sane(b)
    ensures Sane(OrOf(a, b))
  {
    if !a.Always? && !b.Always? {
      var all := Disjuncts(a) + Disjuncts(b);
      SortDedupMembers(all, Leq);
      var collected := SortDedup(all, Leq);
      forall i | 0 <= i < |collected| ensures Proper(collected[i]) {
        assert collected[i] in all;
      }
    }
  }

  lemma {:induction false} SortedSane(a: Access)
    requires Proper(a)
    ensures Proper(Text.Sorted(a))
  {
    if a.Or? || a.And? {
      var parts := Text.SortedAll(a.items);
      Text.SortedAllAt(a.items);
      forall i | 0 <= i < |parts| ensures Proper(parts[i]) {
        SortedSane(a.items[i]);
      }
      SortMembers(parts, Leq);
      SameMembers(Sort(parts, Leq), parts);
      var sorted := Sort(parts, Leq);
      forall i | 0 <= i < |sorted| ensures Proper(sorted[i]) {
        assert sorted[i] in parts;
      }
    }
  }

  /**
   A new sighting never opens a file to anybody whom both the stored access and the new one deny;
   and it opens it to everybody whom either lets through, unless simplifying narrows a conjunction.
   */
  lemma UpdateNeverLeaks(stored: Access, added: Access, view: set<string>)
    requires Sane(stored) && Sane(added) && Text.Printable(stored)
    ensures Text.Parse(Text.Print(stored)).Some?
    ensures var joined := OrOf(Text.Parse(Text.Print(stored)).value, added);
            && !Panics(joined) && Simplified(joined).Some?
            && (Grants(Simplified(joined).value, view) ==> Grants(stored, view) || Grants(added, view))
            && (NothingShared(joined) && (Grants(stored, view) || Grants(added, view)) ==>
                  Grants(Simplified(joined).value, view))
  {
    Text.RoundTrip(stored);
    var parsed := Text.Sorted(stored);
    Text.SortedGrants(stored, view);
    if !stored.Always? { SortedSane(stored); }
    OrSane(parsed, added);
    var joined := OrOf(parsed, added);
    OrGrants(parsed, added, view);
    if !joined.Always? { ProperIsQuiet(joined); }
    assert parsed != Or([]);
    hide *;
    QuietAlways();
    SimplifyNarrows(joined, view);
  }

  lemma QuietAlways()
    ensures !Panics(Always) && NoEmptyOr(Always)
  {
  }
}
