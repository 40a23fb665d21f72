/** The Conflict Checker page: a checkbox per possible conflict of interest
    and a count-based verdict (app.py, "Conflict Checker" page). */
module Conflicts {
  import opened Seqs

  /** A conflict's checkbox is labelled with the conflict's own text. */
  function ConflictLabel(c: string): string
  {
    c
  }

  /** The verdict box: either "N Potential Conflicts Detected!" or "No
      obvious conflicts detected". */
  datatype ConflictSummary = Detected(count: nat) | NoConflicts

  /** The collecting loop of app.py: `detected_conflicts` receives, in list
      order, every conflict whose box is ticked. */
  method DetectConflicts(conflicts: seq<string>, checked: set<string>)
    returns (detected: seq<string>)
    ensures detected == Filter(conflicts, LabelIn(ConflictLabel, checked))
    ensures forall c :: c in detected <==> c in conflicts && c in checked
    ensures SubsequenceOf(detected, conflicts)
  {
    detected := [];
    var i := 0;
    while i < |conflicts|
      invariant 0 <= i <= |conflicts|
      invariant detected == Filter(conflicts[..i], LabelIn(ConflictLabel, checked))
    {
      var conflict := conflicts[i];
      assert conflicts[..i + 1] == conflicts[..i] + [conflict];
      FilterSnoc(conflicts[..i], conflict, LabelIn(ConflictLabel, checked));
      assert ConflictLabel(conflict) == conflict;
      assert LabelIn(ConflictLabel, checked)(conflict) == (conflict in checked);
      if conflict in checked {
        detected := detected + [conflict];
      }
      i := i + 1;
    }
    assert conflicts[..i] == conflicts;
    FilterIsSubsequence(conflicts, LabelIn(ConflictLabel, checked));
    FilterMembers(conflicts, LabelIn(ConflictLabel, checked));
    forall c ensures LabelIn(ConflictLabel, checked)(c) == (c in checked) {
      assert ConflictLabel(c) == c;
    }
  }

  /** `if detected_conflicts:` -- a non-empty list reports its length. */
  function Summarize(detected: seq<string>): (s: ConflictSummary)
    ensures s.Detected? ==> s.count == |detected| && s.count > 0
    ensures s == NoConflicts <==> detected == []
  {
    if |detected| > 0 then Detected(|detected|) else NoConflicts
  }

  /** The page reports "no conflicts" exactly when no listed conflict is
      ticked, and otherwise a count between one and the length of the list. */
  lemma SummaryMatchesTicks(conflicts: seq<string>, checked: set<string>)
    ensures var s := Summarize(Filter(conflicts, LabelIn(ConflictLabel, checked)));
            (s == NoConflicts <==> forall c :: c in conflicts ==> c !in checked) &&
            (s.Detected? ==> 1 <= s.count <= |conflicts|)
  {
    var d := Filter(conflicts, LabelIn(ConflictLabel, checked));
    FilterMembers(conflicts, LabelIn(ConflictLabel, checked));
    forall c ensures c in d <==> c in conflicts && c in checked {
      assert ConflictLabel(c) == c;
      assert LabelIn(ConflictLabel, checked)(c) == (c in checked);
    }
    if d != [] {
      assert d[0] in d;
    }
  }
}
