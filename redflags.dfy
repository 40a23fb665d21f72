/** The Red Flag Checker page: the flags of `red_flag_database` grouped by
    category, a checkbox per flag, a notice per ticked flag and a summary
    verdict (app.py, "Red Flag Checker" page). */
module RedFlags {
  import opened Seqs

  /** One record of `red_flag_database`. */
  datatype RedFlagDetails = RedFlagDetails(
    severity: string,
    category: string,
    description: string,
    whyDangerous: string,
    immediateAction: string,
    legalStatus: string)

  /** A red flag: the behaviour (also the checkbox label) and its record. */
  type RedFlagEntry = (string, RedFlagDetails)

  /** A flag's checkbox label: the behaviour itself. */
  function FlagName(e: RedFlagEntry): string
  {
    e.0
  }

  function FlagCategory(e: RedFlagEntry): string
  {
    e.1.category
  }

  /** The keys of the `categories` dict: each category once, in the order
      of its first appearance in the table. */
  function Categories(table: seq<RedFlagEntry>): (cs: seq<string>)
    ensures Distinct(cs)
    ensures forall c :: c in cs <==> exists e :: e in table && e.1.category == c
  {
    if table == [] then []
    else
      var init, last := table[..|table| - 1], table[|table| - 1];
      assert table == init + [last];
      var cs := Categories(init);
      if last.1.category in cs then cs else cs + [last.1.category]
  }

  /** First-appearance order: the categories met in any prefix of the table
      are a prefix of the categories of the whole table, so a category that
      first appears earlier is listed earlier. */
  lemma {:induction false} CategoriesPrefix(table: seq<RedFlagEntry>, n: nat)
    requires n <= |table|
    ensures Categories(table[..n]) <= Categories(table)
    decreases |table| - n
  {
    if n == |table| {
      assert table[..n] == table;
    } else {
      var t := table[..n + 1];
      assert t[..|t| - 1] == table[..n];
      assert Categories(table[..n]) <= Categories(t);
      CategoriesPrefix(table, n + 1);
    }
  }

  /** The grouping loop of app.py: for each flag in table order, open an
      empty list for a category not seen before, then append the flag to its
      category's list.  The dict is its key order plus its key-to-list map. */
  method GroupByCategory(table: seq<RedFlagEntry>)
    returns (order: seq<string>, lists: map<string, seq<RedFlagEntry>>)
    ensures order == Categories(table)
    ensures forall c :: c in lists <==> c in order
    ensures forall c :: c in lists ==> lists[c] == ByKey(table, FlagCategory, c)
  {
    order, lists := [], map[];
    var i := 0;
    while i < |table|
      invariant 0 <= i <= |table|
      invariant order == Categories(table[..i])
      invariant Grouped(table[..i], order, lists)
    {
      var (flag, details) := table[i];
      var category := details.category;
      assert table[..i + 1] == table[..i] + [(flag, details)];
      CategoriesSnoc(table[..i], (flag, details));
      if category !in lists {
        OpenCategory(table[..i], category, order, lists);
        lists := lists[category := []];
        order := order + [category];
      }
      AppendToCategory(table[..i], (flag, details), order, lists);
      lists := lists[category := lists[category] + [(flag, details)]];
      i := i + 1;
    }
    assert table[..i] == table;
  }

  /** The grouping loop's invariant on the dict: its keys are `order` and
      each key's list holds that category's flags of `prefix`, in order. */
  ghost predicate Grouped(prefix: seq<RedFlagEntry>, order: seq<string>,
                          lists: map<string, seq<RedFlagEntry>>)
  {
    (forall c :: c in lists <==> c in order) &&
    (forall c :: c in lists ==> lists[c] == ByKey(prefix, FlagCategory, c))
  }

  /** Opening an empty list for a category not seen before keeps the dict
      faithful to the flags seen so far. */
  lemma OpenCategory(prefix: seq<RedFlagEntry>, k: string, order: seq<string>,
                     lists: map<string, seq<RedFlagEntry>>)
    requires order == Categories(prefix)
    requires Grouped(prefix, order, lists)
    requires k !in lists
    ensures Grouped(prefix, order + [k], lists[k := []])
  {
    NoEntriesOfUnseenCategory(prefix, k);
  }

  /** Appending a flag to its category's list extends the dict to one more
      flag of the table. */
  lemma AppendToCategory(prefix: seq<RedFlagEntry>, e: RedFlagEntry, order: seq<string>,
                         lists: map<string, seq<RedFlagEntry>>)
    requires Grouped(prefix, order, lists)
    requires e.1.category in lists
    ensures Grouped(prefix + [e], order, lists[e.1.category := lists[e.1.category] + [e]])
  {
    var lists' := lists[e.1.category := lists[e.1.category] + [e]];
    forall c | c in lists' ensures lists'[c] == ByKey(prefix + [e], FlagCategory, c) {
      ByCategorySnoc(prefix, e, c);
    }
  }

  /** How one more flag extends the categories seen so far. */
  lemma CategoriesSnoc(prefix: seq<RedFlagEntry>, e: RedFlagEntry)
    ensures Categories(prefix + [e]) ==
            if e.1.category in Categories(prefix) then Categories(prefix)
            else Categories(prefix) + [e.1.category]
  {
    var t := prefix + [e];
    assert t[..|t| - 1] == prefix && t[|t| - 1] == e;
  }

  /** How one more flag extends the list of its own category, and of no
      other. */
  lemma ByCategorySnoc(prefix: seq<RedFlagEntry>, e: RedFlagEntry, c: string)
    ensures ByKey(prefix + [e], FlagCategory, c) ==
            if e.1.category == c then ByKey(prefix, FlagCategory, c) + [e] else ByKey(prefix, FlagCategory, c)
  {
    FilterSnoc(prefix, e, KeyIs(FlagCategory, c));
    assert FlagCategory(e) == e.1.category;
  }

  /** A category not among those seen so far has no flag yet. */
  lemma NoEntriesOfUnseenCategory(table: seq<RedFlagEntry>, c: string)
    requires c !in Categories(table)
    ensures ByKey(table, FlagCategory, c) == []
  {
    forall e | e in table ensures !KeyIs(FlagCategory, c)(e) {
      assert FlagCategory(e) == e.1.category;
    }
    FilterNone(table, KeyIs(FlagCategory, c));
  }

  /** The flags in the order the page lists them: category by category, in
      key order, each category's list in its own order. */
  function Flatten(order: seq<string>, lists: map<string, seq<RedFlagEntry>>): seq<RedFlagEntry>
    requires forall c :: c in order ==> c in lists
  {
    if order == [] then []
    else Flatten(order[..|order| - 1], lists) + lists[order[|order| - 1]]
  }

  lemma {:induction false} FlattenIsConcatFilters(table: seq<RedFlagEntry>, order: seq<string>,
                                                   lists: map<string, seq<RedFlagEntry>>)
    requires forall c :: c in order ==> c in lists && lists[c] == ByKey(table, FlagCategory, c)
    ensures Flatten(order, lists) == ConcatFilters(table, FlagCategory, order)
  {
    if order != [] {
      FlattenIsConcatFilters(table, order[..|order| - 1], lists);
    }
  }

  /** Grouping loses and duplicates nothing: listing the groups one after the
      other gives a permutation of the table. */
  lemma GroupingIsPermutation(table: seq<RedFlagEntry>, order: seq<string>,
                              lists: map<string, seq<RedFlagEntry>>)
    requires order == Categories(table)
    requires forall c :: c in lists <==> c in order
    requires forall c :: c in lists ==> lists[c] == ByKey(table, FlagCategory, c)
    ensures multiset(Flatten(order, lists)) == multiset(table)
  {
    FlattenIsConcatFilters(table, order, lists);
    assert forall e :: e in table ==> FlagCategory(e) in order;
    PartitionByKey(table, FlagCategory, order);
  }

  /** Each group lists, in table order, exactly the flags of its category,
      and the groups come in the order their categories first appear. */
  lemma GroupsKeepTableOrder(table: seq<RedFlagEntry>, order: seq<string>,
                             lists: map<string, seq<RedFlagEntry>>)
    requires order == Categories(table)
    requires forall c :: c in lists <==> c in order
    requires forall c :: c in lists ==> lists[c] == ByKey(table, FlagCategory, c)
    ensures forall n :: 0 <= n <= |table| ==> Categories(table[..n]) <= order
    ensures forall c :: c in lists ==> SubsequenceOf(lists[c], table)
    ensures forall c, e :: c in lists ==> (e in lists[c] <==> e in table && e.1.category == c)
  {
    forall n | 0 <= n <= |table| ensures Categories(table[..n]) <= order {
      CategoriesPrefix(table, n);
    }
    forall c | c in lists ensures SubsequenceOf(lists[c], table) {
      FilterIsSubsequence(table, KeyIs(FlagCategory, c));
    }
    forall c, e | c in lists ensures e in lists[c] <==> e in table && e.1.category == c {
      FilterMembers(table, KeyIs(FlagCategory, c));
      assert FlagCategory(e) == e.1.category;
    }
  }

  /** The test of the `critical_flags` counter. */
  predicate IsCritical(e: RedFlagEntry)
  {
    e.1.severity == "Critical"
  }

  /** The counting loops of app.py: walk the groups in key order and each
      group's flags in order; every ticked flag adds one to `total_flagged`,
      and one to `critical_flags` when its severity is "Critical", and gets a
      notice.  `shown` lists the ticked flags in the order their notices
      appear. */
  method Tally(order: seq<string>, lists: map<string, seq<RedFlagEntry>>, checked: set<string>)
    returns (total: nat, critical: nat, shown: seq<RedFlagEntry>)
    requires forall c :: c in order ==> c in lists
    ensures shown == Filter(Flatten(order, lists), LabelIn(FlagName, checked))
    ensures total == |shown|
    ensures critical == |Filter(shown, IsCritical)|
    ensures critical <= total
  {
    total, critical, shown := 0, 0, [];
    var g := 0;
    while g < |order|
      invariant 0 <= g <= |order|
      invariant shown == Filter(Flatten(order[..g], lists), LabelIn(FlagName, checked))
      invariant total == |shown|
      invariant critical == |Filter(shown, IsCritical)|
    {
      var flags := lists[order[g]];
      ghost var done := Flatten(order[..g], lists);
      var f := 0;
      assert done + flags[..0] == done;
      while f < |flags|
        invariant 0 <= f <= |flags|
        invariant shown == Filter(done + flags[..f], LabelIn(FlagName, checked))
        invariant total == |shown|
        invariant critical == |Filter(shown, IsCritical)|
      {
        var (flag, details) := flags[f];
        TallyStep(done, flags, f, checked);
        if flag in checked {
          shown := shown + [(flag, details)];
          total := total + 1;
          if details.severity == "Critical" {
            critical := critical + 1;
          }
        }
        f := f + 1;
      }
      assert flags[..f] == flags;
      FlattenSnoc(order, lists, g);
      g := g + 1;
    }
    assert order[..g] == order;
  }

  /** One more group in the listing order. */
  lemma FlattenSnoc(order: seq<string>, lists: map<string, seq<RedFlagEntry>>, g: nat)
    requires forall c :: c in order ==> c in lists
    requires g < |order|
    ensures Flatten(order[..g + 1], lists) == Flatten(order[..g], lists) + lists[order[g]]
  {
    assert order[..g + 1][..g] == order[..g];
  }

  /** One more flag seen by the counting loops: it is shown when ticked, and
      then counted as critical when its severity is "Critical". */
  lemma TallyStep(done: seq<RedFlagEntry>, flags: seq<RedFlagEntry>, f: nat, checked: set<string>)
    requires f < |flags|
    ensures var before := Filter(done + flags[..f], LabelIn(FlagName, checked));
            Filter(done + flags[..f + 1], LabelIn(FlagName, checked)) ==
              (if flags[f].0 in checked then before + [flags[f]] else before) &&
            |Filter(before + [flags[f]], IsCritical)| ==
              |Filter(before, IsCritical)| + (if flags[f].1.severity == "Critical" then 1 else 0)
  {
    var seen := done + flags[..f];
    assert done + flags[..f + 1] == seen + [flags[f]];
    FilterSnoc(seen, flags[f], LabelIn(FlagName, checked));
    FilterSnoc(Filter(seen, LabelIn(FlagName, checked)), flags[f], IsCritical);
  }

  /** The notice tier shown under a ticked flag. */
  datatype SeverityTier = Critical | HighRisk | MediumRisk

  /** "Critical" is critical, "High" high risk, anything else medium risk. */
  function Severity(severity: string): (t: SeverityTier)
    ensures t == Critical <==> severity == "Critical"
    ensures t == HighRisk <==> severity == "High"
    ensures t == MediumRisk <==> severity != "Critical" && severity != "High"
  {
    if severity == "Critical" then Critical
    else if severity == "High" then HighRisk
    else MediumRisk
  }

  /** The verdict at the bottom of the page. */
  datatype Summary = CriticalWarning | Warning | Caution | Clear

  /** The summary as app.py nests it: the critical test sits inside
      `if total_flagged > 0`. */
  function SummaryOf(total: nat, critical: nat): (s: Summary)
    ensures s == Clear <==> total == 0
    ensures s == CriticalWarning <==> total > 0 && critical > 0
    ensures s == Warning <==> total >= 3 && critical == 0
    ensures s == Caution <==> 1 <= total <= 2 && critical == 0
  {
    if total > 0 then
      if critical > 0 then CriticalWarning
      else if total >= 3 then Warning
      else Caution
    else Clear
  }

  /** The flat precedence chain: critical first, then three or more, then at
      least one, then nothing. */
  function Precedence(total: nat, critical: nat): Summary
  {
    if critical > 0 then CriticalWarning
    else if total >= 3 then Warning
    else if total > 0 then Caution
    else Clear
  }

  /** With the counters' invariant `critical <= total`, the nested code and
      the flat chain agree; without it they would not (no flags but one
      critical flag). */
  lemma SummaryFollowsPrecedence(total: nat, critical: nat)
    ensures critical <= total ==> SummaryOf(total, critical) == Precedence(total, critical)
    ensures SummaryOf(0, 1) != Precedence(0, 1)
  {
  }

  /** The thresholds: a critical flag dominates whatever the total, two
      flags are a caution, three a warning. */
  lemma SummaryBoundaries(total: nat)
    ensures total >= 1 ==> SummaryOf(total, 1) == CriticalWarning
    ensures SummaryOf(2, 0) == Caution && SummaryOf(3, 0) == Warning
    ensures SummaryOf(1, 0) == Caution && SummaryOf(0, 0) == Clear
  {
  }

  /** The verdict read back on the table: a critical warning exactly when a
      ticked flag is critical, clear exactly when nothing is ticked, and
      otherwise warning or caution by the number of ticked flags. */
  lemma VerdictOnTable(table: seq<RedFlagEntry>, checked: set<string>)
    ensures var ticked := Filter(table, LabelIn(FlagName, checked));
            var summary := SummaryOf(|ticked|, |Filter(ticked, IsCritical)|);
            (summary == CriticalWarning <==>
               exists e :: e in table && e.0 in checked && e.1.severity == "Critical") &&
            (summary == Clear <==> forall e :: e in table ==> e.0 !in checked) &&
            (summary == Warning <==>
               |ticked| >= 3 && forall e :: e in table && e.0 in checked ==> e.1.severity != "Critical") &&
            (summary == Caution <==>
               1 <= |ticked| <= 2 && forall e :: e in table && e.0 in checked ==> e.1.severity != "Critical")
  {
    var ticked := Filter(table, LabelIn(FlagName, checked));
    var crit := Filter(ticked, IsCritical);
    FilterMembers(table, LabelIn(FlagName, checked));
    FilterMembers(ticked, IsCritical);
    forall e ensures e in crit <==> e in table && e.0 in checked && e.1.severity == "Critical" {
      assert FlagName(e) == e.0;
      assert LabelIn(FlagName, checked)(e) == (e.0 in checked);
    }
    forall e ensures e in ticked <==> e in table && e.0 in checked {
      assert FlagName(e) == e.0;
      assert LabelIn(FlagName, checked)(e) == (e.0 in checked);
    }
    assert |crit| > 0 <==> exists e :: e in crit by {
      if |crit| > 0 { assert crit[0] in crit; }
    }
    assert |ticked| > 0 <==> exists e :: e in ticked by {
      if |ticked| > 0 { assert ticked[0] in ticked; }
    }
  }

  /** The whole page: group, count the ticked flags, pick the verdict.  The
      notices appear category by category, each category's flags in table
      order; the counters and the verdict are stated against the table
      itself, so the grouping is shown to change no count. */
  method CheckRedFlags(table: seq<RedFlagEntry>, checked: set<string>)
    returns (order: seq<string>, lists: map<string, seq<RedFlagEntry>>,
             total: nat, critical: nat, shown: seq<RedFlagEntry>, summary: Summary)
    ensures order == Categories(table)
    ensures forall c :: c in lists <==> c in order
    ensures forall c :: c in lists ==> lists[c] == ByKey(table, FlagCategory, c)
    ensures shown == Filter(Flatten(order, lists), LabelIn(FlagName, checked))
    ensures multiset(shown) == multiset(Filter(table, LabelIn(FlagName, checked)))
    ensures total == |Filter(table, LabelIn(FlagName, checked))|
    ensures critical == |Filter(Filter(table, LabelIn(FlagName, checked)), IsCritical)|
    ensures summary == CriticalWarning <==>
              exists e :: e in table && e.0 in checked && e.1.severity == "Critical"
    ensures summary == Clear <==> forall e :: e in table ==> e.0 !in checked
    ensures summary == Warning <==>
              total >= 3 && forall e :: e in table && e.0 in checked ==> e.1.severity != "Critical"
    ensures summary == Caution <==>
              1 <= total <= 2 && forall e :: e in table && e.0 in checked ==> e.1.severity != "Critical"
  {
    order, lists := GroupByCategory(table);
    total, critical, shown := Tally(order, lists, checked);
    summary := SummaryOf(total, critical);
    GroupingIsPermutation(table, order, lists);
    var ticked := Filter(table, LabelIn(FlagName, checked));
    FilterSameMultiset(Flatten(order, lists), table, LabelIn(FlagName, checked));
    FilterSameMultiset(shown, ticked, IsCritical);
    VerdictOnTable(table, checked);
  }
}
