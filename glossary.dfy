/** The Glossary page: a search box over `glossary_database` and, when the
    box is empty, four category tabs (app.py, "Glossary" page). */
module Glossary {
  import opened Text
  import opened Seqs

  /** One record of `glossary_database`. */
  datatype GlossaryDetails = GlossaryDetails(
    definition: string,
    consumerImpact: string,
    negotiable: bool,
    redFlagLevel: string,
    category: string,
    whatToAsk: string)

  /** A glossary entry: the term and its record. */
  type GlossaryEntry = (string, GlossaryDetails)

  /** The search condition of app.py: the lower-cased search term occurs in
      the lower-cased term, definition or consumer impact.  `what_to_ask`,
      `category` and the other fields are not searched. */
  predicate Hit(term: string, e: GlossaryEntry)
  {
    Contains(Lower(term), Lower(e.0)) ||
    Contains(Lower(term), Lower(e.1.definition)) ||
    Contains(Lower(term), Lower(e.1.consumerImpact))
  }

  /** `Hit(term, _)` as a filter predicate. */
  function Matches(term: string): GlossaryEntry -> bool
  {
    e => Hit(term, e)
  }

  /** The category of an entry, as the tab comprehensions read it. */
  function Category(e: GlossaryEntry): string
  {
    e.1.category
  }

  /** The four tab names, in tab order. */
  const TabCategories: seq<string> := ["Financial", "Property", "Market", "Legal"]

  /** What the page lists: the search results for a non-empty search term,
      otherwise the four category tabs. */
  datatype GlossaryView =
    | SearchResults(found: seq<GlossaryEntry>)
    | Browse(financial: seq<GlossaryEntry>, property: seq<GlossaryEntry>,
             market: seq<GlossaryEntry>, legal: seq<GlossaryEntry>)

  /** Specification of the page's listing. */
  function View(table: seq<GlossaryEntry>, term: string): (v: GlossaryView)
    ensures v.SearchResults? <==> term != []
    ensures v.SearchResults? ==> forall e :: e in v.found <==> e in table && Hit(term, e)
  {
    if term == [] then
      Browse(ByKey(table, Category, "Financial"), ByKey(table, Category, "Property"),
             ByKey(table, Category, "Market"), ByKey(table, Category, "Legal"))
    else
      FilterMembers(table, Matches(term));
      SearchResults(Filter(table, Matches(term)))
  }

  /** The search loop of app.py: `filtered_terms` starts empty and receives,
      in table order, every entry the search term hits. */
  method Search(table: seq<GlossaryEntry>, term: string) returns (found: seq<GlossaryEntry>)
    ensures found == Filter(table, Matches(term))
    ensures forall e :: e in found <==>
              e in table &&
              (IsSubstring(Lower(term), Lower(e.0)) ||
               IsSubstring(Lower(term), Lower(e.1.definition)) ||
               IsSubstring(Lower(term), Lower(e.1.consumerImpact)))
  {
    var t := Lower(term);
    found := [];
    var i := 0;
    while i < |table|
      invariant 0 <= i <= |table|
      invariant found == Filter(table[..i], Matches(term))
    {
      var (name, details) := table[i];
      FilterSnoc(table[..i], table[i], Matches(term));
      assert table[..i + 1] == table[..i] + [table[i]];
      if Contains(t, Lower(name)) || Contains(t, Lower(details.definition)) ||
         Contains(t, Lower(details.consumerImpact)) {
        found := found + [(name, details)];
      }
      i := i + 1;
    }
    assert table[..i] == table;
    FilterMembers(table, Matches(term));
  }

  /** The search is an order-preserving filter that keeps records intact:
      the results appear in table order, every result is an entry of the
      table with its own record, distinct entries stay distinct, and a
      table whose terms are distinct (the keys of `glossary_database`) gives
      results whose terms are distinct, so that keeping results in a dict
      or in a list comes to the same. */
  lemma SearchPreservesTable(table: seq<GlossaryEntry>, term: string)
    requires term != []
    ensures View(table, term).SearchResults?
    ensures SubsequenceOf(View(table, term).found, table)
    ensures forall e :: e in View(table, term).found ==> e in table
    ensures Distinct(table) ==> Distinct(View(table, term).found)
    ensures DistinctKeys(table) ==> DistinctKeys(View(table, term).found)
  {
    FilterIsSubsequence(table, Matches(term));
    FilterMembers(table, Matches(term));
    if Distinct(table) {
      SubsequenceKeepsDistinct(Filter(table, Matches(term)), table);
    }
    if DistinctKeys(table) {
      SubsequenceKeepsDistinctKeys(Filter(table, Matches(term)), table);
    }
  }

  /** Only the term, the definition and the consumer impact are searched:
      two tables that agree on those three fields, entry by entry, yield the
      same terms, whatever their `what_to_ask`, category, level or
      negotiability. */
  lemma {:induction false} SearchScope(t1: seq<GlossaryEntry>, t2: seq<GlossaryEntry>, term: string)
    requires |t1| == |t2|
    requires forall i :: 0 <= i < |t1| ==>
               t1[i].0 == t2[i].0 && t1[i].1.definition == t2[i].1.definition &&
               t1[i].1.consumerImpact == t2[i].1.consumerImpact
    ensures |Filter(t1, Matches(term))| == |Filter(t2, Matches(term))|
    ensures forall i :: 0 <= i < |Filter(t1, Matches(term))| ==>
              Filter(t1, Matches(term))[i].0 == Filter(t2, Matches(term))[i].0
  {
    if t1 != [] {
      SearchScope(t1[1..], t2[1..], term);
      assert Hit(term, t1[0]) == Hit(term, t2[0]);
    }
  }

  /** A term that occurs only in `what_to_ask` finds nothing. */
  lemma WhatToAskNotSearched(e: GlossaryEntry, term: string)
    requires IsSubstring(Lower(term), Lower(e.1.whatToAsk))
    requires !IsSubstring(Lower(term), Lower(e.0))
    requires !IsSubstring(Lower(term), Lower(e.1.definition))
    requires !IsSubstring(Lower(term), Lower(e.1.consumerImpact))
    ensures term != [] ==> View([e], term) == SearchResults([])
  {
    assert !Hit(term, e);
  }

  /** One tab lists, in table order, exactly the entries of its category. */
  lemma ByCategoryFacts(table: seq<GlossaryEntry>, c: string)
    ensures forall e :: e in ByKey(table, Category, c) <==> e in table && e.1.category == c
    ensures SubsequenceOf(ByKey(table, Category, c), table)
  {
    forall e: GlossaryEntry ensures KeyIs(Category, c)(e) == (e.1.category == c) {
      assert Category(e) == e.1.category;
    }
    FilterIsSubsequence(table, KeyIs(Category, c));
    FilterMembers(table, KeyIs(Category, c));
  }

  /** The four tabs, one after the other, are the views by the four tab
      names. */
  lemma TabsAreConcatFilters(table: seq<GlossaryEntry>)
    ensures ConcatFilters(table, Category, TabCategories) ==
            ByKey(table, Category, "Financial") + ByKey(table, Category, "Property") +
            ByKey(table, Category, "Market") + ByKey(table, Category, "Legal")
  {
    var k4 := TabCategories;
    var k3 := ["Financial", "Property", "Market"];
    var k2 := ["Financial", "Property"];
    var k1 := ["Financial"];
    assert k4[..3] == k3 && k4[3] == "Legal";
    assert k3[..2] == k2 && k3[2] == "Market";
    assert k2[..1] == k1 && k2[1] == "Property";
    assert k1[..0] == [] && k1[0] == "Financial";
    assert ConcatFilters(table, Category, k1) == ByKey(table, Category, "Financial");
    assert ConcatFilters(table, Category, k2) == ConcatFilters(table, Category, k1) + ByKey(table, Category, "Property");
    assert ConcatFilters(table, Category, k3) == ConcatFilters(table, Category, k2) + ByKey(table, Category, "Market");
    assert ConcatFilters(table, Category, k4) == ConcatFilters(table, Category, k3) + ByKey(table, Category, "Legal");
  }

  /** Browse views: with an empty search box each tab lists, in table order,
      exactly the entries of its category. */
  lemma BrowseViews(table: seq<GlossaryEntry>)
    ensures View(table, "").Browse?
    ensures var v := View(table, "");
            (forall e :: e in v.financial <==> e in table && e.1.category == "Financial") &&
            (forall e :: e in v.property <==> e in table && e.1.category == "Property") &&
            (forall e :: e in v.market <==> e in table && e.1.category == "Market") &&
            (forall e :: e in v.legal <==> e in table && e.1.category == "Legal")
    ensures var v := View(table, "");
            SubsequenceOf(v.financial, table) && SubsequenceOf(v.property, table) &&
            SubsequenceOf(v.market, table) && SubsequenceOf(v.legal, table)
  {
    ByCategoryFacts(table, "Financial");
    ByCategoryFacts(table, "Property");
    ByCategoryFacts(table, "Market");
    ByCategoryFacts(table, "Legal");
  }

  /** Browse partition: when every entry's category is one of the four tab
      names, the tabs together list every entry exactly once. */
  lemma BrowsePartition(table: seq<GlossaryEntry>)
    requires forall e :: e in table ==> e.1.category in TabCategories
    ensures View(table, "").Browse?
    ensures var v := View(table, "");
            multiset(v.financial + v.property + v.market + v.legal) == multiset(table)
  {
    assert Distinct(TabCategories);
    assert forall e :: e in table ==> Category(e) in TabCategories;
    PartitionByKey(table, Category, TabCategories);
    TabsAreConcatFilters(table);
  }

  /** The level badge of a search result. */
  datatype LevelBadge = HighRedFlag | WatchOut | GoodToKnow

  /** The badge a search result shows for its `red_flag_level`: "High" is a
      high red flag, "Medium" a watch-out, anything else (including "Low")
      good to know. */
  function SearchBadge(level: string): (b: LevelBadge)
    ensures b == HighRedFlag <==> level == "High"
    ensures b == WatchOut <==> level == "Medium"
    ensures b == GoodToKnow <==> level != "High" && level != "Medium"
  {
    if level == "High" then HighRedFlag
    else if level == "Medium" then WatchOut
    else GoodToKnow
  }

  /** What a category tab shows for an entry's level: the tabs print the
      question in an error box for "High", in a warning box for "Medium", and
      nothing otherwise. */
  datatype TabNotice = NoNotice | Notice(badge: LevelBadge)

  function TabBadge(level: string): (n: TabNotice)
    ensures n == NoNotice <==> SearchBadge(level) == GoodToKnow
    ensures n.Notice? ==> n.badge == SearchBadge(level)
  {
    if level == "High" then Notice(HighRedFlag)
    else if level == "Medium" then Notice(WatchOut)
    else NoNotice
  }
}
