# Real Estate Agent Decoder: the lookup and checklist logic

The Real Estate Agent Decoder is a Streamlit dashboard for home buyers and
sellers. Most of `app.py` is static reference tables and rendering calls. This
project models the logic inside it, over ordered tables. A Python dict keeps
insertion order, so each table is a `seq` of (key, record) pairs here.

- **Realtor-speak decoder** (`decoder.dfy`, module `Decoder`). The user's
  input is lower-cased and the `realtor_speak` table is scanned in order. The
  first phrase whose lower-cased text lies *inside* the input is shown with
  its meaning, and the scan stops there. If no phrase matches, a distinct "no
  match" result is shown. An empty input is not decoded at all.
  `DecodePhrase` is the loop, with its `found_match` flag and `break`.
  `Decode` is its specification. The lemmas about `Decode` prove first
  match, soundness, completeness, the empty input case, that entries after
  the hit are irrelevant, and case-insensitivity. `IsPressureTactic` is the
  "pressure"/"rush" badge test. Module `DecoderExamples` works the policy
  through on the `realtor_speak` table itself (`RealtorSpeak`), on single
  entries of it, and, for the tie-break between a short phrase and a longer
  one containing it, on a two-entry table of its own.
- **Glossary** (`glossary.dfy`, module `Glossary`). With a non-empty search
  term, `Search` keeps, in table order, the entries whose term, definition or
  consumer impact contains the lower-cased search term. With an empty term,
  the page shows four category tabs instead (`View`, and `Seqs.ByKey` by
  category). The
  search-result badge for `red_flag_level` and the category-tab notice are
  `SearchBadge` and `TabBadge`.
- **Red flag checker** (`redflags.dfy`, module `RedFlags`). `GroupByCategory`
  groups the flags by category, with the categories in first-appearance
  order. `Tally` counts the ticked flags (`total_flagged`) and the ticked
  critical ones (`critical_flags`), walking the groups in order.
  `Severity` is the per-flag notice tier and `SummaryOf` is the verdict.
  `CheckRedFlags` runs the whole page. Its contract states the counts and
  the verdict directly against the table.
- **Conflict checker** (`conflicts.dfy`, module `Conflicts`). The ticked
  conflicts are collected in list order, and a count-based verdict follows.
- **Commission rate verdict** (`commission.dfy`, module `Commission`). The
  three-way classification of the commission rate, over exact reals.
- Shared pieces: `text.dfy` (module `Text`) holds ASCII lower-casing and
  substring containment, with an executable `Contains` proved equal to the
  logical `IsSubstring`. `seqs.dfy` (module `Seqs`) holds the
  order-preserving `Filter`, the subsequence relation and the
  partition-by-key lemma that the glossary tabs and the red-flag grouping
  both use.

Inputs the page reads from widgets become parameters. A text box is a
`string`. The checkboxes are the set of ticked labels (`set<string>`),
because Streamlit identifies a checkbox by its label.

Three behaviours of the code worth knowing:

- With an empty search term the glossary page shows four tabs: Financial,
  Property, Market and Legal. An entry of any other category appears in
  none of them. `BrowsePartition` therefore states its permutation result
  for tables whose every category is one of the four.
- In the glossary search results every `red_flag_level` string gets a
  badge: "High" a high red flag, "Medium" watch out, and any other string
  good to know. The category tabs show a notice only for "High" and
  "Medium", and nothing for any other string (`TabBadge`'s `NoNotice`).
  Every red-flag severity gets a notice tier: "Critical", "High", and
  medium risk for any other string. The fields are strings in the model
  too, so these fall-through branches are part of it.
- The summary verdict tests `total_flagged > 0` first and only then
  `critical_flags > 0`. This is not the flat precedence chain, where a
  critical flag wins before anything else. `SummaryFollowsPrecedence` proves
  the two agree whenever `critical <= total`. `Tally` guarantees that
  condition, so the two never differ on the page.

## Model

| member | source | states |
|---|---|---|
| `Text.Contains` | app.py:1099 | Python's `needle in hay`: true exactly when `needle` occurs as a contiguous block of `hay` |
| `Text.LowerFolds` | app.py:1099 | lower-casing keeps the length, turns each ASCII capital into the small letter at the same place in the alphabet, leaves no ASCII capital, changes no other character, and is idempotent |
| `Text.SameUpToCaseLowerAlike` | app.py:1099 | two strings that differ only in the case of ASCII letters lower-case to the same string |
| `Decoder.DecodePhrase` | app.py:1093-1106 | the decoder loop (flag, in-order scan, `break`, no-match fallback, empty input skipped) returns exactly `Decode(table, input)` |
| `Decoder.DecodeIsFirstHit` | app.py:1098-1103 | if entry i is the first entry whose lower-cased phrase lies inside a non-empty input, the result is entry i, whatever later entries also match |
| `Decoder.DecodeMatchIsFirstHit` | app.py:1098-1103 | a shown match is a table entry whose phrase really occurs in the input, and no earlier entry's phrase does |
| `Decoder.DecodeNoMatch` | app.py:1095-1106 | no decode happens exactly for the empty input; a non-empty input gets "no match" exactly when no phrase occurs in it |
| `Decoder.DecodeIgnoresLaterEntries` | app.py:1098-1103 | because of the `break`, replacing every entry after the first hit leaves the result unchanged |
| `Decoder.DecodeIgnoresCase` | app.py:1099 | two inputs that lower-case alike are decoded alike |
| `Decoder.DecodeIgnoresLetterCase` | app.py:1099 | two inputs that differ only in the case of ASCII letters are decoded alike |
| `Decoder.IsPressureTactic` | app.py:1112 | the pressure badge is shown exactly when the lower-cased meaning contains "pressure" or "rush" |
| `DecoderExamples.ContainmentDirection` | app.py:1099 | a sentence holding the whole phrase "Don't worry about the inspection" is decoded; the word "inspection" alone is not |
| `DecoderExamples.RealTableEarlierEntryWins` | app.py:1098-1103 | on the real table, "Priced to sell. This won't last long" holds both the first and the third phrase, and the first is shown |
| `DecoderExamples.RealTableWordIsNoMatch` | app.py:1095-1106 | on the real table, the single word "inspection" gets the "no match" notice, since every phrase is longer than it |
| `DecoderExamples.EarlierEntryWins` | app.py:1098-1103 | on a two-entry table of its own listing "sell" before "Priced to sell", an input holding both shows the earlier, shorter "sell" |
| `DecoderExamples.PressureBadge` | app.py:1112 | the meaning "Often a lie to create competition and rush your decision." carries the pressure badge |
| `Seqs.FilterMembers` | app.py:1292-1297 | a filter result holds exactly the input's elements that pass the test |
| `Seqs.FilterIsSubsequence` | app.py:1292-1297 | a filter keeps the table order: its result is a subsequence of the table |
| `Seqs.SubsequenceKeepsDistinct` | app.py:1292-1297 | a subsequence of a table with distinct entries has distinct entries |
| `Seqs.SubsequenceKeepsDistinctKeys` | app.py:1292-1297 | a subsequence of (key, value) pairs whose keys are distinct has distinct keys, so it is again the entries of a dict |
| `Seqs.FilterSameMultiset` | app.py:1227-1237 | filtering two permutations of one another gives permutations of one another, so the same count |
| `Seqs.PartitionByKey` | app.py:1323-1326 | if every record's key is one of distinct keys ks, the views by ks, concatenated, are a permutation of the table |
| `Glossary.View` | app.py:1291-1326 | the page lists search results exactly when the search term is non-empty, and they are exactly the table's entries the term hits; otherwise it shows the four tabs |
| `Glossary.Search` | app.py:1291-1297 | the search loop keeps, in table order, exactly the entries whose term, definition or consumer impact contains the lower-cased search term |
| `Glossary.SearchPreservesTable` | app.py:1292-1297 | search results are a subsequence of the table, every result is a table entry with its own record, distinct entries stay distinct, and a table with distinct terms gives results with distinct terms |
| `Glossary.SearchScope` | app.py:1294-1296 | two tables that agree on term, definition and consumer impact give the same result terms, whatever their other fields |
| `Glossary.WhatToAskNotSearched` | app.py:1294-1296 | a search term found only in `what_to_ask` finds nothing |
| `Glossary.ByCategoryFacts` | app.py:1323-1326 | one category tab lists, in table order, exactly the entries of that category |
| `Glossary.BrowseViews` | app.py:1319-1326 | with an empty search term the page shows the four tabs, each the order-preserving view of its category |
| `Glossary.BrowsePartition` | app.py:1323-1326 | if every category is Financial, Property, Market or Legal, the four tabs together hold every entry exactly once |
| `Glossary.SearchBadge` | app.py:1306-1311 | "High" gives a high red flag, "Medium" gives watch out, and every other level gives good to know |
| `Glossary.TabBadge` | app.py:1333-1336 | a category tab shows a notice exactly when the search badge is not good to know, and then the same badge |
| `RedFlags.Categories` | app.py:1220-1225 | the group keys are distinct and are exactly the categories that occur in the table |
| `RedFlags.CategoriesPrefix` | app.py:1220-1225 | the categories of any prefix of the table are a prefix of the group keys (first-appearance order) |
| `RedFlags.GroupByCategory` | app.py:1220-1225 | the grouping loop builds keys in first-appearance order, and each key's list is that category's flags in table order |
| `RedFlags.GroupsKeepTableOrder` | app.py:1220-1225 | each group is a subsequence of the table holding exactly its category's flags, and groups follow first appearance |
| `RedFlags.GroupingIsPermutation` | app.py:1220-1225 | the groups, concatenated in key order, are a permutation of the table: nothing is lost or duplicated |
| `RedFlags.Tally` | app.py:1227-1237 | `total_flagged` is the number of ticked flags in display order, `critical_flags` the number of those with severity "Critical", and critical is at most total |
| `RedFlags.Severity` | app.py:1240-1245 | the notice tier is critical exactly for "Critical", high risk exactly for "High", and medium risk for every other severity |
| `RedFlags.SummaryOf` | app.py:1252-1267 | clear exactly when nothing is ticked; with ticks, a critical warning exactly when a ticked flag is critical, otherwise a warning for 3 or more and a caution for 1 or 2 |
| `RedFlags.SummaryFollowsPrecedence` | app.py:1252-1267 | when critical is at most total, the nested verdict equals the precedence chain critical, then 3 or more, then at least 1, then clear; with no flags and one critical flag it would not |
| `RedFlags.SummaryBoundaries` | app.py:1252-1267 | a critical flag gives the critical warning whatever the total; 2 flags give caution, 3 give warning, 0 give clear |
| `RedFlags.VerdictOnTable` | app.py:1252-1267 | the verdict on the ticked flags is a critical warning exactly when a ticked flag is critical, clear exactly when none is ticked, warning for 3 or more non-critical ticks and caution for 1 or 2 |
| `RedFlags.CheckRedFlags` | app.py:1220-1267 | the notices appear category by category, categories in the order they first occur in the table and each category's ticked flags in table order, and they are a permutation of the table's ticked flags; total is the number of ticked flags, critical the number of ticked critical flags; the verdict is a critical warning exactly when a ticked flag is critical and clear exactly when nothing is ticked |
| `Conflicts.DetectConflicts` | app.py:1059-1062 | the collected list holds exactly the ticked conflicts, in list order |
| `Conflicts.Summarize` | app.py:1064-1073 | a non-empty list reports its length; "no conflicts" is reported exactly for the empty list |
| `Conflicts.SummaryMatchesTicks` | app.py:1059-1073 | "no conflicts" exactly when no listed conflict is ticked, otherwise a count between 1 and the list's length |
| `Commission.Classify` | app.py:1021-1026 | above 6.5 is above average, below 5.0 is limited service, 5.0 to 6.5 inclusive is normal |
| `Commission.ClassifyBoundaries` | app.py:1021-1026 | 6.5 and 5.0 themselves are normal range, and every rate above an above-average rate is above average too |

## Left out

- Rendering: the Streamlit calls (`st.markdown`, `st.write`, expanders, tabs, columns, sidebar) and the HTML/CSS strings are presentation only. Which box colour goes with which verdict is likewise not modelled.
- The contents of the static tables (`glossary_database`, `red_flag_database`, `psychology_database`, `realtor_speak`) are data. The model takes any table as a parameter. `realtor_speak` appears in full as `DecoderExamples.RealtorSpeak`; the other tables appear nowhere.
- The negotiable badges of the glossary search results and tabs, and the Psychology, Defense, Quick Start and Meeting Prep pages: these only render constant data.
- Document Analysis: the code never reads the uploaded file and prints hard-coded "results".
- Commission amounts (`home_price * (total_commission / 100)` and the halves): these are floating-point values, which are not modelled. Only the rate verdict is modelled, over exact reals.
- `Text.LowerFolds`: `str.lower()` is modelled as ASCII A-Z to a-z folding only. Unicode case mapping, including mappings that change a string's length, is not modelled.
- The second, duplicated copy of the tables and pages later in `app.py`, and the unused imports `pandas`, `re` and `datetime`.
- Widget state is modelled as a `string` for a text box and a `set<string>` of ticked labels for the checkboxes. Streamlit's rejection of two checkboxes with the same label is not modelled.
- `Glossary.Search`: `filtered_terms[term] = details` would overwrite a repeated key, but the model appends. A dict never repeats a key. `SearchPreservesTable` proves that a table whose terms are distinct (`Seqs.DistinctKeys`) gives results whose terms are distinct, so nothing would be overwritten and the two agree. On a table with repeated terms, which a dict cannot hold, the model would keep both entries.
