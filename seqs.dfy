/** Order-preserving filters over the dashboard's ordered tables.  A Python
    dict keeps insertion order, so a table is a sequence of (key, record)
    pairs; a dict comprehension with an `if`, or a loop that copies the
    entries it keeps into a fresh dict, is `Filter`. */
module Seqs {

  /** No element occurs twice (the keys of a dict are distinct). */
  predicate Distinct<T(==)>(s: seq<T>)
  {
    forall i, j :: 0 <= i < j < |s| ==> s[i] != s[j]
  }

  /** The elements of `s` that satisfy `p`, in their order in `s`. */
  function Filter<T(!new)>(s: seq<T>, p: T -> bool): (r: seq<T>)
    ensures |r| <= |s|
  {
    if s == [] then [] else (if p(s[0]) then [s[0]] else []) + Filter(s[1..], p)
  }

  /** A filter keeps exactly the elements that pass its test. */
  lemma {:induction false} FilterMembers<T(!new)>(s: seq<T>, p: T -> bool)
    ensures forall x :: x in Filter(s, p) <==> x in s && p(x)
  {
    if s != [] {
      FilterMembers(s[1..], p);
      assert s == [s[0]] + s[1..];
    }
  }

  /** `r` is `s` with some elements left out, the rest in their order. */
  ghost predicate SubsequenceOf<T(!new)>(r: seq<T>, s: seq<T>)
    decreases |s|
  {
    if r == [] then true
    else if s == [] then false
    else (r[0] == s[0] && SubsequenceOf(r[1..], s[1..])) || SubsequenceOf(r, s[1..])
  }

  /** The predicate that a record's key (as picked out by `key`) equals `k`:
      the `v['category'] == 'Financial'` of a comprehension. */
  function KeyIs<T>(key: T -> string, k: string): T -> bool
  {
    x => key(x) == k
  }

  /** The view of `s` by one key value, in the order of `s`: a dict
      comprehension `{k: v for k, v in d.items() if key(v) == k}`. */
  function ByKey<T(!new)>(s: seq<T>, key: T -> string, k: string): seq<T>
  {
    Filter(s, KeyIs(key, k))
  }

  /** The checkbox test: a record whose checkbox label (as picked out by
      `name`) is among the ticked labels. */
  function LabelIn<T>(name: T -> string, ticked: set<string>): T -> bool
  {
    x => name(x) in ticked
  }

  /** Filtering a concatenation filters each part. */
  lemma {:induction false} FilterAppend<T(!new)>(a: seq<T>, b: seq<T>, p: T -> bool)
    ensures Filter(a + b, p) == Filter(a, p) + Filter(b, p)
  {
    if a == [] {
      assert a + b == b;
    } else {
      assert (a + b)[0] == a[0] && (a + b)[1..] == a[1..] + b;
      FilterAppend(a[1..], b, p);
      var head := if p(a[0]) then [a[0]] else [];
      assert Filter(a + b, p) == head + Filter(a[1..] + b, p);
      assert Filter(a, p) == head + Filter(a[1..], p);
    }
  }

  /** One step of a loop that copies the entries it keeps. */
  lemma FilterSnoc<T(!new)>(s: seq<T>, x: T, p: T -> bool)
    ensures Filter(s + [x], p) == if p(x) then Filter(s, p) + [x] else Filter(s, p)
  {
    FilterAppend(s, [x], p);
  }

  /** A filter that no element passes is empty. */
  lemma {:induction false} FilterNone<T(!new)>(s: seq<T>, p: T -> bool)
    requires forall x :: x in s ==> !p(x)
    ensures Filter(s, p) == []
  {
    if s != [] {
      FilterNone(s[1..], p);
    }
  }

  /** A filter never reorders: its result is a subsequence of its input. */
  lemma {:induction false} FilterIsSubsequence<T(!new)>(s: seq<T>, p: T -> bool)
    ensures SubsequenceOf(Filter(s, p), s)
  {
    if s != [] {
      FilterIsSubsequence(s[1..], p);
      var r := Filter(s, p);
      if p(s[0]) {
        assert r == [s[0]] + Filter(s[1..], p);
        assert r[0] == s[0] && r[1..] == Filter(s[1..], p);
      } else {
        assert r == Filter(s[1..], p);
      }
    }
  }

  /** A subsequence of a sequence without repetitions has none either. */
  lemma {:induction false} SubsequenceKeepsDistinct<T(!new)>(r: seq<T>, s: seq<T>)
    requires SubsequenceOf(r, s) && Distinct(s)
    ensures Distinct(r)
    decreases |s|
  {
    if r != [] && s != [] {
      assert Distinct(s[1..]) by {
        forall i, j | 0 <= i < j < |s[1..]| ensures s[1..][i] != s[1..][j] {
          assert s[1..][i] == s[i + 1] && s[1..][j] == s[j + 1];
        }
      }
      if r[0] == s[0] && SubsequenceOf(r[1..], s[1..]) {
        SubsequenceKeepsDistinct(r[1..], s[1..]);
        SubsequenceMembers(r[1..], s[1..]);
        forall j | 0 < j < |r| ensures r[0] != r[j] {
          assert r[j] == r[1..][j - 1];
          assert r[j] in s[1..];
          var k :| 0 <= k < |s[1..]| && s[1..][k] == r[j];
          assert s[0] != s[k + 1];
        }
      } else {
        SubsequenceKeepsDistinct(r, s[1..]);
      }
    }
  }

  /** No key occurs twice among (key, value) pairs: the entries of a dict. */
  predicate DistinctKeys<K(==), V>(s: seq<(K, V)>)
  {
    forall i, j :: 0 <= i < j < |s| ==> s[i].0 != s[j].0
  }

  /** A subsequence of the entries of a dict repeats no key either, so it is
      again the entries of a dict. */
  lemma {:induction false} SubsequenceKeepsDistinctKeys<K(!new), V(!new)>(r: seq<(K, V)>, s: seq<(K, V)>)
    requires SubsequenceOf(r, s) && DistinctKeys(s)
    ensures DistinctKeys(r)
    decreases |s|
  {
    if r != [] && s != [] {
      assert DistinctKeys(s[1..]) by {
        forall i, j | 0 <= i < j < |s[1..]| ensures s[1..][i].0 != s[1..][j].0 {
          assert s[1..][i] == s[i + 1] && s[1..][j] == s[j + 1];
        }
      }
      if r[0] == s[0] && SubsequenceOf(r[1..], s[1..]) {
        SubsequenceKeepsDistinctKeys(r[1..], s[1..]);
        SubsequenceMembers(r[1..], s[1..]);
        forall j | 0 < j < |r| ensures r[0].0 != r[j].0 {
          assert r[j] == r[1..][j - 1];
          assert r[j] in s[1..];
          var k :| 0 <= k < |s[1..]| && s[1..][k] == r[j];
          assert s[0].0 != s[k + 1].0;
        }
      } else {
        SubsequenceKeepsDistinctKeys(r, s[1..]);
      }
    }
  }

  /** Every element of a subsequence is an element of the sequence. */
  lemma {:induction false} SubsequenceMembers<T(!new)>(r: seq<T>, s: seq<T>)
    requires SubsequenceOf(r, s)
    ensures forall x :: x in r ==> x in s
    decreases |s|
  {
    if r != [] && s != [] {
      if r[0] == s[0] && SubsequenceOf(r[1..], s[1..]) {
        SubsequenceMembers(r[1..], s[1..]);
        forall x | x in r ensures x in s {
          if x != r[0] {
            assert x in r[1..];
          }
        }
      } else {
        SubsequenceMembers(r, s[1..]);
      }
    }
  }

  /** How often a filter keeps an element: as often as the input holds it
      when it satisfies the predicate, never otherwise. */
  lemma {:induction false} FilterCount<T(!new)>(s: seq<T>, p: T -> bool, x: T)
    ensures multiset(Filter(s, p))[x] == if p(x) then multiset(s)[x] else 0
  {
    if s != [] {
      FilterCount(s[1..], p, x);
      assert s == [s[0]] + s[1..];
    }
  }

  /** Filtering two permutations of each other gives two permutations of
      each other, so equally many elements pass the filter. */
  lemma FilterSameMultiset<T(!new)>(a: seq<T>, b: seq<T>, p: T -> bool)
    requires multiset(a) == multiset(b)
    ensures multiset(Filter(a, p)) == multiset(Filter(b, p))
    ensures |Filter(a, p)| == |Filter(b, p)|
  {
    forall x ensures multiset(Filter(a, p))[x] == multiset(Filter(b, p))[x] {
      FilterCount(a, p, x);
      FilterCount(b, p, x);
    }
    assert multiset(Filter(a, p)) == multiset(Filter(b, p));
    assert |multiset(Filter(a, p))| == |Filter(a, p)|;
    assert |multiset(Filter(b, p))| == |Filter(b, p)|;
  }

  /** The views of `s` by each key of `ks`, one after the other. */
  function ConcatFilters<T(!new)>(s: seq<T>, key: T -> string, ks: seq<string>): seq<T>
  {
    if ks == [] then []
    else ConcatFilters(s, key, ks[..|ks| - 1]) + ByKey(s, key, ks[|ks| - 1])
  }

  /** How often the concatenated views hold an element: as often as `s` does
      when its key is among `ks`, never otherwise. */
  lemma {:induction false} ConcatFiltersCount<T(!new)>(s: seq<T>, key: T -> string, ks: seq<string>, x: T)
    requires Distinct(ks)
    ensures multiset(ConcatFilters(s, key, ks))[x] == if key(x) in ks then multiset(s)[x] else 0
  {
    if ks != [] {
      var init, last := ks[..|ks| - 1], ks[|ks| - 1];
      assert Distinct(init);
      assert last !in init;
      assert ks == init + [last];
      ConcatFiltersCount(s, key, init, x);
      FilterCount(s, KeyIs(key, last), x);
    }
  }

  /** Partition completeness: when every record's key is one of the
      distinct keys `ks`, the views by those keys together hold every record
      of `s` exactly as often as `s` does. */
  lemma PartitionByKey<T(!new)>(s: seq<T>, key: T -> string, ks: seq<string>)
    requires Distinct(ks)
    requires forall x :: x in s ==> key(x) in ks
    ensures multiset(ConcatFilters(s, key, ks)) == multiset(s)
  {
    forall x ensures multiset(ConcatFilters(s, key, ks))[x] == multiset(s)[x] {
      ConcatFiltersCount(s, key, ks, x);
    }
  }
}
