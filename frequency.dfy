/**
 * `contarPalavrasFrequentes`: count every word into a plain table, list the
 * table's entries, sort them by descending count and keep the first ten.
 */
module Frequency {
  import opened Seqs

  /** One `[palavra, contagem]` pair as `Object.entries` yields it. */
  type Entry = (string, nat)

  /** How many entries `slice(0, 10)` keeps. */
  const TopCount: nat := 10

  function Min(a: nat, b: nat): nat {
    if a <= b then a else b
  }

  /** The exact frequency table of `words`: each distinct word and its number of occurrences. */
  function Occurrences(words: seq<string>): map<string, nat> {
    map w | w in words :: multiset(words)[w]
  }

  /** The sum of all counts in a table. */
  ghost function SumValues(m: map<string, nat>): nat
    decreases |m|
  {
    if m == map[] then 0
    else
      var k :| k in m;
      assert |m - {k}| < |m| by { assert m.Keys - {k} < m.Keys; }
      m[k] + SumValues(m - {k})
  }

  /** The sum does not depend on which key is taken out first. */
  lemma {:induction false} SumValuesRemove(m: map<string, nat>, k: string)
    requires k in m
    ensures SumValues(m) == m[k] + SumValues(m - {k})
    decreases |m|
  {
    var j :| j in m && SumValues(m) == m[j] + SumValues(m - {j});
    if j != k {
      assert |m - {j}| < |m| by { assert m.Keys - {j} < m.Keys; }
      assert |m - {k}| < |m| by { assert m.Keys - {k} < m.Keys; }
      SumValuesRemove(m - {j}, k);
      SumValuesRemove(m - {k}, j);
      assert m - {j} - {k} == m - {k} - {j};
    }
  }

  /** Adding one occurrence of `w` to the words adds one to `w`'s count and to nothing else. */
  lemma OccurrencesSnoc(words: seq<string>, w: string)
    ensures var before := Occurrences(words);
      Occurrences(words + [w]) == before[w := (if w in before then before[w] else 0) + 1]
  {
    MultisetSnoc(words, w);
  }

  /** Counting one more occurrence of `w` raises the table's sum by one. */
  lemma SumValuesIncrement(m: map<string, nat>, w: string)
    ensures SumValues(m[w := (if w in m then m[w] else 0) + 1]) == SumValues(m) + 1
  {
    var next := m[w := (if w in m then m[w] else 0) + 1];
    SumValuesRemove(next, w);
    if w in m {
      SumValuesRemove(m, w);
    } else {
      assert m - {w} == m;
    }
    assert next - {w} == m - {w};
  }

  /** script.js, lines 64-67: the counting loop over the words. */
  method Tally(words: seq<string>) returns (counts: map<string, nat>)
    ensures counts == Occurrences(words)
    ensures counts.Keys == set w | w in words
    ensures forall w :: w in counts ==> counts[w] >= 1
    ensures SumValues(counts) == |words|
  {
    counts := map[];
    var i := 0;
    while i < |words|
      invariant 0 <= i <= |words|
      invariant counts == Occurrences(words[..i])
      invariant SumValues(counts) == i
    {
      var w := words[i];
      SumValuesIncrement(counts, w);
      OccurrencesSnoc(words[..i], w);
      PrefixSnoc(words, i);
      counts := counts[w := (if w in counts then counts[w] else 0) + 1];
      i := i + 1;
    }
    FullPrefix(words);
  }

  /** The words listed by a sequence of entries. */
  function Words(es: seq<Entry>): set<string> {
    set i | 0 <= i < |es| :: es[i].0
  }

  /** Every entry carries its word's count in `m`, and no word is listed twice. */
  ghost predicate Listing(m: map<string, nat>, es: seq<Entry>) {
    && (forall i :: 0 <= i < |es| ==> es[i].0 in m && es[i].1 == m[es[i].0])
    && (forall i, j :: 0 <= i < j < |es| ==> es[i].0 != es[j].0)
  }

  /** Non-increasing by count: the order `sort((a, b) => b[1] - a[1])` produces. */
  ghost predicate SortedByCount(es: seq<Entry>) {
    forall i, j :: 0 <= i < j < |es| ==> es[i].1 >= es[j].1
  }

  /**
   * `top` is a top-`k` list of `m`: as many entries as `k` allows, each
   * with its true count, no word twice, sorted, and no word left out has
   * a higher count than a word kept.
   */
  ghost predicate IsTopK(m: map<string, nat>, top: seq<Entry>, k: nat) {
    && |top| == Min(k, |m|)
    && Listing(m, top)
    && SortedByCount(top)
    && (forall w, i :: w in m && w !in Words(top) && 0 <= i < |top| ==> m[w] <= top[i].1)
  }

  lemma WordsSnoc(es: seq<Entry>, e: Entry)
    ensures Words(es + [e]) == Words(es) + {e.0}
  {
    var t := es + [e];
    assert forall i :: 0 <= i < |es| ==> t[i] == es[i];
    assert t[|es|] == e;
  }

  /** Appending an unlisted key with its count extends a listing. */
  lemma ListingSnoc(m: map<string, nat>, es: seq<Entry>, k: string)
    requires Listing(m, es) && k in m && k !in Words(es)
    ensures Listing(m, es + [(k, m[k])])
    ensures Words(es + [(k, m[k])]) == Words(es) + {k}
  {
    WordsSnoc(es, (k, m[k]));
    var t := es + [(k, m[k])];
    assert forall i :: 0 <= i < |es| ==> t[i] == es[i] && es[i].0 in Words(es);
  }

  /** script.js, line 69: `Object.entries(contagem)`, in an order the model leaves open. */
  method Entries(m: map<string, nat>) returns (es: seq<Entry>)
    ensures Listing(m, es)
    ensures Words(es) == m.Keys
    ensures |es| == |m|
  {
    es := [];
    var rest := m.Keys;
    while rest != {}
      invariant rest <= m.Keys
      invariant Listing(m, es)
      invariant Words(es) == m.Keys - rest
      invariant |es| + |rest| == |m|
      decreases |rest|
    {
      var k :| k in rest;
      ListingSnoc(m, es, k);
      es := es + [(k, m[k])];
      rest := rest - {k};
    }
  }

  /** An entry whose count is at least the head's can go in front of a sorted list. */
  lemma SortedCons(x: Entry, t: seq<Entry>)
    requires SortedByCount(t) && (t == [] || x.1 >= t[0].1)
    ensures SortedByCount([x] + t)
  {
    var r := [x] + t;
    assert forall j :: 1 <= j < |r| ==> r[j] == t[j - 1] && r[j].1 <= x.1;
  }

  /** Places `e` after every entry whose count is at least `e`'s, keeping the sequence sorted. */
  function InsertByCount(e: Entry, s: seq<Entry>): (r: seq<Entry>)
    requires SortedByCount(s)
    ensures SortedByCount(r)
    ensures multiset(r) == multiset(s) + multiset{e}
    ensures |r| == |s| + 1 && (r[0] == e || (s != [] && r[0] == s[0]))
  {
    if s == [] then [e]
    else if e.1 > s[0].1 then
      SortedCons(e, s);
      [e] + s
    else
      var tail := InsertByCount(e, s[1..]);
      MultisetCons(s);
      SortedCons(s[0], tail);
      [s[0]] + tail
  }

  /** script.js, line 70: a sort by descending count; an entry is inserted after those with an equal count. */
  method SortByCount(es: seq<Entry>) returns (sorted: seq<Entry>)
    ensures SortedByCount(sorted)
    ensures multiset(sorted) == multiset(es)
    ensures |sorted| == |es|
  {
    sorted := [];
    var i := 0;
    while i < |es|
      invariant 0 <= i <= |es|
      invariant SortedByCount(sorted)
      invariant multiset(sorted) == multiset(es[..i])
      invariant |sorted| == i
    {
      sorted := InsertByCount(es[i], sorted);
      PrefixSnoc(es, i);
      i := i + 1;
    }
    FullPrefix(es);
  }

  lemma {:induction false} DistinctOnce(s: seq<Entry>, x: Entry)
    requires forall i, j :: 0 <= i < j < |s| ==> s[i] != s[j]
    ensures multiset(s)[x] <= 1
  {
    if s != [] {
      MultisetCons(s);
      DistinctOnce(s[1..], x);
      if x == s[0] {
        assert x !in s[1..];
      }
    }
  }

  lemma RepeatedTwice(s: seq<Entry>, i: nat, j: nat)
    requires i < j < |s| && s[i] == s[j]
    ensures multiset(s)[s[i]] >= 2
  {
    assert s == s[..j] + [s[j]] + s[j + 1..];
    assert s[i] in s[..j];
  }

  /** A rearrangement of a listing of `m` is a listing of `m` with the same words. */
  lemma ListingPermutation(m: map<string, nat>, a: seq<Entry>, b: seq<Entry>)
    requires Listing(m, a)
    requires multiset(a) == multiset(b)
    ensures Listing(m, b)
    ensures Words(b) == Words(a)
  {
    forall i | 0 <= i < |b| ensures b[i] in a {
      assert b[i] in multiset(b);
    }
    forall i | 0 <= i < |a| ensures a[i] in b {
      assert a[i] in multiset(a);
    }
    forall i, j | 0 <= i < j < |b| ensures b[i].0 != b[j].0 {
      if b[i].0 == b[j].0 {
        assert b[i] == b[j];
        RepeatedTwice(b, i, j);
        DistinctOnce(a, b[i]);
        assert false;
      }
    }
  }

  /** A prefix of a sorted listing is a sorted listing. */
  lemma PrefixListing(m: map<string, nat>, s: seq<Entry>, n: nat)
    requires Listing(m, s) && SortedByCount(s) && n <= |s|
    ensures Listing(m, s[..n]) && SortedByCount(s[..n])
  {
    assert forall i :: 0 <= i < n ==> s[..n][i] == s[i];
  }

  /** The first `n` entries of a sorted, complete listing of `m` form a top-`n` list. */
  lemma SortedPrefixIsTopK(m: map<string, nat>, sorted: seq<Entry>, n: nat)
    requires Listing(m, sorted) && Words(sorted) == m.Keys && |sorted| == |m|
    requires SortedByCount(sorted)
    ensures IsTopK(m, sorted[..Min(n, |sorted|)], n)
  {
    var top := sorted[..Min(n, |sorted|)];
    PrefixListing(m, sorted, Min(n, |sorted|));
    assert forall i :: 0 <= i < |top| ==> top[i] == sorted[i] && top[i].0 in Words(top);
    forall w, i | w in m && w !in Words(top) && 0 <= i < |top|
      ensures m[w] <= top[i].1
    {
      var j :| 0 <= j < |sorted| && sorted[j].0 == w;
      assert j >= |top|;
    }
  }

  /** script.js, lines 69-71: the first `TopCount` entries of the table in descending count order. */
  method TopByCount(counts: map<string, nat>) returns (top: seq<Entry>)
    ensures IsTopK(counts, top, TopCount)
  {
    var es := Entries(counts);
    var sorted := SortByCount(es);
    ListingPermutation(counts, es, sorted);
    SortedPrefixIsTopK(counts, sorted, TopCount);
    top := sorted[..Min(TopCount, |sorted|)];
  }

  /** script.js, lines 63-72: `contarPalavrasFrequentes(palavras)`. */
  method CountFrequent(words: seq<string>) returns (top: seq<Entry>)
    ensures IsTopK(Occurrences(words), top, TopCount)
    ensures |top| <= TopCount
  {
    var counts := Tally(words);
    top := TopByCount(counts);
  }

  /** The first entry of a top-`k` list holds the highest count of the table. */
  lemma TopKHeadIsMax(m: map<string, nat>, top: seq<Entry>, k: nat, w: string)
    requires IsTopK(m, top, k)
    requires |top| > 0 && w in m
    ensures m[w] <= top[0].1
  {
    if w in Words(top) {
      var j :| 0 <= j < |top| && top[j].0 == w;
    }
  }
}
