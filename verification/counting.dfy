/** The parts of `collections.Counter` the analyzer relies on: counting a list
    of words, summing the counts, and `most_common(n)`. */
module Counting {

  /** A word and its count, as yielded by `Counter.items()`. */
  type Entry = (string, nat)

  /** A Counter: its words in first-seen order, and the count of each. */
  datatype Counter = Counter(keys: seq<string>, counts: map<string, nat>) {
    ghost predicate Valid() {
      && (forall i, j :: 0 <= i < j < |keys| ==> keys[i] != keys[j])
      && (forall w :: w in counts <==> w in keys)
      && (forall w :: w in counts ==> counts[w] >= 1)
    }
  }

  /** `counter[x] += 1`: one more occurrence of `x`. */
  function Add(c: Counter, x: string): (c': Counter)
    requires c.Valid()
    ensures c'.Valid()
    ensures forall w :: w in c'.counts <==> w in c.counts || w == x
    ensures forall w :: w in c'.counts ==>
      c'.counts[w] == (if w in c.counts then c.counts[w] else 0) + (if w == x then 1 else 0)
    ensures Sum(Values(c')) == Sum(Values(c)) + 1
  {
    if x in c.counts then
      var j :| 0 <= j < |c.keys| && c.keys[j] == x;
      var c' := Counter(c.keys, c.counts[x := c.counts[x] + 1]);
      ValuesIncrement(c, x, j, c');
      c'
    else
      var c' := Counter(c.keys + [x], c.counts[x := 1]);
      ValuesAppend(c, x, c');
      c'
  }

  /** `Counter(xs)`: each distinct word of `xs` once, in first-seen order, with
      its number of occurrences; the counts add up to the number of words
      (`total = sum(counter.values())`). */
  function Count(xs: seq<string>): (c: Counter)
    ensures c.Valid()
    ensures forall w :: w in c.counts <==> w in xs
    ensures forall w :: w in c.counts ==> c.counts[w] == multiset(xs)[w]
    ensures Sum(Values(c)) == |xs|
    decreases |xs|
  {
    if xs == [] then Counter([], map[])
    else
      assert xs == xs[..|xs| - 1] + [xs[|xs| - 1]];
      Add(Count(xs[..|xs| - 1]), xs[|xs| - 1])
  }

  /** `counter.values()` */
  function Values(c: Counter): (vs: seq<nat>)
    requires c.Valid()
    ensures |vs| == |c.keys|
  {
    seq(|c.keys|, i requires 0 <= i < |c.keys| => c.counts[c.keys[i]])
  }

  /** `counter.items()` */
  function Items(c: Counter): (es: seq<Entry>)
    requires c.Valid()
    ensures |es| == |c.keys|
  {
    seq(|c.keys|, i requires 0 <= i < |c.keys| => (c.keys[i], c.counts[c.keys[i]]))
  }

  /** The counts of a list of entries, in the same order. */
  function Counts(es: seq<Entry>): (vs: seq<nat>)
    ensures |vs| == |es|
  {
    seq(|es|, i requires 0 <= i < |es| => es[i].1)
  }

  /** `sum(...)` over counts. */
  function Sum(s: seq<nat>): nat {
    if s == [] then 0 else s[0] + Sum(s[1..])
  }

  /** Non-increasing. */
  predicate Descending(s: seq<nat>) {
    |s| <= 1 || (s[0] >= s[1] && Descending(s[1..]))
  }

  /** Places `e` before the first entry whose count is not larger; entries that
      came first in the input therefore stay first among equal counts. */
  function Insert(e: Entry, s: seq<Entry>): (r: seq<Entry>)
    ensures |r| == |s| + 1
    ensures r[0] == e || (s != [] && r[0] == s[0])
    ensures multiset(r) == multiset{e} + multiset(s)
    ensures multiset(Counts(r)) == multiset{e.1} + multiset(Counts(s))
    ensures Sum(Counts(r)) == e.1 + Sum(Counts(s))
    ensures Descending(Counts(s)) ==> Descending(Counts(r))
  {
    if s == [] || s[0].1 <= e.1 then
      var r := [e] + s;
      ConsCounts(e, s);
      DescendingCons(e.1, Counts(s));
      r
    else
      var tail := Insert(e, s[1..]);
      InsertBehind(e, s, tail);
      [s[0]] + tail
  }

  /** Inserting behind the first entry, when its count is larger, keeps all
      that `Insert` promises. */
  lemma InsertBehind(e: Entry, s: seq<Entry>, tail: seq<Entry>)
    requires s != [] && s[0].1 > e.1
    requires tail != [] && (tail[0] == e || (s[1..] != [] && tail[0] == s[1]))
    requires multiset(tail) == multiset{e} + multiset(s[1..])
    requires multiset(Counts(tail)) == multiset{e.1} + multiset(Counts(s[1..]))
    requires Sum(Counts(tail)) == e.1 + Sum(Counts(s[1..]))
    requires Descending(Counts(s[1..])) ==> Descending(Counts(tail))
    ensures multiset([s[0]] + tail) == multiset{e} + multiset(s)
    ensures multiset(Counts([s[0]] + tail)) == multiset{e.1} + multiset(Counts(s))
    ensures Sum(Counts([s[0]] + tail)) == e.1 + Sum(Counts(s))
    ensures Descending(Counts(s)) ==> Descending(Counts([s[0]] + tail))
  {
    assert s == [s[0]] + s[1..];
    ConsCounts(s[0], tail);
    ConsCounts(s[0], s[1..]);
    DescendingCons(s[0].1, Counts(tail));
    DescendingCons(s[0].1, Counts(s[1..]));
  }

  /** Counts, their multiset and their sum after putting `e` in front. */
  lemma ConsCounts(e: Entry, s: seq<Entry>)
    ensures Counts([e] + s) == [e.1] + Counts(s)
    ensures multiset(Counts([e] + s)) == multiset{e.1} + multiset(Counts(s))
    ensures Sum(Counts([e] + s)) == e.1 + Sum(Counts(s))
  {
    assert Counts([e] + s) == [e.1] + Counts(s);
    assert ([e.1] + Counts(s))[1..] == Counts(s);
  }

  /** Putting `x` in front keeps a sequence non-increasing exactly when `x`
      is at least its first element. */
  lemma DescendingCons(x: nat, s: seq<nat>)
    ensures Descending([x] + s) <==> (s == [] || x >= s[0]) && Descending(s)
  {
    assert ([x] + s)[1..] == s;
  }

  /** `sorted(items, key=count, reverse=True)`: a stable sort by decreasing count. */
  function SortByCount(es: seq<Entry>): (r: seq<Entry>)
    ensures |r| == |es|
    ensures multiset(r) == multiset(es)
    ensures multiset(Counts(r)) == multiset(Counts(es))
    ensures Sum(Counts(r)) == Sum(Counts(es))
    ensures Descending(Counts(r))
  {
    if es == [] then []
    else
      assert es == [es[0]] + es[1..];
      assert Counts(es) == [es[0].1] + Counts(es[1..]);
      Insert(es[0], SortByCount(es[1..]))
  }

  function Min(a: nat, b: nat): nat {
    if a <= b then a else b
  }

  /** `counter.most_common(n)`: the first `n` entries by decreasing count. */
  function MostCommon(c: Counter, n: nat): (top: seq<Entry>)
    requires c.Valid()
    ensures |top| == Min(n, |c.keys|)
  {
    var sorted := SortByCount(Items(c));
    sorted[..Min(n, |sorted|)]
  }

  /** `sum(cnt for word, cnt in counter.most_common(n))`: never more than the
      total, and the total itself when there are at most n distinct words. */
  function TopSum(c: Counter, n: nat): (top: nat)
    requires c.Valid()
    ensures top <= Sum(Values(c))
    ensures |c.keys| <= n ==> top == Sum(Values(c))
  {
    var sorted := Counts(SortByCount(Items(c)));
    var m := Min(n, |sorted|);
    TopCounts(c, n);
    ItemsCounts(c);
    SumPrefix(sorted, m);
    assert |c.keys| <= n ==> sorted[..m] == sorted;
    Sum(Counts(MostCommon(c, n)))
  }

  // ---- sums ----

  lemma {:induction false} SumAppend(a: seq<nat>, b: seq<nat>)
    ensures Sum(a + b) == Sum(a) + Sum(b)
    decreases |a|
  {
    if a == [] {
      assert a + b == b;
    } else {
      assert (a + b)[1..] == a[1..] + b;
      SumAppend(a[1..], b);
    }
  }

  /** Adding one to one count adds one to the sum. */
  lemma {:induction false} SumIncrement(s: seq<nat>, j: nat)
    requires j < |s|
    ensures Sum(s[j := s[j] + 1]) == Sum(s) + 1
    decreases |s|
  {
    if j > 0 {
      assert s[j := s[j] + 1][1..] == s[1..][j - 1 := s[j] + 1];
      SumIncrement(s[1..], j - 1);
    }
  }

  /** A prefix of counts sums to no more than all of them, and to at least the
      first count when it is not empty. */
  lemma {:induction false} SumPrefix(s: seq<nat>, m: nat)
    requires m <= |s|
    ensures Sum(s[..m]) <= Sum(s)
    ensures m > 0 ==> Sum(s[..m]) >= s[0]
  {
    SumAppend(s[..m], s[m..]);
    assert s == s[..m] + s[m..];
    if m > 0 {
      assert s[..m][1..] == s[1..m];
    }
  }

  // ---- what Counter computes ----

  /** Counting one more occurrence of a word already counted. */
  lemma ValuesIncrement(c: Counter, x: string, j: nat, c': Counter)
    requires c.Valid() && c'.Valid() && j < |c.keys| && c.keys[j] == x
    requires c' == Counter(c.keys, c.counts[x := c.counts[x] + 1])
    ensures Sum(Values(c')) == Sum(Values(c)) + 1
  {
    assert Values(c') == Values(c)[j := Values(c)[j] + 1];
    SumIncrement(Values(c), j);
  }

  /** Counting the first occurrence of a new word. */
  lemma ValuesAppend(c: Counter, x: string, c': Counter)
    requires c.Valid() && c'.Valid() && x !in c.counts
    requires c' == Counter(c.keys + [x], c.counts[x := 1])
    ensures Sum(Values(c')) == Sum(Values(c)) + 1
  {
    assert Values(c') == Values(c) + [1];
    SumAppend(Values(c), [1]);
  }

  /** Every key is counted at least once, so there are no more keys than
      counted words. */
  lemma KeysAtMostTotal(c: Counter)
    requires c.Valid()
    ensures |c.keys| <= Sum(Values(c))
  {
    var vs := Values(c);
    forall j | 0 <= j < |vs| ensures vs[j] >= 1 {
      assert c.keys[j] in c.counts;
    }
    SumAtLeastLength(vs);
  }

  lemma {:induction false} SumAtLeastLength(s: seq<nat>)
    requires forall j :: 0 <= j < |s| ==> s[j] >= 1
    ensures Sum(s) >= |s|
  {
    if s != [] {
      SumAtLeastLength(s[1..]);
    }
  }

  lemma ItemsCounts(c: Counter)
    requires c.Valid()
    ensures Counts(Items(c)) == Values(c)
  {
  }

  /** The first element of a non-increasing sequence is its largest. */
  lemma {:induction false} DescendingHeadIsMax(s: seq<nat>, x: nat)
    requires Descending(s)
    requires x in s
    ensures x <= s[0]
    decreases |s|
  {
    if x != s[0] {
      assert s == [s[0]] + s[1..];
      assert x in s[1..];
      DescendingHeadIsMax(s[1..], x);
    }
  }

  /** Two non-increasing sequences with the same elements are equal: sorting
      counts gives one answer whatever order they came in. */
  lemma {:induction false} DescendingUnique(a: seq<nat>, b: seq<nat>)
    requires Descending(a) && Descending(b)
    requires multiset(a) == multiset(b)
    ensures a == b
    decreases |a|
  {
    if a == [] {
      assert |b| == |multiset(b)| == 0;
    } else {
      DescendingHeadsEqual(a, b);
      DropHead(a);
      DropHead(b);
      DescendingUnique(a[1..], b[1..]);
      assert a == [a[0]] + a[1..] && b == [b[0]] + b[1..];
    }
  }

  /** Two non-empty non-increasing sequences with the same elements start alike. */
  lemma DescendingHeadsEqual(a: seq<nat>, b: seq<nat>)
    requires Descending(a) && Descending(b)
    requires multiset(a) == multiset(b) && a != []
    ensures b != [] && a[0] == b[0]
  {
    assert a[0] in multiset(a);
    assert b != [];
    assert b[0] in multiset(b);
    DescendingHeadIsMax(b, a[0]);
    DescendingHeadIsMax(a, b[0]);
  }

  /** Dropping the first element keeps the order and removes one occurrence. */
  lemma DropHead(s: seq<nat>)
    requires s != []
    ensures multiset(s[1..]) == multiset(s) - multiset{s[0]}
    ensures Descending(s) ==> Descending(s[1..])
  {
    assert s == [s[0]] + s[1..];
  }

  /** The counts of `most_common(n)` are the `n` largest counts, largest first. */
  lemma TopCounts(c: Counter, n: nat)
    requires c.Valid()
    ensures var sorted := Counts(SortByCount(Items(c)));
      && Descending(sorted)
      && multiset(sorted) == multiset(Values(c))
      && Counts(MostCommon(c, n)) == sorted[..Min(n, |sorted|)]
  {
    ItemsCounts(c);
  }

  /** The top-n sum depends only on the counts, not on which word carries which
      count nor on how ties between equal counts are ordered. */
  lemma TopSumOrderIndependent(c1: Counter, c2: Counter, n: nat)
    requires c1.Valid() && c2.Valid()
    requires multiset(Values(c1)) == multiset(Values(c2))
    ensures TopSum(c1, n) == TopSum(c2, n)
  {
    TopCounts(c1, n);
    TopCounts(c2, n);
    DescendingUnique(Counts(SortByCount(Items(c1))), Counts(SortByCount(Items(c2))));
  }

  /** With n >= 1 the top-n sum covers the count of every word, the largest included. */
  lemma TopSumCoversEachCount(c: Counter, n: nat, w: string)
    requires c.Valid() && n >= 1
    requires w in c.counts
    ensures c.counts[w] <= TopSum(c, n)
  {
    TopCounts(c, n);
    var sorted := Counts(SortByCount(Items(c)));
    var j :| 0 <= j < |c.keys| && c.keys[j] == w;
    assert Values(c)[j] == c.counts[w];
    assert c.counts[w] in multiset(sorted);
    DescendingHeadIsMax(sorted, c.counts[w]);
    SumPrefix(sorted, Min(n, |sorted|));
  }
}
