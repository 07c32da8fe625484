/**
 * Generic list operations used by every screen: the models of JavaScript's
 * `Array.prototype.filter`, of a summing `reduce`, and of the first-occurrence
 * de-duplication done by `Array.from(new Set(...))`.
 */
module Seqs {

  /** Keeps, in their original order, the elements of `s` that satisfy `p`. */
  function Filter<T(!new)>(s: seq<T>, p: T -> bool): (r: seq<T>)
    ensures |r| <= |s|
    ensures forall x :: x in r <==> x in s && p(x)
  {
    if s == [] then []
    else
      assert forall x :: x in s <==> x == s[0] || x in s[1..];
      if p(s[0]) then [s[0]] + Filter(s[1..], p) else Filter(s[1..], p)
  }

  /** `r` can be obtained from `s` by deleting elements, without reordering. */
  predicate IsSubsequence<T(==)>(r: seq<T>, s: seq<T>)
    decreases |s|
  {
    if r == [] then true
    else if s == [] then false
    else (r[0] == s[0] && IsSubsequence(r[1..], s[1..])) || IsSubsequence(r, s[1..])
  }

  /** Filtering distributes over concatenation: the relative order of the kept elements is that of the input. */
  lemma {:induction false} FilterConcat<T(!new)>(a: seq<T>, b: seq<T>, p: T -> bool)
    ensures Filter(a + b, p) == Filter(a, p) + Filter(b, p)
  {
    if a == [] {
      assert a + b == b;
    } else {
      assert (a + b)[0] == a[0];
      assert (a + b)[1..] == a[1..] + b;
      FilterConcat(a[1..], b, p);
    }
  }

  /** The result of a filter is a subsequence of its input. */
  lemma {:induction false} FilterIsSubsequence<T(!new)>(s: seq<T>, p: T -> bool)
    ensures IsSubsequence(Filter(s, p), s)
  {
    if s != [] {
      FilterIsSubsequence(s[1..], p);
      var r := Filter(s, p);
      if p(s[0]) {
        assert r[0] == s[0] && r[1..] == Filter(s[1..], p);
      } else {
        SubsequenceOfTail(r, s);
      }
    }
  }

  /** Helper: a subsequence of `s[1..]` is a subsequence of `s`. */
  lemma {:induction false} SubsequenceOfTail<T(!new)>(r: seq<T>, s: seq<T>)
    requires s != [] && IsSubsequence(r, s[1..])
    ensures IsSubsequence(r, s)
  {
  }

  /** Each value occurs in the filter result as often as in the input when it satisfies `p`, and never otherwise. */
  lemma {:induction false} FilterMultiset<T(!new)>(s: seq<T>, p: T -> bool, x: T)
    ensures multiset(Filter(s, p))[x] == if p(x) then multiset(s)[x] else 0
  {
    if s != [] {
      FilterMultiset(s[1..], p, x);
      assert s == [s[0]] + s[1..];
      assert multiset(s) == multiset([s[0]]) + multiset(s[1..]);
      if p(s[0]) {
        assert multiset(Filter(s, p)) == multiset([s[0]]) + multiset(Filter(s[1..], p));
      }
    }
  }

  /** A predicate that every element satisfies keeps the whole list. */
  lemma {:induction false} FilterAll<T(!new)>(s: seq<T>, p: T -> bool)
    requires forall x :: x in s ==> p(x)
    ensures Filter(s, p) == s
  {
    if s != [] {
      assert s[0] in s;
      assert forall x :: x in s[1..] ==> x in s;
      FilterAll(s[1..], p);
      assert [s[0]] + s[1..] == s;
    }
  }

  /** A predicate that no element satisfies keeps nothing. */
  lemma FilterNone<T(!new)>(s: seq<T>, p: T -> bool)
    requires forall x :: x in s ==> !p(x)
    ensures Filter(s, p) == []
  {
    if Filter(s, p) != [] {
      assert Filter(s, p)[0] in Filter(s, p);
    }
  }

  /**
   * Two predicates that are complementary on `s` split it: every element goes
   * to exactly one side, so the lengths and the multisets add up to those of `s`.
   */
  lemma {:induction false} FilterSplit<T(!new)>(s: seq<T>, p: T -> bool, q: T -> bool)
    requires forall x :: x in s ==> (q(x) <==> !p(x))
    ensures |Filter(s, p)| + |Filter(s, q)| == |s|
    ensures multiset(Filter(s, p)) + multiset(Filter(s, q)) == multiset(s)
  {
    if s != [] {
      assert s[0] in s;
      assert forall x :: x in s[1..] ==> x in s;
      FilterSplit(s[1..], p, q);
      assert s == [s[0]] + s[1..];
      assert multiset(s) == multiset([s[0]]) + multiset(s[1..]);
    }
  }

  /** Predicates that agree on every element of `s` keep the same elements. */
  lemma {:induction false} FilterCongruent<T(!new)>(s: seq<T>, p: T -> bool, q: T -> bool)
    requires forall x :: x in s ==> (p(x) <==> q(x))
    ensures Filter(s, p) == Filter(s, q)
  {
    if s != [] {
      assert s[0] in s;
      assert forall x :: x in s[1..] ==> x in s;
      FilterCongruent(s[1..], p, q);
    }
  }

  /** Filtering by `q` after `p`, where `q` implies `p` on `s`, is filtering by `q` alone. */
  lemma {:induction false} FilterOfFilter<T(!new)>(s: seq<T>, p: T -> bool, q: T -> bool)
    requires forall x :: x in s && q(x) ==> p(x)
    ensures Filter(Filter(s, p), q) == Filter(s, q)
  {
    if s != [] {
      assert s[0] in s;
      assert forall x :: x in s[1..] ==> x in s;
      FilterOfFilter(s[1..], p, q);
      if p(s[0]) {
        assert Filter(s, p) == [s[0]] + Filter(s[1..], p);
        assert Filter(s, p)[0] == s[0] && Filter(s, p)[1..] == Filter(s[1..], p);
      }
    }
  }

  /** When exactly the element at index `k` satisfies `p`, the filter returns just that element. */
  lemma FilterSingle<T(!new)>(s: seq<T>, p: T -> bool, k: int)
    requires 0 <= k < |s| && p(s[k])
    requires forall j :: 0 <= j < |s| && j != k ==> !p(s[j])
    ensures Filter(s, p) == [s[k]]
  {
    assert s == s[..k] + [s[k]] + s[k + 1..];
    FilterConcat(s[..k] + [s[k]], s[k + 1..], p);
    FilterConcat(s[..k], [s[k]], p);
    forall x | x in s[..k] ensures !p(x) {
      var j :| 0 <= j < k && s[..k][j] == x;
    }
    forall x | x in s[k + 1..] ensures !p(x) {
      var j :| 0 <= j < |s| - k - 1 && s[k + 1..][j] == x;
      assert s[k + 1 + j] == x;
    }
    FilterNone(s[..k], p);
    FilterNone(s[k + 1..], p);
  }

  /** The sum of `f` over `s`, added up from zero as a summing `reduce` does. */
  function Sum<T(!new)>(s: seq<T>, f: T -> int): (r: int)
    ensures (forall x :: x in s ==> f(x) >= 0) ==> r >= 0
  {
    if s == [] then 0
    else
      assert forall x :: x in s[1..] ==> x in s;
      f(s[0]) + Sum(s[1..], f)
  }

  /** Summing distributes over concatenation. */
  lemma {:induction false} SumConcat<T(!new)>(a: seq<T>, b: seq<T>, f: T -> int)
    ensures Sum(a + b, f) == Sum(a, f) + Sum(b, f)
  {
    if a == [] {
      assert a + b == b;
    } else {
      assert (a + b)[0] == a[0];
      assert (a + b)[1..] == a[1..] + b;
      SumConcat(a[1..], b, f);
    }
  }

  /** Splitting a list by complementary predicates splits its sum. */
  lemma {:induction false} SumSplit<T(!new)>(s: seq<T>, f: T -> int, p: T -> bool, q: T -> bool)
    requires forall x :: x in s ==> (q(x) <==> !p(x))
    ensures Sum(s, f) == Sum(Filter(s, p), f) + Sum(Filter(s, q), f)
  {
    if s != [] {
      assert s[0] in s;
      assert forall x :: x in s[1..] ==> x in s;
      SumSplit(s[1..], f, p, q);
    }
  }

  /** Elements outside `p` whose terms are zero do not change the sum. */
  lemma {:induction false} SumZeroOutside<T(!new)>(s: seq<T>, f: T -> int, p: T -> bool)
    requires forall x :: x in s && !p(x) ==> f(x) == 0
    ensures Sum(s, f) == Sum(Filter(s, p), f)
  {
    if s != [] {
      assert s[0] in s;
      assert forall x :: x in s[1..] ==> x in s;
      SumZeroOutside(s[1..], f, p);
    }
  }

  /** A sum of terms each at most `m` is at most `|s| * m`. */
  lemma {:induction false} SumAtMost<T(!new)>(s: seq<T>, f: T -> int, m: int)
    requires forall x :: x in s ==> f(x) <= m
    ensures Sum(s, f) <= |s| * m
  {
    if s != [] {
      assert s[0] in s;
      assert forall x :: x in s[1..] ==> x in s;
      SumAtMost(s[1..], f, m);
      assert |s| * m == m + (|s| - 1) * m;
    }
  }

  /** No value occurs twice in `s`. */
  predicate NoDuplicates<T(==)>(s: seq<T>) {
    forall i, j :: 0 <= i < j < |s| ==> s[i] != s[j]
  }

  /** The set of the elements of `s`. */
  function Elements<T>(s: seq<T>): set<T> {
    set x | x in s
  }

  /**
   * The distinct values of `s`, each at the position of its first occurrence:
   * the model of `Array.from(new Set(s))`, since a JavaScript Set iterates in
   * insertion order.
   */
  function Dedup<T(==,!new)>(s: seq<T>): (r: seq<T>)
    ensures NoDuplicates(r)
    ensures forall x :: x in r <==> x in s
    decreases |s|
  {
    if s == [] then []
    else
      var d := Dedup(s[..|s| - 1]);
      var last := s[|s| - 1];
      assert forall x :: x in s <==> x in s[..|s| - 1] || x == last by {
        assert s == s[..|s| - 1] + [last];
      }
      if last in d then d else d + [last]
  }

  /** The index of the first occurrence of `x` in `s`. */
  function FirstIndex<T(==)>(s: seq<T>, x: T): (i: nat)
    requires x in s
    ensures i < |s| && s[i] == x
    ensures forall j :: 0 <= j < i ==> s[j] != x
  {
    if s[0] == x then 0 else 1 + FirstIndex(s[1..], x)
  }

  /** The first occurrence of `x` in a prefix that contains it is its first occurrence in the whole list. */
  lemma FirstIndexOfPrefix<T>(s: seq<T>, n: nat, x: T)
    requires n <= |s| && x in s[..n]
    ensures x in s && FirstIndex(s[..n], x) == FirstIndex(s, x)
  {
    var i := FirstIndex(s[..n], x);
    assert s[i] == x;
    assert forall j :: 0 <= j < i ==> s[j] == s[..n][j];
  }

  /** `Dedup` lists the distinct values in the order of their first occurrences in `s`. */
  lemma {:induction false} DedupFirstOccurrenceOrder<T(!new)>(s: seq<T>, i: int, j: int)
    requires 0 <= i < j < |Dedup(s)|
    ensures Dedup(s)[i] in s && Dedup(s)[j] in s
    ensures FirstIndex(s, Dedup(s)[i]) < FirstIndex(s, Dedup(s)[j])
    decreases |s|
  {
    var init := s[..|s| - 1];
    var d := Dedup(init);
    var last := s[|s| - 1];
    var r := Dedup(s);
    assert s == init + [last];
    if j < |d| {
      assert r[i] == d[i] && r[j] == d[j];
      DedupFirstOccurrenceOrder(init, i, j);
      FirstIndexOfPrefix(s, |s| - 1, d[i]);
      FirstIndexOfPrefix(s, |s| - 1, d[j]);
    } else {
      assert last !in d && r == d + [last] && j == |d| && r[j] == last;
      assert r[i] == d[i] && d[i] in init;
      FirstIndexOfPrefix(s, |s| - 1, d[i]);
      assert forall k :: 0 <= k < |s| - 1 ==> s[k] == init[k] && init[k] in init;
    }
  }

  /** The same order for `[h] + Dedup(s)`, with indices counted after the head `h`. */
  lemma DedupOrderAfterHead<T(!new)>(h: T, s: seq<T>, i: int, j: int)
    requires 1 <= i < j < |[h] + Dedup(s)|
    ensures ([h] + Dedup(s))[i] in s && ([h] + Dedup(s))[j] in s
    ensures FirstIndex(s, ([h] + Dedup(s))[i]) < FirstIndex(s, ([h] + Dedup(s))[j])
  {
    var d := Dedup(s);
    var hd := [h] + d;
    assert |hd| == |d| + 1;
    assert hd[i] == d[i - 1] && hd[j] == d[j - 1];
    DedupFirstOccurrenceOrder(s, i - 1, j - 1);
  }

  /** A list without duplicates has as many elements as its set of elements. */
  lemma {:induction false} NoDuplicatesCardinality<T>(s: seq<T>)
    requires NoDuplicates(s)
    ensures |Elements(s)| == |s|
  {
    if s != [] {
      var t := s[1..];
      assert NoDuplicates(t) by {
        forall i, j | 0 <= i < j < |t| ensures t[i] != t[j] {
          assert t[i] == s[i + 1] && t[j] == s[j + 1];
        }
      }
      NoDuplicatesCardinality(t);
      assert s[0] !in Elements(t) by {
        forall j | 0 <= j < |t| ensures t[j] != s[0] {
          assert t[j] == s[j + 1];
        }
      }
      assert Elements(s) == {s[0]} + Elements(t) by {
        assert s == [s[0]] + t;
      }
    }
  }
}
