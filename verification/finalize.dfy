/**
 * The clean-up after the last batch: `Vec::dedup` (drop an element equal to
 * the one just before it) followed by `slice::sort`, in that order.
 */
module Finalize {
  import opened Text
  import opened Seqs

  /** Ascending in the byte-wise order of strings. */
  predicate Sorted(s: seq<Bytes>)
  {
    forall i, j :: 0 <= i < j < |s| ==> LexLe(s[i], s[j])
  }

  /** No element equals its successor. */
  ghost predicate NoAdjacentDuplicates(s: seq<Bytes>)
  {
    forall i, j :: 0 <= i < j < |s| && j == i + 1 ==> s[i] != s[j]
  }

  /** `Vec::dedup`: each run of equal neighbours shrinks to one element. */
  function Dedup(s: seq<Bytes>): (r: seq<Bytes>)
    ensures NoAdjacentDuplicates(r)
    ensures forall x :: x in r <==> x in s
    ensures multiset(r) <= multiset(s) && |r| <= |s|
    ensures s != [] ==> r != [] && r[0] == s[0]
  {
    if |s| <= 1 then s
    else
      assert s == [s[0]] + s[1..];
      if s[0] == s[1] then Dedup(s[1..])
      else [s[0]] + Dedup(s[1..])
  }

  /** A list without equal neighbours is left alone; so dedup is idempotent. */
  lemma {:induction false} DedupKeepsRunFree(s: seq<Bytes>)
    requires NoAdjacentDuplicates(s)
    ensures Dedup(s) == s
  {
    if |s| > 1 {
      assert s[0] != s[1];
      DedupKeepsRunFree(s[1..]);
      assert s == [s[0]] + s[1..];
    }
  }

  /** Dedup works run by run: where two lists meet without equal neighbours,
      deduplicating the whole is deduplicating each part. */
  lemma {:induction false} DedupSplit(a: seq<Bytes>, b: seq<Bytes>)
    requires a != [] && b != [] && a[|a| - 1] != b[0]
    ensures Dedup(a + b) == Dedup(a) + Dedup(b)
  {
    assert (a + b)[0] == a[0];
    if |a| == 1 {
      assert (a + b)[1..] == b;
    } else {
      assert (a + b)[1..] == a[1..] + b;
      DedupSplit(a[1..], b);
    }
  }

  /** A run of equal elements shrinks to one. */
  lemma {:induction false} DedupRun(x: Bytes, n: nat)
    requires n >= 1
    ensures Dedup(seq(n, _ => x)) == [x]
  {
    if n > 1 {
      assert seq(n, _ => x)[1..] == seq(n - 1, _ => x);
      DedupRun(x, n - 1);
    }
  }

  /** The list made of `ns[i]` copies of `xs[i]`, one run after the other. */
  function Runs(xs: seq<Bytes>, ns: seq<nat>): (s: seq<Bytes>)
    requires |xs| == |ns|
    requires forall i :: 0 <= i < |ns| ==> ns[i] >= 1
    ensures xs != [] ==> s != [] && s[0] == xs[0]
    ensures |s| >= |xs|
  {
    if xs == [] then []
    else seq(ns[0], _ => xs[0]) + Runs(xs[1..], ns[1..])
  }

  /** What `Vec::dedup` does to any list, written as maximal runs of equal
      neighbours: it keeps exactly one element of each run, in order. */
  lemma {:induction false} DedupOfRuns(xs: seq<Bytes>, ns: seq<nat>)
    requires |xs| == |ns|
    requires forall i :: 0 <= i < |ns| ==> ns[i] >= 1
    requires forall i :: 0 < i < |xs| ==> xs[i - 1] != xs[i]
    ensures Dedup(Runs(xs, ns)) == xs
  {
    if xs != [] {
      var run := seq(ns[0], _ => xs[0]);
      DedupRun(xs[0], ns[0]);
      if |xs| == 1 {
        assert Runs(xs, ns) == run + [];
        assert run + [] == run;
      } else {
        var rest := Runs(xs[1..], ns[1..]);
        DedupOfRuns(xs[1..], ns[1..]);
        assert run[|run| - 1] == xs[0] != xs[1] == rest[0];
        DedupSplit(run, rest);
        assert xs == [xs[0]] + xs[1..];
      }
    }
  }

  /** A separator different from its right neighbour splits the dedup in three. */
  lemma DedupAroundSeparator(p: seq<Bytes>, y: Bytes, q: seq<Bytes>)
    requires p != [] && q != [] && p[|p| - 1] == q[0] && y != q[0]
    ensures Dedup(p + [y] + q) == Dedup(p) + ([y] + Dedup(q))
  {
    var yq := [y] + q;
    assert p + [y] + q == p + yq;
    assert yq[1..] == q;
    DedupSplit(p, yq);
    DedupSplit([y], q);
  }

  /** Two copies of an element kept apart by a different element both survive
      dedup, and sorting then makes them neighbours: the final list repeats it. */
  lemma SeparatedCopiesSurvive(p: seq<Bytes>, y: Bytes, q: seq<Bytes>)
    requires p != [] && q != [] && p[|p| - 1] == q[0] && y != q[0]
    ensures multiset(Dedup(p + [y] + q))[q[0]] >= 2
    ensures !Distinct(Sort(Dedup(p + [y] + q)))
  {
    var x := q[0];
    DedupAroundSeparator(p, y, q);
    var dp, dq := Dedup(p), Dedup(q);
    assert x in dp by { assert p[|p| - 1] in p; }
    assert x in dq by { assert q[0] in q; }
    var r := dp + ([y] + dq);
    assert multiset(r) == multiset(dp) + multiset{y} + multiset(dq);
    RepeatSurvivesSort(r, x);
  }

  /** Sorting keeps every copy, so a repeated element stays repeated. */
  lemma RepeatSurvivesSort(s: seq<Bytes>, x: Bytes)
    requires multiset(s)[x] >= 2
    ensures !Distinct(Sort(s))
  {
    assert x in multiset(Sort(s));
  }

  lemma PrependSorted(y: Bytes, s: seq<Bytes>)
    requires Sorted(s)
    requires forall z :: z in s ==> LexLe(y, z)
    ensures Sorted([y] + s)
  {
    forall i, j | 0 <= i < j < |[y] + s| ensures LexLe(([y] + s)[i], ([y] + s)[j]) {
      if i > 0 {
        assert ([y] + s)[i] == s[i - 1] && ([y] + s)[j] == s[j - 1];
      } else {
        assert ([y] + s)[j] == s[j - 1] && s[j - 1] in s;
      }
    }
  }

  /** The head of a sorted list bounds all of it from below. */
  lemma HeadIsLeast(x: Bytes, s: seq<Bytes>)
    requires Sorted(s) && s != [] && LexLe(x, s[0])
    ensures forall z :: z in s ==> LexLe(x, z)
  {
    forall z | z in s ensures LexLe(x, z) {
      var k :| 0 <= k < |s| && s[k] == z;
      if k > 0 {
        LexLeTransitive(x, s[0], z);
      }
    }
  }

  /** Every element of a rearrangement of the tail plus `x` is at least the head. */
  lemma HeadBoundsRest(s: seq<Bytes>, x: Bytes, rest: seq<Bytes>)
    requires Sorted(s) && s != [] && LexLe(s[0], x)
    requires multiset(rest) == multiset(s[1..]) + multiset{x}
    ensures forall z :: z in rest ==> LexLe(s[0], z)
  {
    forall z | z in rest ensures LexLe(s[0], z) {
      assert z in multiset(rest);
      if z != x {
        assert z in multiset(s[1..]);
        var k :| 0 <= k < |s[1..]| && s[1..][k] == z;
        assert s[k + 1] == z;
      }
    }
  }

  /** Insertion into a sorted list. */
  function Insert(x: Bytes, s: seq<Bytes>): (r: seq<Bytes>)
    requires Sorted(s)
    ensures Sorted(r)
    ensures multiset(r) == multiset(s) + multiset{x} && |r| == |s| + 1
  {
    if s == [] then [x]
    else if LexLe(x, s[0]) then
      HeadIsLeast(x, s);
      PrependSorted(x, s);
      [x] + s
    else
      LexLeTotal(x, s[0]);
      SortedTail(s);
      assert s == [s[0]] + s[1..];
      var rest := Insert(x, s[1..]);
      HeadBoundsRest(s, x, rest);
      PrependSorted(s[0], rest);
      [s[0]] + rest
  }

  /** `slice::sort`: ascending, a permutation of the input. */
  function Sort(s: seq<Bytes>): (r: seq<Bytes>)
    ensures Sorted(r)
    ensures multiset(r) == multiset(s) && |r| == |s|
  {
    if s == [] then []
    else
      assert s == [s[0]] + s[1..];
      Insert(s[0], Sort(s[1..]))
  }

  /** Two sorted permutations of one non-empty list start with the same element. */
  lemma SortedHeadsEqual(a: seq<Bytes>, b: seq<Bytes>)
    requires Sorted(a) && Sorted(b)
    requires multiset(a) == multiset(b) && a != []
    ensures b != [] && a[0] == b[0]
  {
    assert a[0] in multiset(b);
    assert b[0] in multiset(a);
    var i :| 0 <= i < |b| && b[i] == a[0];
    var j :| 0 <= j < |a| && a[j] == b[0];
    assert LexLe(b[0], a[0]) by {
      if i > 0 { assert LexLe(b[0], b[i]); } else { LexLeReflexive(b[0]); }
    }
    assert LexLe(a[0], b[0]) by {
      if j > 0 { assert LexLe(a[0], a[j]); } else { LexLeReflexive(a[0]); }
    }
    LexLeAntisymmetric(a[0], b[0]);
  }

  lemma SortedTail(a: seq<Bytes>)
    requires Sorted(a) && a != []
    ensures Sorted(a[1..])
  {
    forall i, j | 0 <= i < j < |a[1..]| ensures LexLe(a[1..][i], a[1..][j]) {
      assert a[1..][i] == a[i + 1] && a[1..][j] == a[j + 1];
    }
  }

  /** A sorted permutation is unique, so any correct sorting algorithm (the
      library's stable merge sort among them) gives the result of Sort. */
  lemma {:induction false} SortedUnique(a: seq<Bytes>, b: seq<Bytes>)
    requires Sorted(a) && Sorted(b)
    requires multiset(a) == multiset(b)
    ensures a == b
  {
    if a == [] {
      assert |b| == |multiset(b)| == 0;
    } else {
      SortedHeadsEqual(a, b);
      SortedTail(a);
      SortedTail(b);
      assert a == [a[0]] + a[1..];
      assert b == [b[0]] + b[1..];
      MultisetRemove(a[0], a[1..], [], b[1..]);
      SortedUnique(a[1..], b[1..]);
    }
  }

  /** The final list is sorted, has the same elements, and never grows. */
  lemma DedupThenSortSpec(s: seq<Bytes>)
    ensures Sorted(Sort(Dedup(s)))
    ensures forall x :: x in Sort(Dedup(s)) <==> x in s
    ensures multiset(Sort(Dedup(s))) <= multiset(s) && |Sort(Dedup(s))| <= |s|
  {
    forall x ensures x in Sort(Dedup(s)) <==> x in s {
      assert x in Sort(Dedup(s)) <==> x in multiset(Sort(Dedup(s)));
      assert x in Dedup(s) <==> x in multiset(Dedup(s));
    }
  }

  /** Without repeated elements going in, none come out. */
  lemma DistinctSurvives(s: seq<Bytes>)
    requires Distinct(s)
    ensures Distinct(Sort(Dedup(s)))
  {
    var r := Sort(Dedup(s));
    forall x | x in r ensures multiset(r)[x] == 1 {
      assert x in multiset(r);
      assert multiset(r)[x] <= multiset(s)[x];
      assert x in s;
    }
  }

  lemma DedupAlternating(a: Bytes, b: Bytes)
    requires a != b
    ensures Dedup([a, b, a]) == [a, b, a]
  {
    assert [a, b, a][1..] == [b, a];
    assert [b, a][1..] == [a];
    assert Dedup([b, a]) == [b] + [a];
  }

  lemma SortOfPermutation(s: seq<Bytes>, t: seq<Bytes>)
    requires Sorted(t) && multiset(s) == multiset(t)
    ensures Sort(s) == t
  {
    SortedUnique(Sort(s), t);
  }

  lemma SortedTriple(x: Bytes, y: Bytes, z: Bytes)
    requires LexLe(x, y) && LexLe(y, z) && LexLe(x, z)
    ensures Sorted([x, y, z])
  {
    var t := [x, y, z];
    forall i, j | 0 <= i < j < 3 ensures LexLe(t[i], t[j]) {
      if i == 0 && j == 1 { assert t[i] == x && t[j] == y; }
      else if i == 0 { assert t[i] == x && t[j] == z; }
      else { assert t[i] == y && t[j] == z; }
    }
  }

  lemma SortAlternating(a: Bytes, b: Bytes)
    requires LexLe(a, b)
    ensures Sort([a, b, a]) == [a, a, b]
  {
    LexLeReflexive(a);
    SortedTriple(a, a, b);
    var s, t := [a, b, a], [a, a, b];
    assert multiset(s) == multiset{a, a, b} == multiset(t);
    SortOfPermutation(s, t);
  }

  /** Dedup runs before sort, so copies that were not neighbours survive:
      for any two different names a < b, [a, b, a] ends as [a, a, b]
      (["abc.rs", "xyz.rs", "abc.rs"] ends as ["abc.rs", "abc.rs", "xyz.rs"]). */
  lemma NonAdjacentDuplicateSurvives(a: Bytes, b: Bytes)
    requires a != b && LexLe(a, b)
    ensures Sort(Dedup([a, b, a])) == [a, a, b]
    ensures !Distinct(Sort(Dedup([a, b, a])))
  {
    DedupAlternating(a, b);
    SortAlternating(a, b);
    var t := [a, a, b];
    assert multiset(t) == multiset{a, a, b};
    assert t[0] in t && multiset(t)[t[0]] == 2;
  }
}
