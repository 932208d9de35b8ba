/** Sequence helpers shared by the pipeline stages. */
module Seqs {

  /** The concatenation of a sequence of sequences, in order (Rust's `flat_map` / `concat`). */
  function Flatten<T>(ss: seq<seq<T>>): seq<T>
  {
    if ss == [] then [] else ss[0] + Flatten(ss[1..])
  }

  lemma {:induction false} FlattenAppend<T>(a: seq<seq<T>>, b: seq<seq<T>>)
    ensures Flatten(a + b) == Flatten(a) + Flatten(b)
  {
    if a == [] {
      assert a + b == b;
    } else {
      assert (a + b)[0] == a[0];
      assert (a + b)[1..] == a[1..] + b;
      FlattenAppend(a[1..], b);
    }
  }

  lemma FlattenSingle<T>(s: seq<T>)
    ensures Flatten([s]) == s
  {
    assert [s][1..] == [];
  }

  lemma FlattenPrefix<T>(ss: seq<seq<T>>, k: nat)
    requires k < |ss|
    ensures Flatten(ss[..k + 1]) == Flatten(ss[..k]) + ss[k]
  {
    assert ss[..k + 1] == ss[..k] + [ss[k]];
    FlattenAppend(ss[..k], [ss[k]]);
    FlattenSingle(ss[k]);
  }

  /** No value occurs twice. */
  predicate Distinct<T(==)>(s: seq<T>)
  {
    forall x :: x in s ==> multiset(s)[x] == 1
  }

  /** Where the first element of a sequence sits in a permutation of it. */
  lemma TakeOut<T>(s: seq<T>, t: seq<T>) returns (before: seq<T>, after: seq<T>)
    requires s != [] && multiset(s) == multiset(t)
    ensures t == before + [s[0]] + after
    ensures multiset(s[1..]) == multiset(before + after)
  {
    assert s[0] in multiset(t);
    var k :| 0 <= k < |t| && t[k] == s[0];
    before, after := t[..k], t[k + 1..];
    assert t == before + [s[0]] + after;
    assert s == [s[0]] + s[1..];
    MultisetRemove(s[0], s[1..], before, after);
  }

  /** Taking the same element out of two permutations leaves permutations. */
  lemma MultisetRemove<T>(x: T, rest: seq<T>, before: seq<T>, after: seq<T>)
    requires multiset([x] + rest) == multiset(before + [x] + after)
    ensures multiset(rest) == multiset(before + after)
  {
    calc {
      multiset{x} + multiset(rest);
      multiset([x] + rest);
      multiset(before + [x] + after);
      multiset(before) + multiset{x} + multiset(after);
      multiset{x} + multiset(before + after);
    }
    forall y ensures multiset(rest)[y] == multiset(before + after)[y] {
      assert (multiset{x} + multiset(rest))[y] == (multiset{x} + multiset(before + after))[y];
    }
  }
}
