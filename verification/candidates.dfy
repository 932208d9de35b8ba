/**
 * Candidate generation: the word filter applied while the word lists are
 * read, the truncate-and-append transform that turns a kept word into a
 * domain, and the flattening of the per-file lists into one candidate list.
 */
module Candidates {
  import opened Wrappers
  import opened Text
  import opened Seqs

  /** The top-level domain searched, "rs". */
  const Tld: Bytes := [114, 115]

  /** What `format!(".{TLD}")` appends: ".rs". */
  const DotTld: Bytes := [46] + Tld

  /** The shortest word kept. */
  const MinWordLength: nat := 5

  /** The number of bytes cut off a kept word before ".rs" is appended. */
  const TrimmedBytes: nat := 2

  /** The filter on each line of a word list. */
  predicate Qualifies(word: Bytes)
    // the last two bytes are ASCII, so the cut before them is a character boundary
    ensures Qualifies(word) ==> IsCharBoundary(word, |word| - TrimmedBytes)
  {
    assert EndsWith(word, Tld) ==> word[|word| - 2] == word[|word| - 2..][0];
    EndsWith(word, Tld) && |word| >= MinWordLength
  }

  /** The kept words of one list, in their order in the file. */
  function KeptWords(lines: seq<Bytes>): (kept: seq<Bytes>)
    ensures |kept| <= |lines|
    ensures forall w :: w in kept <==> w in lines && Qualifies(w)
  {
    if lines == [] then []
    else
      if Qualifies(lines[0]) then [lines[0]] + KeptWords(lines[1..]) else KeptWords(lines[1..])
  }

  /** Filtering works line by line: the kept words of two consecutive parts
      are those of the first part followed by those of the second, so the
      kept words stay in file order. */
  lemma {:induction false} KeptWordsAppend(a: seq<Bytes>, b: seq<Bytes>)
    ensures KeptWords(a + b) == KeptWords(a) + KeptWords(b)
  {
    if a == [] {
      assert a + b == b;
    } else {
      assert (a + b)[0] == a[0];
      assert (a + b)[1..] == a[1..] + b;
      KeptWordsAppend(a[1..], b);
    }
  }

  /** The filter drops no copy of a qualifying word and keeps no copy of any other. */
  lemma {:induction false} KeptWordsCount(lines: seq<Bytes>, w: Bytes)
    ensures multiset(KeptWords(lines))[w] == if Qualifies(w) then multiset(lines)[w] else 0
  {
    if lines != [] {
      assert lines == [lines[0]] + lines[1..];
      KeptWordsCount(lines[1..], w);
    }
  }

  /** One kept word turned into a domain; None is the panic of the slice. */
  function Candidate(word: Bytes): (r: Option<Bytes>)
    ensures r.Some? ==> EndsWith(r.value, DotTld) && |r.value| == |word| + 1
    ensures Qualifies(word) ==> r.Some? && |r.value| >= MinWordLength + 1
  {
    match PrefixSlice(word, |word| - TrimmedBytes)
    case None => None
    case Some(stem) =>
      var d := stem + DotTld;
      assert d[|d| - |DotTld|..] == DotTld;
      assert Qualifies(word) ==> word[|word| - 2] == 114;
      Some(d)
  }

  /** The shape of every candidate: ".rs" after a label of at least three bytes. */
  predicate IsCandidateName(d: Bytes)
  {
    EndsWith(d, DotTld) && |d| >= MinWordLength + 1
  }

  /** The word a candidate name comes from: its label followed by "rs". */
  function WordOf(d: Bytes): Bytes
    requires EndsWith(d, DotTld)
  {
    d[..|d| - |DotTld|] + Tld
  }

  lemma CandidateRoundTrip(word: Bytes)
    requires Qualifies(word)
    ensures Candidate(word).Some?
    ensures IsCandidateName(Candidate(word).value)
    ensures WordOf(Candidate(word).value) == word
  {
    var d := Candidate(word).value;
    assert d == word[..|word| - 2] + DotTld;
    assert d[..|d| - 3] == word[..|word| - 2];
    assert word == word[..|word| - 2] + word[|word| - 2..];
  }

  lemma WordRoundTrip(d: Bytes)
    requires IsCandidateName(d)
    ensures Qualifies(WordOf(d))
    ensures Candidate(WordOf(d)) == Some(d)
  {
    var w := WordOf(d);
    assert w[|w| - 2..] == Tld;
    assert w[..|w| - 2] == d[..|d| - 3];
    assert d == d[..|d| - 3] + d[|d| - 3..];
  }

  /** The candidates of one list (the inner `map`); None if any slice panics. */
  function FileCandidates(kept: seq<Bytes>): (r: Option<seq<Bytes>>)
    ensures r.Some? ==> |r.value| == |kept|
    ensures r.Some? ==> forall d :: d in r.value ==> EndsWith(d, DotTld)
  {
    if kept == [] then Some([])
    else
      match Candidate(kept[0])
      case None => None
      case Some(d) =>
        match FileCandidates(kept[1..])
        case None => None
        case Some(rest) => Some([d] + rest)
  }

  /** All candidates: each list filtered, transformed, then concatenated in
      the order the lists are given. */
  function Generate(lists: seq<seq<Bytes>>): (r: Option<seq<Bytes>>)
    ensures r.Some? ==> forall d :: d in r.value ==> EndsWith(d, DotTld)
  {
    if lists == [] then Some([])
    else
      match FileCandidates(KeptWords(lists[0]))
      case None => None
      case Some(first) =>
        match Generate(lists[1..])
        case None => None
        case Some(rest) => Some(first + rest)
  }

  /** Some list holds the word. */
  predicate Listed(lists: seq<seq<Bytes>>, w: Bytes)
  {
    exists i :: 0 <= i < |lists| && w in lists[i]
  }

  /** The kept words of all lists, concatenated. */
  function AllKept(lists: seq<seq<Bytes>>): (r: seq<Bytes>)
    ensures |r| == TotalHacks(lists)
    ensures forall w :: w in r <==> Qualifies(w) && Listed(lists, w)
  {
    if lists == [] then []
    else
      var r := KeptWords(lists[0]) + AllKept(lists[1..]);
      assert forall w :: Listed(lists, w) <==> w in lists[0] || Listed(lists[1..], w) by {
        forall w ensures Listed(lists, w) <==> w in lists[0] || Listed(lists[1..], w) {
          if Listed(lists, w) {
            var i :| 0 <= i < |lists| && w in lists[i];
            if i > 0 {
              assert w in lists[1..][i - 1];
            }
          }
          if Listed(lists[1..], w) {
            var i :| 0 <= i < |lists[1..]| && w in lists[1..][i];
            assert w in lists[i + 1];
          }
        }
      }
      r
  }

  /** The logged count of kept words: the sum of the per-file counts. */
  function TotalHacks(lists: seq<seq<Bytes>>): nat
  {
    if lists == [] then 0 else |KeptWords(lists[0])| + TotalHacks(lists[1..])
  }

  lemma {:induction false} FileCandidatesNeverPanic(kept: seq<Bytes>)
    requires forall w :: w in kept ==> Qualifies(w)
    ensures FileCandidates(kept).Some?
  {
    if kept != [] {
      assert kept[0] in kept;
      FileCandidatesNeverPanic(kept[1..]);
    }
  }

  lemma {:induction false} FileCandidatesSpec(kept: seq<Bytes>)
    requires forall w :: w in kept ==> Qualifies(w)
    ensures FileCandidates(kept).Some?
    ensures |FileCandidates(kept).value| == |kept|
    ensures forall i :: 0 <= i < |kept| ==> Candidate(kept[i]) == Some(FileCandidates(kept).value[i])
  {
    if kept != [] {
      assert kept[0] in kept;
      FileCandidatesSpec(kept[1..]);
      var rest := FileCandidates(kept[1..]).value;
      assert FileCandidates(kept).value == [Candidate(kept[0]).value] + rest;
      forall i | 0 < i < |kept| ensures Candidate(kept[i]) == Some(FileCandidates(kept).value[i]) {
        assert kept[i] == kept[1..][i - 1];
      }
    }
  }

  lemma KeptCandidatesNeverPanic(lines: seq<Bytes>)
    ensures FileCandidates(KeptWords(lines)).Some?
  {
    FileCandidatesNeverPanic(KeptWords(lines));
  }

  /** The slice never panics: every word that passed the filter is long
      enough, and the cut falls on a character boundary. */
  lemma {:induction false} GenerateNeverPanics(lists: seq<seq<Bytes>>)
    ensures Generate(lists).Some?
  {
    if lists != [] {
      KeptCandidatesNeverPanic(lists[0]);
      GenerateNeverPanics(lists[1..]);
    }
  }

  /** One candidate per kept word, in order: the count is the sum of the
      per-file counts. */
  lemma {:induction false} GenerateSpec(lists: seq<seq<Bytes>>)
    ensures Generate(lists).Some?
    ensures |Generate(lists).value| == |AllKept(lists)| == TotalHacks(lists)
    ensures forall i :: 0 <= i < |AllKept(lists)| ==>
      Candidate(AllKept(lists)[i]) == Some(Generate(lists).value[i])
  {
    if lists != [] {
      var kept := KeptWords(lists[0]);
      FileCandidatesSpec(kept);
      GenerateSpec(lists[1..]);
      var first := FileCandidates(kept).value;
      var rest := Generate(lists[1..]).value;
      assert Generate(lists).value == first + rest;
      assert AllKept(lists) == kept + AllKept(lists[1..]);
      forall i | 0 <= i < |AllKept(lists)|
        ensures Candidate(AllKept(lists)[i]) == Some(Generate(lists).value[i])
      {
        if i >= |kept| {
          assert AllKept(lists)[i] == AllKept(lists[1..])[i - |kept|];
        }
      }
    }
  }

  /** A name is a candidate exactly when it has the candidate shape and the
      word it comes from is listed somewhere. */
  lemma GenerateMembership(lists: seq<seq<Bytes>>, d: Bytes)
    ensures Generate(lists).Some?
    ensures d in Generate(lists).value <==>
      IsCandidateName(d) && Listed(lists, WordOf(d))
  {
    GenerateSpec(lists);
    var kept := AllKept(lists);
    var gen := Generate(lists).value;
    if d in gen {
      var i :| 0 <= i < |gen| && gen[i] == d;
      assert kept[i] in kept;
      CandidateRoundTrip(kept[i]);
    }
    if IsCandidateName(d) && Listed(lists, WordOf(d)) {
      WordRoundTrip(d);
      var i :| 0 <= i < |kept| && kept[i] == WordOf(d);
      assert gen[i] == d;
    }
  }

  lemma {:induction false} GenerateAppend(a: seq<seq<Bytes>>, b: seq<seq<Bytes>>)
    ensures Generate(a + b).Some? && Generate(a).Some? && Generate(b).Some?
    ensures Generate(a + b).value == Generate(a).value + Generate(b).value
  {
    if a == [] {
      assert a + b == b;
      GenerateNeverPanics(b);
    } else {
      var ab := a + b;
      assert ab[0] == a[0];
      assert ab[1..] == a[1..] + b;
      GenerateAppend(a[1..], b);
      KeptCandidatesNeverPanic(a[0]);
    }
  }

  lemma GenerateSplit(before: seq<seq<Bytes>>, x: seq<Bytes>, after: seq<seq<Bytes>>)
    ensures Generate(before + [x] + after).Some? && Generate([x]).Some? && Generate(before + after).Some?
    ensures multiset(Generate(before + [x] + after).value) ==
      multiset(Generate([x]).value) + multiset(Generate(before + after).value)
  {
    GenerateAppend(before, after);
    GenerateAppend(before + [x], after);
    GenerateAppend(before, [x]);
    var gx := Generate([x]).value;
    var gb, ga := Generate(before).value, Generate(after).value;
    assert Generate(before + [x] + after).value == gb + gx + ga;
    assert multiset(gb + gx + ga) == multiset(gx) + multiset(gb + ga);
  }

  /** The lists come out of a hash map in no fixed order: any order of the same
      lists yields the same candidates, counted with multiplicity. */
  lemma {:induction false} GenerateAnyOrder(lists: seq<seq<Bytes>>, other: seq<seq<Bytes>>)
    requires multiset(lists) == multiset(other)
    ensures Generate(lists).Some? && Generate(other).Some?
    ensures multiset(Generate(lists).value) == multiset(Generate(other).value)
  {
    GenerateNeverPanics(lists);
    GenerateNeverPanics(other);
    if lists == [] {
      assert |other| == |multiset(other)| == 0;
    } else {
      var x, rest := lists[0], lists[1..];
      assert lists == [x] + rest;
      var before, after := TakeOut(lists, other);
      GenerateAnyOrder(rest, before + after);
      GenerateAppend([x], rest);
      GenerateSplit(before, x, after);
    }
  }

  /** The word "abcrs" passes the filter and becomes "abc.rs". */
  lemma AbcrsBecomesAbcDotRs()
    ensures Qualifies([97, 98, 99, 114, 115])
    ensures KeptWords([[97, 98, 99, 114, 115]]) == [[97, 98, 99, 114, 115]]
    ensures FileCandidates([[97, 98, 99, 114, 115]]) == Some([[97, 98, 99, 46, 114, 115]])
  {
    var abcrs: Bytes := [97, 98, 99, 114, 115];
    var d: Bytes := [97, 98, 99, 46, 114, 115];
    assert abcrs[3..] == Tld;
    assert [abcrs][1..] == [];
    assert abcrs[..3] == [97, 98, 99];
    assert PrefixSlice(abcrs, |abcrs| - TrimmedBytes) == Some([97, 98, 99]);
    assert DotTld == [46, 114, 115];
    assert [97, 98, 99] + DotTld == d;
    assert Candidate(abcrs) == Some(d);
    assert FileCandidates([]) == Some([]);
    assert [d] + [] == [d];
  }

  /** A list with "abcrs" and "xyrs": the first is kept and becomes "abc.rs";
      the second is one byte short and is dropped. */
  lemma ExampleOneList()
    ensures Generate([[[97, 98, 99, 114, 115], [120, 121, 114, 115]]]) == Some([[97, 98, 99, 46, 114, 115]])
  {
    var abcrs: Bytes := [97, 98, 99, 114, 115];
    var xyrs: Bytes := [120, 121, 114, 115];
    AbcrsBecomesAbcDotRs();
    assert !Qualifies(xyrs);
    assert [abcrs, xyrs][1..] == [xyrs];
    assert KeptWords([abcrs, xyrs]) == [abcrs];
    var d: Bytes := [97, 98, 99, 46, 114, 115];
    assert [[abcrs, xyrs]][1..] == [];
    assert Generate([]) == Some([]);
    assert [d] + [] == [d];
  }

  /** Two lists that both hold "abcrs" yield "abc.rs" twice: nothing removes
      duplicates across lists. */
  lemma ExampleTwoLists()
    ensures Generate([[[97, 98, 99, 114, 115]], [[97, 98, 99, 114, 115]]])
         == Some([[97, 98, 99, 46, 114, 115], [97, 98, 99, 46, 114, 115]])
  {
    var abcrs: Bytes := [97, 98, 99, 114, 115];
    var d: Bytes := [97, 98, 99, 46, 114, 115];
    var lists := [[abcrs], [abcrs]];
    AbcrsBecomesAbcDotRs();
    assert lists[1..] == [[abcrs]];
    assert [[abcrs]][1..] == [];
    assert Generate([]) == Some([]);
    assert [d] + [] == [d];
    assert Generate([[abcrs]]) == Some([d]);
    assert Generate(lists) == Some([d] + [d]);
    assert [d] + [d] == [d, d];
  }
}
