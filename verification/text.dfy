/**
 * Rust `str` values as the program uses them: UTF-8 byte strings whose
 * length, suffix test, slicing and ordering all work on bytes.
 */
module Text {
  import opened Wrappers

  newtype byte = b: int | 0 <= b < 256

  type Bytes = seq<byte>

  /** `str::is_char_boundary`: both ends are boundaries; an inner index is one
      unless it points at a UTF-8 continuation byte (0b10xx_xxxx). */
  predicate IsCharBoundary(s: Bytes, i: int)
    ensures IsCharBoundary(s, i) ==> 0 <= i <= |s|
    // in ASCII text every byte is a whole character, so every index is a boundary
    ensures (forall k :: 0 <= k < |s| ==> s[k] < 0x80) && 0 <= i <= |s| ==> IsCharBoundary(s, i)
  {
    i == 0 || i == |s| || (0 < i < |s| && !(0x80 <= s[i] < 0xC0))
  }

  /** `str::ends_with` with a string pattern. */
  predicate EndsWith(s: Bytes, suffix: Bytes)
  {
    |suffix| <= |s| && s[|s| - |suffix|..] == suffix
  }

  /** A string ends with a suffix exactly when it is some prefix followed by it. */
  lemma EndsWithSplit(s: Bytes, suffix: Bytes)
    ensures EndsWith(s, suffix) <==> exists p :: s == p + suffix
  {
    if EndsWith(s, suffix) {
      assert s == s[..|s| - |suffix|] + suffix;
    }
    forall p | s == p + suffix ensures EndsWith(s, suffix) {
      assert s[|p|..] == suffix;
    }
  }

  /** `&s[..end]`: panics (None) when `end` is out of range or splits a character.
      A negative `end` stands for a `usize` subtraction that underflowed. */
  function PrefixSlice(s: Bytes, end: int): (r: Option<Bytes>)
    ensures r.Some? ==> 0 <= end <= |s| && |r.value| == end && r.value + s[end..] == s
    ensures r.None? <==> end < 0 || end > |s| || !IsCharBoundary(s, end)
  {
    if 0 <= end <= |s| && IsCharBoundary(s, end) then Some(s[..end]) else None
  }

  /** `Ord for str`: lexicographic on bytes, a proper prefix sorting first. */
  predicate LexLe(a: Bytes, b: Bytes)
  {
    if a == [] then true
    else if b == [] then false
    else if a[0] != b[0] then a[0] < b[0]
    else LexLe(a[1..], b[1..])
  }

  /** A prefix sorts no later than the string it begins. */
  lemma {:induction false} LexLePrefix(a: Bytes, b: Bytes)
    requires a <= b
    ensures LexLe(a, b)
  {
    if a != [] {
      assert a[1..] <= b[1..];
      LexLePrefix(a[1..], b[1..]);
    }
  }

  lemma {:induction false} LexLeReflexive(a: Bytes)
    ensures LexLe(a, a)
  {
    if a != [] {
      LexLeReflexive(a[1..]);
    }
  }

  lemma {:induction false} LexLeTotal(a: Bytes, b: Bytes)
    ensures LexLe(a, b) || LexLe(b, a)
  {
    if a != [] && b != [] && a[0] == b[0] {
      LexLeTotal(a[1..], b[1..]);
    }
  }

  lemma {:induction false} LexLeAntisymmetric(a: Bytes, b: Bytes)
    requires LexLe(a, b) && LexLe(b, a)
    ensures a == b
  {
    if a != [] && b != [] {
      LexLeAntisymmetric(a[1..], b[1..]);
      assert a == [a[0]] + a[1..];
      assert b == [b[0]] + b[1..];
    }
  }

  lemma {:induction false} LexLeTransitive(a: Bytes, b: Bytes, c: Bytes)
    requires LexLe(a, b) && LexLe(b, c)
    ensures LexLe(a, c)
  {
    if a != [] && b != [] && c != [] && a[0] == b[0] && b[0] == c[0] {
      LexLeTransitive(a[1..], b[1..], c[1..]);
    }
  }
}
