/**
  * String comparison as the composers use it: equality under an ordinal or an
  * ordinal-ignore-case comparison, and the ordinal order used to sort target names.
  */
module Strings {

  /** The two string comparison modes the help store is queried with. */
  datatype Comparison = Ordinal | OrdinalIgnoreCase

  /** Upper-cases an ASCII letter; every other character is left alone. */
  function ToUpperAscii(c: char): char
  {
    if 'a' <= c <= 'z' then (c as int - 32) as char else c
  }

  /** The case-folded form two names are compared in under OrdinalIgnoreCase. */
  function FoldCase(s: string): string
  {
    seq(|s|, i requires 0 <= i < |s| => ToUpperAscii(s[i]))
  }

  /** `a.Equals(b, cmp)` */
  predicate NameEquals(a: string, b: string, cmp: Comparison)
  {
    match cmp
    case Ordinal => a == b
    case OrdinalIgnoreCase => FoldCase(a) == FoldCase(b)
  }

  /** Lexicographic order on character codes, a proper prefix sorting first. */
  predicate OrdinalLessOrEqual(a: string, b: string)
    decreases |a|
  {
    a == [] || (b != [] && (a[0] < b[0] || (a[0] == b[0] && OrdinalLessOrEqual(a[1..], b[1..]))))
  }

  lemma {:induction false} OrdinalReflexive(a: string)
    ensures OrdinalLessOrEqual(a, a)
    decreases |a|
  {
    if a != [] {
      OrdinalReflexive(a[1..]);
    }
  }

  lemma {:induction false} OrdinalTotal(a: string, b: string)
    ensures OrdinalLessOrEqual(a, b) || OrdinalLessOrEqual(b, a)
    decreases |a|
  {
    if a != [] && b != [] && a[0] == b[0] {
      OrdinalTotal(a[1..], b[1..]);
    }
  }

  lemma {:induction false} OrdinalTransitive(a: string, b: string, c: string)
    requires OrdinalLessOrEqual(a, b) && OrdinalLessOrEqual(b, c)
    ensures OrdinalLessOrEqual(a, c)
    decreases |a|
  {
    if a != [] && a[0] == b[0] && b[0] == c[0] {
      OrdinalTransitive(a[1..], b[1..], c[1..]);
    }
  }

  /** `needle` starts at position `i` of `haystack`. */
  predicate OccursAt(needle: string, haystack: string, i: int)
  {
    0 <= i <= |haystack| - |needle| && haystack[i..i + |needle|] == needle
  }

  /** `needle` occurs somewhere in `haystack`. */
  ghost predicate Occurs(needle: string, haystack: string)
  {
    exists i :: OccursAt(needle, haystack, i)
  }

  /** Whatever surrounds a string, the string occurs in the result. */
  lemma OccursInContext(prefix: string, needle: string, suffix: string)
    ensures Occurs(needle, prefix + needle + suffix)
  {
    var h := prefix + needle + suffix;
    assert h[|prefix|..|prefix| + |needle|] == needle;
    assert OccursAt(needle, h, |prefix|);
  }

  /** A string occurs wherever a string containing it occurs. */
  lemma OccursWithin(prefix: string, needle: string, suffix: string, haystack: string)
    requires Occurs(prefix + needle + suffix, haystack)
    ensures Occurs(needle, haystack)
  {
    var whole := prefix + needle + suffix;
    var i :| OccursAt(whole, haystack, i);
    var j := i + |prefix|;
    assert haystack[j..j + |needle|] == whole[|prefix|..|prefix| + |needle|];
    assert whole[|prefix|..|prefix| + |needle|] == needle;
    assert OccursAt(needle, haystack, j);
  }

  /** An occurrence survives appending to the string it occurs in. */
  lemma OccursBeforeSuffix(needle: string, haystack: string, suffix: string)
    requires Occurs(needle, haystack)
    ensures Occurs(needle, haystack + suffix)
  {
    var i :| OccursAt(needle, haystack, i);
    assert (haystack + suffix)[i..i + |needle|] == haystack[i..i + |needle|];
    assert OccursAt(needle, haystack + suffix, i);
  }
}
