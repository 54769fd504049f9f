/** Character- and string-level helpers that stand for the Java library calls
    the core relies on: `toLowerCase`, `equalsIgnoreCase`, `isBlank`,
    `String.CASE_INSENSITIVE_ORDER` and substring containment.
    Case folding is modelled for the ASCII letters only. */
module Text {

  /** `Character.toLowerCase` on 'A'..'Z'; every other character is kept. */
  function Lower(c: char): char
  {
    if 'A' <= c <= 'Z' then (c as int + 32) as char else c
  }

  /** `String.toLowerCase`, character by character. */
  function LowerStr(s: string): (r: string)
    ensures |r| == |s|
    ensures forall i :: 0 <= i < |s| ==> r[i] == Lower(s[i])
  {
    seq(|s|, i requires 0 <= i < |s| => Lower(s[i]))
  }

  lemma LowerStrCons(s: string)
    requires s != []
    ensures LowerStr(s) == [Lower(s[0])] + LowerStr(s[1..])
  {
    assert LowerStr(s)[1..] == LowerStr(s[1..]);
  }

  /** `String.equalsIgnoreCase` (and the SQL `upper(x) = upper(y)` of derived
      `...IgnoreCase` queries). */
  predicate EqualsIgnoreCase(a: string, b: string)
  {
    LowerStr(a) == LowerStr(b)
  }

  /** needle occurs in hay starting at offset i. */
  predicate OccursAt(needle: string, hay: string, i: int)
  {
    0 <= i <= |hay| - |needle| && hay[i..i + |needle|] == needle
  }

  /** `hay.contains(needle)`: needle occurs at some offset of hay. */
  predicate IsSubstring(needle: string, hay: string)
  {
    exists i :: 0 <= i <= |hay| - |needle| && OccursAt(needle, hay, i)
  }

  /** `Character.isWhitespace`: the ASCII controls it lists plus the Unicode
      space, line and paragraph separators other than the non-breaking ones. */
  predicate IsWhitespace(c: char)
  {
    || c == ' ' || c == '\t' || c == '\n' || c == '\U{000B}' || c == '\U{000C}' || c == '\r'
    || '\U{001C}' <= c <= '\U{001F}'
    || c == '\U{1680}' || '\U{2000}' <= c <= '\U{2006}' || '\U{2008}' <= c <= '\U{200A}'
    || c == '\U{2028}' || c == '\U{2029}' || c == '\U{205F}' || c == '\U{3000}'
  }

  /** `String.isBlank`: empty, or white space only. */
  predicate IsBlankText(s: string)
  {
    forall i :: 0 <= i < |s| ==> IsWhitespace(s[i])
  }

  /** The scan behind `isBlank`: the index of the first character that is not
      white space, or the length when there is none. */
  function IndexOfNonWhitespace(s: string): (k: nat)
    ensures k <= |s|
    ensures forall i :: 0 <= i < k ==> IsWhitespace(s[i])
    ensures k < |s| ==> !IsWhitespace(s[k])
  {
    if s == [] || !IsWhitespace(s[0]) then 0 else 1 + IndexOfNonWhitespace(s[1..])
  }

  /** The concatenation a + b + c of a message template around b: it starts
      with a, and b occurs in it right after a. */
  function Enclose(a: string, b: string, c: string): (m: string)
    ensures |m| == |a| + |b| + |c|
    ensures m[..|a|] == a
    ensures OccursAt(b, m, |a|) && IsSubstring(b, m)
  {
    var m := a + b + c;
    assert m[|a|..|a| + |b|] == b;
    assert OccursAt(b, m, |a|);
    m
  }

  /** `String.CASE_INSENSITIVE_ORDER.compare(a, b)`: the difference of the
      first pair of case-folded characters that differ, otherwise the
      difference of the lengths. */
  function CompareIgnoreCase(a: string, b: string): int
  {
    if a == [] || b == [] then |a| - |b|
    else if Lower(a[0]) != Lower(b[0]) then Lower(a[0]) as int - Lower(b[0]) as int
    else CompareIgnoreCase(a[1..], b[1..])
  }

  /** Swapping the arguments negates the comparison. */
  lemma {:induction false} CompareAntisymmetric(a: string, b: string)
    ensures CompareIgnoreCase(a, b) == -CompareIgnoreCase(b, a)
  {
    if a != [] && b != [] && Lower(a[0]) == Lower(b[0]) {
      CompareAntisymmetric(a[1..], b[1..]);
    }
  }

  /** The comparison is zero exactly on strings equal ignoring case, so it is
      consistent with `equalsIgnoreCase`. */
  lemma {:induction false} CompareZeroIffEqualsIgnoreCase(a: string, b: string)
    ensures CompareIgnoreCase(a, b) == 0 <==> EqualsIgnoreCase(a, b)
  {
    if a == [] || b == [] {
      assert |LowerStr(a)| == |a| && |LowerStr(b)| == |b|;
    } else {
      LowerStrCons(a);
      LowerStrCons(b);
      if Lower(a[0]) != Lower(b[0]) {
        assert LowerStr(a)[0] != LowerStr(b)[0];
      } else {
        CompareZeroIffEqualsIgnoreCase(a[1..], b[1..]);
        assert LowerStr(a)[1..] == LowerStr(a[1..]);
        assert LowerStr(b)[1..] == LowerStr(b[1..]);
      }
    }
  }

  /** The comparison orders strings transitively (a total preorder). */
  lemma {:induction false} CompareTransitive(a: string, b: string, c: string)
    requires CompareIgnoreCase(a, b) <= 0 && CompareIgnoreCase(b, c) <= 0
    ensures CompareIgnoreCase(a, c) <= 0
  {
    if a != [] && b != [] && c != [] && Lower(a[0]) == Lower(b[0]) == Lower(c[0]) {
      CompareTransitive(a[1..], b[1..], c[1..]);
    }
  }
}
