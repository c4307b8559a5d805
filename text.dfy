/**
 * The .NET string operations the service relies on: `char.IsWhiteSpace`,
 * `string.IsNullOrWhiteSpace`, `Trim`, `ToLowerInvariant` / `ToLower` and
 * `Equals(..., StringComparison.OrdinalIgnoreCase)`.
 *
 * Case mapping is modelled for the ASCII letters only (see README).
 */
module Text {
  import opened Wrappers

  /** `char.IsWhiteSpace`: the Unicode separators Zs, Zl, Zp and the controls U+0009..U+000D, U+0085. */
  predicate IsWhiteSpace(c: char) {
    || c == ' '
    || ('\t' <= c <= '\r')
    || c == '\U{85}' || c == '\U{A0}' || c == '\U{1680}'
    || ('\U{2000}' <= c <= '\U{200A}')
    || c == '\U{2028}' || c == '\U{2029}' || c == '\U{202F}' || c == '\U{205F}' || c == '\U{3000}'
  }

  /** `string.IsNullOrWhiteSpace`: null, empty, or made of white space only. */
  predicate IsNullOrWhiteSpace(s: Option<string>) {
    s.None? || forall i :: 0 <= i < |s.value| ==> IsWhiteSpace(s.value[i])
  }

  predicate IsUpperChar(c: char) { 'A' <= c <= 'Z' }

  predicate IsLowerChar(c: char) { 'a' <= c <= 'z' }

  function ToLowerChar(c: char): (d: char)
    ensures IsUpperChar(c) ==> IsLowerChar(d) && d as int == c as int + 32
    ensures !IsUpperChar(c) ==> d == c
  {
    if IsUpperChar(c) then (c as int + 32) as char else c
  }

  function ToUpperChar(c: char): (d: char)
    ensures IsLowerChar(c) ==> IsUpperChar(d) && d as int == c as int - 32
    ensures !IsLowerChar(c) ==> d == c
  {
    if IsLowerChar(c) then (c as int - 32) as char else c
  }

  /** `ToLowerInvariant`, character by character. */
  function ToLower(s: string): (r: string)
    ensures |r| == |s|
    ensures forall i :: 0 <= i < |s| ==> r[i] == ToLowerChar(s[i])
  {
    seq(|s|, i requires 0 <= i < |s| => ToLowerChar(s[i]))
  }

  /** A string that `ToLowerInvariant` leaves as it is. */
  predicate IsLower(s: string) {
    forall i :: 0 <= i < |s| ==> !IsUpperChar(s[i])
  }

  /** `a.Equals(b, StringComparison.OrdinalIgnoreCase)`: equal after upper-casing each character. */
  predicate EqualsIgnoreCase(a: string, b: string) {
    |a| == |b| && forall i :: 0 <= i < |a| ==> ToUpperChar(a[i]) == ToUpperChar(b[i])
  }

  lemma ToLowerIsLower(s: string)
    ensures IsLower(ToLower(s))
    ensures IsLower(s) <==> ToLower(s) == s
  {
    if IsLower(s) {
      assert ToLower(s) == s;
    }
  }

  lemma ToLowerIdempotent(s: string)
    ensures ToLower(ToLower(s)) == ToLower(s)
  {
    ToLowerIsLower(s);
    ToLowerIsLower(ToLower(s));
  }

  /** Both case mappings identify exactly the same pairs of characters. */
  lemma CharCaseAgree(x: char, y: char)
    ensures ToUpperChar(x) == ToUpperChar(y) <==> ToLowerChar(x) == ToLowerChar(y)
  {
  }

  /** Ordinal case-insensitive equality is equality of the lower-cased strings. */
  lemma EqualsIgnoreCaseIffLower(a: string, b: string)
    ensures EqualsIgnoreCase(a, b) <==> ToLower(a) == ToLower(b)
  {
    if ToLower(a) == ToLower(b) {
      forall i | 0 <= i < |a|
        ensures ToUpperChar(a[i]) == ToUpperChar(b[i])
      {
        assert ToLower(a)[i] == ToLower(b)[i];
        CharCaseAgree(a[i], b[i]);
      }
    }
    if EqualsIgnoreCase(a, b) {
      forall i | 0 <= i < |a|
        ensures ToLower(a)[i] == ToLower(b)[i]
      {
        CharCaseAgree(a[i], b[i]);
      }
    }
  }

  lemma EqualsIgnoreCaseIffLowerAll(b: string)
    ensures forall a :: EqualsIgnoreCase(a, b) <==> ToLower(a) == ToLower(b)
  {
    forall a ensures EqualsIgnoreCase(a, b) <==> ToLower(a) == ToLower(b) {
      EqualsIgnoreCaseIffLower(a, b);
    }
  }

  /** `TrimStart` over the characters `isWhite` accepts. */
  function TrimStartWith(s: string, isWhite: char -> bool): (r: string)
    ensures |r| <= |s| && r == s[|s| - |r|..]
    ensures forall k :: 0 <= k < |s| - |r| ==> isWhite(s[k])
    ensures r == [] || !isWhite(r[0])
  {
    if |s| > 0 && isWhite(s[0]) then TrimStartWith(s[1..], isWhite) else s
  }

  /** `TrimEnd` over the characters `isWhite` accepts. */
  function TrimEndWith(s: string, isWhite: char -> bool): (r: string)
    ensures |r| <= |s| && r == s[..|r|]
    ensures forall k :: |r| <= k < |s| ==> isWhite(s[k])
    ensures r == [] || !isWhite(r[|r| - 1])
  {
    if |s| > 0 && isWhite(s[|s| - 1]) then TrimEndWith(s[..|s| - 1], isWhite) else s
  }

  /** How many white-space characters `Trim` removes from the front of `s`. */
  function LeadingWhiteSpace(s: string): nat {
    |s| - |TrimStartWith(s, IsWhiteSpace)|
  }

  /** `string.Trim()`: white space removed from both ends, nothing else. */
  function Trim(s: string): (r: string)
    ensures LeadingWhiteSpace(s) + |r| <= |s|
    ensures r == s[LeadingWhiteSpace(s)..LeadingWhiteSpace(s) + |r|]
    ensures forall k :: 0 <= k < LeadingWhiteSpace(s) ==> IsWhiteSpace(s[k])
    ensures forall k :: LeadingWhiteSpace(s) + |r| <= k < |s| ==> IsWhiteSpace(s[k])
    ensures r == [] || (!IsWhiteSpace(r[0]) && !IsWhiteSpace(r[|r| - 1]))
  {
    TrimEndWith(TrimStartWith(s, IsWhiteSpace), IsWhiteSpace)
  }

  /** A string with no white space at either end is its own trim. */
  lemma TrimOfTrimmed(s: string)
    requires s == [] || (!IsWhiteSpace(s[0]) && !IsWhiteSpace(s[|s| - 1]))
    ensures Trim(s) == s
  {
  }

  /** Lower-casing neither creates nor removes white space. */
  lemma ToLowerKeepsWhiteSpace(c: char)
    ensures IsWhiteSpace(ToLowerChar(c)) <==> IsWhiteSpace(c)
  {
  }

  /** Trimming and lower-casing a string a second time changes nothing. */
  lemma NormalizeIdempotent(s: string)
    ensures ToLower(Trim(ToLower(Trim(s)))) == ToLower(Trim(s))
  {
    var t := ToLower(Trim(s));
    if t != [] {
      ToLowerKeepsWhiteSpace(Trim(s)[0]);
      ToLowerKeepsWhiteSpace(Trim(s)[|t| - 1]);
    }
    TrimOfTrimmed(t);
    ToLowerIdempotent(Trim(s));
  }

  /** `s.EndsWith(c)` for a one-character suffix. */
  predicate EndsWithChar(s: string, c: char) {
    |s| > 0 && s[|s| - 1] == c
  }
}
