/** The .NET string primitives the service relies on, restricted to what the
    model needs: ASCII case mapping, `char.IsWhiteSpace` and `int.ToString`. */
module Text {

  /** `char.ToUpperInvariant` on ASCII letters; every other character is kept. */
  function ToUpperChar(c: char): char {
    if 'a' <= c <= 'z' then (c as int - 32) as char else c
  }

  /** `char.ToLowerInvariant` on ASCII letters; every other character is kept. */
  function ToLowerChar(c: char): char {
    if 'A' <= c <= 'Z' then (c as int + 32) as char else c
  }

  /** `ToUpperInvariant` on ASCII: the same word in any case, with no
      lower-case ASCII letter left. */
  function ToUpper(s: string): (r: string)
    ensures EqualsIgnoreCase(s, r)
    ensures forall i :: 0 <= i < |r| ==> !('a' <= r[i] <= 'z')
  {
    seq(|s|, i requires 0 <= i < |s| => ToUpperChar(s[i]))
  }

  /** `ToLower` on ASCII: the same word in any case, with no upper-case ASCII
      letter left. */
  function ToLower(s: string): (r: string)
    ensures EqualsIgnoreCase(s, r)
    ensures IsLowerCase(r)
  {
    seq(|s|, i requires 0 <= i < |s| => ToLowerChar(s[i]))
  }

  /** No upper-case ASCII letter in `s`. */
  predicate IsLowerCase(s: string) {
    forall i :: 0 <= i < |s| ==> !('A' <= s[i] <= 'Z')
  }

  /** Case-insensitive equality, character by character. */
  predicate EqualsIgnoreCase(s: string, t: string) {
    |s| == |t| && forall i :: 0 <= i < |s| ==> ToLowerChar(s[i]) == ToLowerChar(t[i])
  }

  /** Lower-casing `s` yields the lower-case word `t` exactly when `s` spells
      `t` in any mix of cases. */
  lemma ToLowerMatches(s: string, t: string)
    requires IsLowerCase(t)
    ensures ToLower(s) == t <==> EqualsIgnoreCase(s, t)
  {
    assert forall i :: 0 <= i < |t| ==> ToLowerChar(t[i]) == t[i];
    if EqualsIgnoreCase(s, t) {
      assert forall i :: 0 <= i < |s| ==> ToLower(s)[i] == t[i];
    }
  }

  /** `char.IsWhiteSpace`: the Unicode space, line and paragraph separators,
      the controls U+0009 to U+000D and U+0085. */
  predicate IsWhiteSpace(c: char) {
    || c == ' ' || ('\t' <= c <= '\r') || c == '\U{85}' || c == '\U{A0}'
    || c == '\U{1680}' || ('\U{2000}' <= c <= '\U{200A}') || c == '\U{2028}' || c == '\U{2029}'
    || c == '\U{202F}' || c == '\U{205F}' || c == '\U{3000}'
  }

  /** Which characters count as white space: the ASCII blanks, the no-break
      and ideographic spaces, but not the zero-width space or a letter. */
  lemma WhiteSpaceExamples()
    ensures IsWhiteSpace(' ') && IsWhiteSpace('\t') && IsWhiteSpace('\n') && IsWhiteSpace('\r')
    ensures IsWhiteSpace('\U{A0}') && IsWhiteSpace('\U{2003}') && IsWhiteSpace('\U{3000}')
    ensures !IsWhiteSpace('\U{200B}') && !IsWhiteSpace('\U{FEFF}') && !IsWhiteSpace('a') && !IsWhiteSpace('0')
  {
  }

  /** `string.IsNullOrWhiteSpace` for a non-null string, scanning from the
      front: the empty string and strings of white space only. */
  function IsBlank(s: string): (b: bool)
    ensures b <==> forall i :: 0 <= i < |s| ==> IsWhiteSpace(s[i])
  {
    if s == [] then true
    else if !IsWhiteSpace(s[0]) then false
    else IsBlank(s[1..])
  }

  predicate IsDigit(c: char) {
    '0' <= c <= '9'
  }

  function DigitChar(d: int): (c: char)
    requires 0 <= d < 10
    ensures IsDigit(c)
  {
    ('0' as int + d) as char
  }

  /** Decimal digits of `n`, without leading zeros. */
  function NatToString(n: nat): (r: string)
    ensures 0 < |r| && (|r| == 1 <==> n < 10)
    ensures forall i :: 0 <= i < |r| ==> IsDigit(r[i])
  {
    if n < 10 then [DigitChar(n)] else NatToString(n / 10) + [DigitChar(n % 10)]
  }

  /** `int.ToString()` with the invariant culture's minus sign: a '-' exactly
      for negative numbers, then decimal digits, no separator. */
  function IntToString(i: int): (r: string)
    ensures 0 < |r| && (r[0] == '-' <==> i < 0)
    ensures forall k :: 0 <= k < |r| ==> (IsDigit(r[k]) || (k == 0 && r[k] == '-'))
    ensures forall k :: 0 <= k < |r| ==> r[k] != '_'
  {
    if i < 0 then "-" + NatToString(-i) else NatToString(i)
  }

  lemma {:induction false} NatToStringInjective(a: nat, b: nat)
    requires NatToString(a) == NatToString(b)
    ensures a == b
  {
    if a >= 10 && b >= 10 {
      var s := NatToString(a);
      assert s == NatToString(a / 10) + [DigitChar(a % 10)];
      assert s == NatToString(b / 10) + [DigitChar(b % 10)];
      assert s[..|s| - 1] == NatToString(a / 10);
      assert s[..|s| - 1] == NatToString(b / 10);
      NatToStringInjective(a / 10, b / 10);
      assert DigitChar(a % 10) == s[|s| - 1] == DigitChar(b % 10);
    }
  }

  /** Distinct integers print differently. */
  lemma IntToStringInjective(a: int, b: int)
    requires IntToString(a) == IntToString(b)
    ensures a == b
  {
    var s := IntToString(a);
    assert (a < 0) == (s[0] == '-');
    assert (b < 0) == (s[0] == '-');
    if a < 0 {
      assert s[1..] == NatToString(-a) && s[1..] == NatToString(-b);
      NatToStringInjective(-a, -b);
    } else {
      NatToStringInjective(a, b);
    }
  }
}
