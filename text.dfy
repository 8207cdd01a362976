/** String helpers shared by the scheduler and the project-detail helpers:
    decimal rendering of numbers (`String(n)` / `n.toString()`), `padStart`,
    JavaScript's white-space class and `trim`, and ASCII case mapping. */
module Text {

  predicate IsDigit(c: char) { '0' <= c <= '9' }

  predicate AllDigits(s: string) { forall i :: 0 <= i < |s| ==> IsDigit(s[i]) }

  function DigitChar(d: nat): (c: char)
    requires d < 10
    ensures IsDigit(c) && c as int - '0' as int == d
  {
    ('0' as int + d) as char
  }

  function DigitValue(c: char): nat
    requires IsDigit(c)
  {
    c as int - '0' as int
  }

  /** The number a run of decimal digits denotes (what `parseInt(s, 10)` gives for it). */
  function DigitsValue(s: string): nat
    requires AllDigits(s)
  {
    if s == [] then 0 else DigitsValue(s[..|s| - 1]) * 10 + DigitValue(s[|s| - 1])
  }

  /** `String(n)` for a non-negative integer: shortest decimal form, no leading zero. */
  function NatToString(n: nat): (s: string)
    ensures 1 <= |s| && AllDigits(s) && DigitsValue(s) == n
    ensures s[0] == '0' ==> n == 0
    ensures n < 10 ==> |s| == 1
    ensures 10 <= n < 100 ==> |s| == 2
    ensures 1000 <= n < 10000 ==> |s| == 4
    decreases n
  {
    if n < 10 then [DigitChar(n)]
    else
      var s := NatToString(n / 10) + [DigitChar(n % 10)];
      assert s[..|s| - 1] == NatToString(n / 10);
      s
  }

  /** Length of the longest run of digits at the front of `s` (what a greedy
      `\d+` consumes). */
  function LeadingDigits(s: string): (n: nat)
    ensures n <= |s| && AllDigits(s[..n])
    ensures n < |s| ==> !IsDigit(s[n])
  {
    if s != [] && IsDigit(s[0]) then
      var n := 1 + LeadingDigits(s[1..]);
      assert s[..n] == [s[0]] + s[1..][..n - 1];
      n
    else 0
  }

  lemma {:induction false} LeadingDigitsOfConcat(a: string, b: string)
    requires AllDigits(a) && (b == [] || !IsDigit(b[0]))
    ensures LeadingDigits(a + b) == |a|
    decreases |a|
  {
    if a != [] {
      assert (a + b)[1..] == a[1..] + b;
      LeadingDigitsOfConcat(a[1..], b);
    }
  }

  /** `String(i)` for any integer: a minus sign before the magnitude when negative. */
  function IntToString(i: int): (s: string)
    ensures 1 <= |s|
    ensures s[0] == '-' <==> i < 0
    ensures var mag := if i < 0 then s[1..] else s;
            && 1 <= |mag| && AllDigits(mag) && DigitsValue(mag) == (if i < 0 then -i else i)
            && (mag[0] == '0' ==> i == 0)
    ensures 1000 <= i < 10000 ==> |s| == 4
  {
    if i < 0 then "-" + NatToString(-i) else NatToString(i)
  }

  function Repeat(c: char, n: nat): (s: string)
    ensures |s| == n && forall k :: 0 <= k < n ==> s[k] == c
  {
    if n == 0 then [] else [c] + Repeat(c, n - 1)
  }

  /** `s.padStart(width, "0")`: zeros in front up to `width`, longer strings unchanged. */
  function PadStartZeros(s: string, width: nat): (r: string)
    ensures |s| >= width ==> r == s
    ensures |s| < width ==> |r| == width && r[width - |s|..] == s
    ensures |s| < width ==> forall k :: 0 <= k < width - |s| ==> r[k] == '0'
  {
    if |s| >= width then s else Repeat('0', width - |s|) + s
  }

  /** `String(n).padStart(2, "0")`. */
  function Pad2(n: nat): (s: string)
    ensures |s| >= 2 && AllDigits(s) && DigitsValue(s) == n
    ensures n < 100 ==> |s| == 2
  {
    var t := NatToString(n);
    if n < 10 then
      DigitsValueLeadingZero(t);
      assert PadStartZeros(t, 2) == "0" + t;
      PadStartZeros(t, 2)
    else PadStartZeros(t, 2)
  }

  lemma {:induction false} DigitsValueLeadingZero(s: string)
    requires AllDigits(s)
    ensures AllDigits("0" + s) && DigitsValue("0" + s) == DigitsValue(s)
    decreases |s|
  {
    if s != [] {
      var t := "0" + s;
      assert t[..|t| - 1] == "0" + s[..|s| - 1];
      DigitsValueLeadingZero(s[..|s| - 1]);
    }
  }

  /** The white-space class of JavaScript's `\s` and of `String.prototype.trim`:
      WhiteSpace and LineTerminator code points. */
  predicate IsJsSpace(c: char)
  {
    c == ' ' || c == '\t' || c == '\n' || c == '\r' || c == '\U{000B}' || c == '\U{000C}'
    || c == '\U{00A0}' || c == '\U{1680}' || ('\U{2000}' <= c <= '\U{200A}')
    || c == '\U{2028}' || c == '\U{2029}' || c == '\U{202F}' || c == '\U{205F}'
    || c == '\U{3000}' || c == '\U{FEFF}'
  }

  /** Length of the run of white space at the front of `s`. */
  function LeadingSpaces(s: string): (n: nat)
    ensures n <= |s| && forall k :: 0 <= k < n ==> IsJsSpace(s[k])
    ensures n < |s| ==> !IsJsSpace(s[n])
  {
    if s != [] && IsJsSpace(s[0]) then 1 + LeadingSpaces(s[1..]) else 0
  }

  /** Length of the run of white space at the back of `s`. */
  function TrailingSpaces(s: string): (n: nat)
    ensures n <= |s| && forall k :: |s| - n <= k < |s| ==> IsJsSpace(s[k])
    ensures n < |s| ==> !IsJsSpace(s[|s| - n - 1])
  {
    if s != [] && IsJsSpace(s[|s| - 1]) then 1 + TrailingSpaces(s[..|s| - 1]) else 0
  }

  /** `s.trimStart()`. */
  function TrimStart(s: string): string
  {
    s[LeadingSpaces(s)..]
  }

  /** `s.trimEnd()`. */
  function TrimEnd(s: string): string
  {
    s[..|s| - TrailingSpaces(s)]
  }

  /** `s.trim()`. */
  function Trim(s: string): string
  {
    TrimEnd(TrimStart(s))
  }

  /** The trimmed string is the slice of `s` that starts after its leading
      white space. */
  lemma TrimIsSlice(s: string)
    ensures var r := Trim(s); var k := LeadingSpaces(s);
      k + |r| <= |s| && r == s[k..k + |r|]
  {
    var k := LeadingSpaces(s);
    var t := s[k..];
    var m := |t| - TrailingSpaces(t);
    assert Trim(s) == t[..m] == s[k..k + m];
  }

  /** Only white space lies outside the trimmed slice. */
  lemma TrimDropsOnlySpace(s: string)
    ensures var r := Trim(s); var k := LeadingSpaces(s);
      (forall i :: 0 <= i < k ==> IsJsSpace(s[i])) &&
      (forall i :: k + |r| <= i < |s| ==> IsJsSpace(s[i]))
  {
    var k := LeadingSpaces(s);
    var t := s[k..];
    var m := |t| - TrailingSpaces(t);
    assert |Trim(s)| == m;
    forall i | k + m <= i < |s| ensures IsJsSpace(s[i]) {
      assert s[i] == t[i - k];
    }
  }

  /** The trimmed string has no white space at either end. */
  lemma TrimEnds(s: string)
    ensures var r := Trim(s); r == [] || (!IsJsSpace(r[0]) && !IsJsSpace(r[|r| - 1]))
  {
    var t := TrimStart(s);
    if TrailingSpaces(t) < |t| {
      assert Trim(s)[0] == t[0] == s[LeadingSpaces(s)];
    }
  }

  predicate IsAsciiUpper(c: char) { 'A' <= c <= 'Z' }
  predicate IsAsciiLower(c: char) { 'a' <= c <= 'z' }

  function LowerChar(c: char): (r: char)
    ensures !IsAsciiUpper(r)
    ensures !IsAsciiUpper(c) ==> r == c
  {
    if IsAsciiUpper(c) then (c as int + 32) as char else c
  }

  function UpperChar(c: char): (r: char)
    ensures !IsAsciiLower(r)
    ensures !IsAsciiLower(c) ==> r == c
  {
    if IsAsciiLower(c) then (c as int - 32) as char else c
  }

  /** `s.toLowerCase()` on the ASCII letters. */
  function ToLower(s: string): (r: string)
    ensures |r| == |s| && forall k :: 0 <= k < |s| ==> r[k] == LowerChar(s[k])
  {
    seq(|s|, k requires 0 <= k < |s| => LowerChar(s[k]))
  }

  /** Character equality as a case-insensitive JavaScript regular expression
      without the `u` flag sees it, for ASCII letters. */
  predicate FoldEq(a: char, b: char) { LowerChar(a) == LowerChar(b) }

  /** `t` equals `w` ignoring ASCII case. */
  predicate FoldEqStr(t: string, w: string)
  {
    |t| == |w| && forall k :: 0 <= k < |w| ==> FoldEq(t[k], w[k])
  }

  /** Lower-casing keeps the text equal up to case, leaves no upper-case
      letter, turns each upper-case letter into its lower-case partner,
      changes nothing else, and a second pass changes nothing. */
  lemma ToLowerFacts(s: string)
    ensures FoldEqStr(ToLower(s), s)
    ensures forall k :: 0 <= k < |s| ==> !IsAsciiUpper(ToLower(s)[k])
    ensures forall k :: 0 <= k < |s| && IsAsciiUpper(s[k]) ==>
              IsAsciiLower(ToLower(s)[k]) && ToLower(s)[k] as int == s[k] as int + 32
    ensures forall k :: 0 <= k < |s| && !IsAsciiUpper(s[k]) ==> ToLower(s)[k] == s[k]
    ensures ToLower(ToLower(s)) == ToLower(s)
  {
    var r := ToLower(s);
    forall k | 0 <= k < |s| ensures FoldEq(r[k], s[k]) {
      assert LowerChar(r[k]) == r[k];
    }
    assert ToLower(r) == r by {
      forall k | 0 <= k < |r| ensures ToLower(r)[k] == r[k] {
        assert !IsAsciiUpper(r[k]);
      }
    }
  }
}
