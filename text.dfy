/**
 * The JavaScript string primitives the planner relies on: `trim`, ASCII
 * `toLowerCase`, `includes`, `endsWith`, `padStart(2, '0')`, and the decimal
 * conversions behind `String(n)` and `Number(s)` for integers.
 */
module Text {
  import opened Wrappers

  /** The characters `String.prototype.trim` removes: white space and line terminators. */
  predicate IsSpace(c: char) {
    || c == ' ' || c == '\t' || c == '\n' || c == '\r'
    || c == '\U{000B}' || c == '\U{000C}' || c == '\U{00A0}' || c == '\U{FEFF}'
    || c == '\U{1680}' || ('\U{2000}' <= c <= '\U{200A}')
    || c == '\U{2028}' || c == '\U{2029}' || c == '\U{202F}' || c == '\U{205F}' || c == '\U{3000}'
  }

  predicate AllSpace(s: string) {
    forall i :: 0 <= i < |s| ==> IsSpace(s[i])
  }

  /** Neither end of `s` is white space. */
  predicate Trimmed(s: string) {
    s == [] || (!IsSpace(s[0]) && !IsSpace(s[|s| - 1]))
  }

  /** How many white-space characters `s` starts with. */
  function LeadingSpace(s: string): (k: nat)
    ensures k <= |s|
  {
    if |s| > 0 && IsSpace(s[0]) then 1 + LeadingSpace(s[1..]) else 0
  }

  /** How many white-space characters `s` ends with. */
  function TrailingSpace(s: string): (k: nat)
    ensures k <= |s|
  {
    if |s| > 0 && IsSpace(s[|s| - 1]) then 1 + TrailingSpace(s[..|s| - 1]) else 0
  }

  /** The leading run is all space, and the character after it is not. */
  lemma {:induction false} LeadingSpaceSpec(s: string)
    ensures forall i :: 0 <= i < LeadingSpace(s) ==> IsSpace(s[i])
    ensures LeadingSpace(s) < |s| ==> !IsSpace(s[LeadingSpace(s)])
  {
    if |s| > 0 && IsSpace(s[0]) {
      LeadingSpaceSpec(s[1..]);
      forall i | 1 <= i < LeadingSpace(s) ensures IsSpace(s[i]) {
        assert s[i] == s[1..][i - 1];
      }
    }
  }

  /** The trailing run is all space, and the character before it is not. */
  lemma {:induction false} TrailingSpaceSpec(s: string)
    ensures forall i :: |s| - TrailingSpace(s) <= i < |s| ==> IsSpace(s[i])
    ensures TrailingSpace(s) < |s| ==> !IsSpace(s[|s| - 1 - TrailingSpace(s)])
  {
    if |s| > 0 && IsSpace(s[|s| - 1]) {
      var u := s[..|s| - 1];
      TrailingSpaceSpec(u);
      forall i | |s| - TrailingSpace(s) <= i < |s| - 1 ensures IsSpace(s[i]) {
        assert s[i] == u[i];
      }
    }
  }

  /** `s.trim()`: the result has no white space at either end, and is empty exactly when `s` is all space. */
  function Trim(s: string): (r: string)
    ensures Trimmed(r)
    ensures |r| <= |s|
    ensures r == [] <==> AllSpace(s)
  {
    var a := LeadingSpace(s);
    var t := s[a..];
    var b := TrailingSpace(t);
    LeadingSpaceSpec(s);
    TrailingSpaceSpec(t);
    assert a < |s| ==> t[0] == s[a];
    assert b == |t| ==> AllSpace(t);
    AllSpaceSplit(s, a);
    t[..|t| - b]
  }

  /** When the first `a` characters of `s` are space, `s` is all space exactly when the rest is. */
  lemma AllSpaceSplit(s: string, a: nat)
    requires a <= |s|
    requires forall i :: 0 <= i < a ==> IsSpace(s[i])
    ensures AllSpace(s[a..]) <==> AllSpace(s)
  {
    if AllSpace(s[a..]) {
      forall i | a <= i < |s| ensures IsSpace(s[i]) {
        assert s[i] == s[a..][i - a];
      }
    }
  }

  /** Trimming a trimmed string changes nothing, so `Trim` is idempotent. */
  lemma TrimmedIsFixpoint(s: string)
    requires Trimmed(s)
    ensures Trim(s) == s
  {
    assert LeadingSpace(s) == 0;
    assert s[0..] == s;
    assert TrailingSpace(s) == 0;
  }

  lemma TrimIdempotent(s: string)
    ensures Trim(Trim(s)) == Trim(s)
  {
    TrimmedIsFixpoint(Trim(s));
  }

  /** Surrounding a trimmed, non-empty string with white space does not change what `Trim` returns. */
  lemma TrimPadded(pre: string, x: string, post: string)
    requires AllSpace(pre) && AllSpace(post)
    requires x != [] && Trimmed(x)
    ensures Trim(pre + x + post) == x
  {
    var s := pre + x + post;
    assert s == pre + (x + post);
    LeadingSpacePadded(pre, x + post);
    assert LeadingSpace(x + post) == 0;
    assert s[|pre|..] == x + post;
    TrailingSpacePadded(x, post);
    assert TrailingSpace(x) == 0;
    assert (x + post)[..|x|] == x;
  }

  lemma {:induction false} LeadingSpacePadded(pre: string, y: string)
    requires AllSpace(pre)
    ensures LeadingSpace(pre + y) == |pre| + LeadingSpace(y)
  {
    if pre != [] {
      assert (pre + y)[1..] == pre[1..] + y;
      LeadingSpacePadded(pre[1..], y);
    } else {
      assert pre + y == y;
    }
  }

  lemma {:induction false} TrailingSpacePadded(y: string, post: string)
    requires AllSpace(post)
    ensures TrailingSpace(y + post) == |post| + TrailingSpace(y)
  {
    if post != [] {
      assert (y + post)[..|y + post| - 1] == y + post[..|post| - 1];
      TrailingSpacePadded(y, post[..|post| - 1]);
    } else {
      assert y + post == y;
    }
  }

  /** ASCII `toLowerCase` of one character. */
  function LowerChar(c: char): char {
    if 'A' <= c <= 'Z' then (c as int + 32) as char else c
  }

  function ToLower(s: string): (r: string)
    ensures |r| == |s|
    ensures forall i :: 0 <= i < |s| ==> r[i] == LowerChar(s[i])
  {
    seq(|s|, i requires 0 <= i < |s| => LowerChar(s[i]))
  }

  /** Lower-casing twice is lower-casing once, and leaves no upper-case ASCII letter. */
  lemma ToLowerIdempotent(s: string)
    ensures ToLower(ToLower(s)) == ToLower(s)
    ensures forall i :: 0 <= i < |s| ==> !('A' <= ToLower(s)[i] <= 'Z')
  {
  }

  predicate IsPrefix(q: string, s: string) {
    |q| <= |s| && s[..|q|] == q
  }

  /** `q` occurs in `s` starting at index `i`. */
  predicate OccursAt(s: string, q: string, i: int) {
    0 <= i && i + |q| <= |s| && s[i..i + |q|] == q
  }

  /** `s.includes(q)`, computed by scanning from the left. */
  function Contains(s: string, q: string): bool {
    IsPrefix(q, s) || (|s| > 0 && Contains(s[1..], q))
  }

  /** `Contains` holds exactly when `q` occurs somewhere in `s`. */
  lemma {:induction false} ContainsIff(s: string, q: string)
    ensures Contains(s, q) <==> exists i :: OccursAt(s, q, i)
  {
    if IsPrefix(q, s) {
      assert OccursAt(s, q, 0);
    } else if |s| > 0 {
      ContainsIff(s[1..], q);
      if Contains(s[1..], q) {
        var i :| OccursAt(s[1..], q, i);
        assert s[i + 1..i + 1 + |q|] == s[1..][i..i + |q|];
        assert OccursAt(s, q, i + 1);
      }
      forall i | OccursAt(s, q, i) ensures Contains(s[1..], q) {
        assert i != 0;
        assert s[1..][i - 1..i - 1 + |q|] == s[i..i + |q|];
        assert OccursAt(s[1..], q, i - 1);
      }
    }
  }

  /** The empty string is contained in every string, as with `includes('')`. */
  lemma ContainsEmpty(s: string)
    ensures Contains(s, "")
  {
    assert IsPrefix("", s);
  }

  /** `s.endsWith(suffix)`. */
  predicate EndsWith(s: string, suffix: string) {
    |suffix| <= |s| && s[|s| - |suffix|..] == suffix
  }

  // ---------------------------------------------------------------------------
  // Decimal integers

  predicate IsDigit(c: char) {
    '0' <= c <= '9'
  }

  predicate AllDigits(s: string) {
    forall i :: 0 <= i < |s| ==> IsDigit(s[i])
  }

  function DigitChar(d: nat): (c: char)
    requires d < 10
    ensures IsDigit(c) && c as int - '0' as int == d
  {
    ('0' as int + d) as char
  }

  function DigitValue(c: char): (d: nat)
    requires IsDigit(c)
    ensures d < 10
  {
    c as int - '0' as int
  }

  /** The value of a string of decimal digits, most significant first. */
  function DigitsValue(s: string): nat
    requires AllDigits(s)
  {
    if s == [] then 0 else DigitsValue(s[..|s| - 1]) * 10 + DigitValue(s[|s| - 1])
  }

  /** `String(n)` for a non-negative integer: at least one digit and nothing else. */
  function NatToString(n: nat): (r: string)
    ensures |r| > 0 && AllDigits(r)
    ensures n < 10 <==> |r| == 1
  {
    if n < 10 then [DigitChar(n)] else NatToString(n / 10) + [DigitChar(n % 10)]
  }

  /** `String(i)` for any integer: a minus sign for negatives, then the digits. */
  function IntToString(i: int): (r: string)
    ensures |r| > 0 && Trimmed(r)
  {
    if i < 0 then "-" + NatToString(-i) else NatToString(i)
  }

  /** Reading back the digits of `NatToString(n)` gives `n`. */
  lemma {:induction false} NatToStringRoundTrip(n: nat)
    ensures DigitsValue(NatToString(n)) == n
  {
    if n >= 10 {
      var s := NatToString(n);
      NatToStringRoundTrip(n / 10);
      assert s[..|s| - 1] == NatToString(n / 10);
    }
  }

  /**
   * An optional sign followed by at least one decimal digit, as JavaScript's
   * `Number` reads an already trimmed integer literal; `None` for anything else.
   */
  function ParseInteger(s: string): Option<int> {
    if |s| > 1 && (s[0] == '-' || s[0] == '+') && AllDigits(s[1..]) then
      var magnitude: int := DigitsValue(s[1..]);
      Some(if s[0] == '-' then -magnitude else magnitude)
    else if |s| > 0 && AllDigits(s) then
      Some(DigitsValue(s))
    else
      None
  }

  /** `Number(String(i)) == i`: the decimal rendering of an integer reads back as that integer. */
  lemma IntToStringRoundTrip(i: int)
    ensures ParseInteger(IntToString(i)) == Some(i)
  {
    if i < 0 {
      var digits := NatToString(-i);
      NatToStringRoundTrip(-i);
      ParseNegative(digits);
      assert IntToString(i) == "-" + digits;
    } else {
      var digits := NatToString(i);
      NatToStringRoundTrip(i);
      ParseUnsigned(digits);
      assert IntToString(i) == digits;
    }
  }

  /** A minus sign before a run of digits reads as the negated value of the digits. */
  lemma ParseNegative(digits: string)
    requires |digits| > 0 && AllDigits(digits)
    ensures ParseInteger("-" + digits) == Some(-(DigitsValue(digits) as int))
  {
    var s := "-" + digits;
    assert s[0] == '-' && s[1..] == digits;
  }

  /** A run of digits reads as its value. */
  lemma ParseUnsigned(digits: string)
    requires |digits| > 0 && AllDigits(digits)
    ensures ParseInteger(digits) == Some(DigitsValue(digits))
  {
    assert IsDigit(digits[0]);
  }

  /** `s.padStart(2, '0')`. */
  function PadStart2(s: string): (r: string)
    ensures |r| == if |s| >= 2 then |s| else 2
    ensures r[|r| - |s|..] == s
    ensures forall i :: 0 <= i < |r| - |s| ==> r[i] == '0'
  {
    if |s| >= 2 then s else if |s| == 1 then "0" + s else "00"
  }
}
