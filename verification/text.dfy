/** String helpers with the meaning the .NET base library gives them, restricted
    to what the model needs: a fixed whitespace set, ASCII case folding, ordinal
    substring search, decimal rendering of numbers, and joining/splitting on a
    separator character.
 */
module Text {
  import opened Wrappers

  /** `char.IsWhiteSpace`, restricted to space, the control characters TAB..CR,
      NEXT LINE (U+0085) and NO-BREAK SPACE (U+00A0). */
  predicate IsWhiteSpace(c: char) {
    c == ' ' || ('\t' <= c <= '\r') || c == '\U{85}' || c == '\U{A0}'
  }

  /** Every character is whitespace (the empty string included). */
  predicate IsBlank(s: string) {
    forall i | 0 <= i < |s| :: IsWhiteSpace(s[i])
  }

  /** `string.IsNullOrWhiteSpace`. */
  predicate IsNullOrWhiteSpace(s: Option<string>) {
    s.None? || IsBlank(s.value)
  }

  /** `string.IsNullOrEmpty`. */
  predicate IsNullOrEmpty(s: Option<string>) {
    s.None? || s.value == ""
  }

  /** True when `s` has no whitespace at either end: what `Trim` leaves behind. */
  predicate IsTrimmed(s: string) {
    s == [] || (!IsWhiteSpace(s[0]) && !IsWhiteSpace(s[|s| - 1]))
  }

  function TrimStart(s: string): (r: string)
    ensures |r| <= |s| && r == s[|s| - |r|..]
    ensures IsBlank(s[..|s| - |r|])
    ensures r == [] || !IsWhiteSpace(r[0])
  {
    if |s| > 0 && IsWhiteSpace(s[0]) then
      var r := TrimStart(s[1..]);
      var cut := |s| - |r|;
      forall i | 0 <= i < cut ensures IsWhiteSpace(s[..cut][i]) {
        if i > 0 {
          assert s[..cut][i] == s[1..][..cut - 1][i - 1];
        }
      }
      r
    else s
  }

  function TrimEnd(s: string): (r: string)
    ensures |r| <= |s| && r == s[..|r|]
    ensures IsBlank(s[|r|..])
    ensures r == [] || !IsWhiteSpace(r[|r| - 1])
  {
    if |s| > 0 && IsWhiteSpace(s[|s| - 1]) then
      var r := TrimEnd(s[..|s| - 1]);
      assert s[|r|..] == s[..|s| - 1][|r|..] + [s[|s| - 1]];
      r
    else s
  }

  /** `string.Trim()`: the middle of `s` once the whitespace at both ends is cut
      away; it is empty exactly when `s` is blank. */
  function Trim(s: string): (r: string)
    ensures IsTrimmed(r)
    ensures r == [] <==> IsBlank(s)
  {
    var t := TrimStart(s);
    var r := TrimEnd(t);
    if r == [] then
      assert s == s[..|s| - |t|] + t[|r|..];
      r
    else
      assert !IsWhiteSpace(r[0]) && r[0] == s[|s| - |t|];
      r
  }

  /** `Trim` only removes whitespace: what it keeps is a contiguous piece of `s`
      with nothing but whitespace on either side. */
  lemma TrimIsMiddle(s: string)
    ensures var r := Trim(s);
            exists lo :: 0 <= lo && lo + |r| <= |s| && s[lo..lo + |r|] == r
                         && IsBlank(s[..lo]) && IsBlank(s[lo + |r|..])
  {
    var t := TrimStart(s);
    var r := Trim(s);
    assert r == TrimEnd(t);
    MiddleOf(s, t, r);
  }

  /** Cutting blanks off the front and then off the back leaves a middle piece. */
  lemma MiddleOf(s: string, t: string, r: string)
    requires |t| <= |s| && t == s[|s| - |t|..] && IsBlank(s[..|s| - |t|])
    requires |r| <= |t| && r == t[..|r|] && IsBlank(t[|r|..])
    ensures exists lo :: 0 <= lo && lo + |r| <= |s| && s[lo..lo + |r|] == r
                         && IsBlank(s[..lo]) && IsBlank(s[lo + |r|..])
  {
    var lo := |s| - |t|;
    assert s[lo..lo + |r|] == r;
    assert s[lo + |r|..] == t[|r|..];
  }

  /** Trimming a string that has no whitespace at its ends leaves it unchanged. */
  lemma {:induction false} TrimOfTrimmed(s: string)
    requires IsTrimmed(s)
    ensures Trim(s) == s
  {
    if s != [] {
      assert TrimStart(s) == s;
      assert TrimEnd(s) == s;
    }
  }

  /** Trimming is idempotent. */
  lemma TrimIdempotent(s: string)
    ensures Trim(Trim(s)) == Trim(s)
  {
    TrimOfTrimmed(Trim(s));
  }

  /** ASCII-only `char.ToLower`. */
  function LowerChar(c: char): char {
    if 'A' <= c <= 'Z' then (c as int + 32) as char else c
  }

  /** ASCII-only `string.ToLower()`. */
  function Lower(s: string): (r: string)
    ensures |r| == |s|
  {
    if s == [] then [] else [LowerChar(s[0])] + Lower(s[1..])
  }

  /** Ordinal `string.Contains`: `needle` occurs somewhere in `hay`. */
  predicate Contains(hay: string, needle: string)
    decreases |hay|
  {
    HasPrefix(hay, needle) || (hay != [] && Contains(hay[1..], needle))
  }

  /** A needle longer than the haystack never occurs in it. */
  lemma {:induction false} LongerNeverContained(hay: string, needle: string)
    requires |hay| < |needle|
    ensures !Contains(hay, needle)
    decreases |hay|
  {
    if hay != [] {
      LongerNeverContained(hay[1..], needle);
    }
  }

  /** Substring search after folding both sides to lower case. */
  predicate ContainsIgnoreCase(hay: string, needle: string) {
    Contains(Lower(hay), Lower(needle))
  }

  predicate HasPrefix(s: string, prefix: string) {
    |prefix| <= |s| && s[..|prefix|] == prefix
  }

  /** Folding case commutes with taking a prefix. */
  lemma {:induction false} LowerPrefix(s: string, k: nat)
    requires k <= |s|
    ensures Lower(s)[..k] == Lower(s[..k])
    decreases k
  {
    if k > 0 {
      LowerPrefix(s[1..], k - 1);
      assert s[..k][1..] == s[1..][..k - 1];
      assert Lower(s[..k]) == [LowerChar(s[0])] + Lower(s[..k][1..]);
      assert Lower(s)[..k] == [LowerChar(s[0])] + Lower(s[1..])[..k - 1];
    }
  }

  /** An exact occurrence is also an occurrence once both sides are folded to
      lower case. */
  lemma {:induction false} ContainsIgnoresCase(hay: string, needle: string)
    requires Contains(hay, needle)
    ensures ContainsIgnoreCase(hay, needle)
    decreases |hay|
  {
    if HasPrefix(hay, needle) {
      LowerPrefix(hay, |needle|);
    } else {
      ContainsIgnoresCase(hay[1..], needle);
      assert Lower(hay)[1..] == Lower(hay[1..]);
    }
  }

  predicate IsDigit(c: char) {
    '0' <= c <= '9'
  }

  function DigitChar(d: nat): (c: char)
    requires d < 10
    ensures IsDigit(c) && c as int - '0' as int == d
  {
    (d + '0' as int) as char
  }

  /** Decimal rendering of a natural number, without leading zeros. */
  function NatText(n: nat): (r: string)
    ensures |r| >= 1
    ensures forall i | 0 <= i < |r| :: IsDigit(r[i])
    ensures n < 10 <==> |r| == 1
    decreases n
  {
    if n < 10 then [DigitChar(n)] else NatText(n / 10) + [DigitChar(n % 10)]
  }

  /** `int.ToString()`: a minus sign for negative values, then the digits. */
  function IntText(i: int): (r: string)
    ensures |r| >= 1
    ensures (r[0] == '-') <==> i < 0
    ensures forall k | 0 <= k < |r| :: IsDigit(r[k]) || (k == 0 && r[k] == '-')
  {
    if i < 0 then "-" + NatText(-i) else NatText(i)
  }

  /** Distinct numbers have distinct renderings. */
  lemma {:induction false} NatTextInjective(a: nat, b: nat)
    requires NatText(a) == NatText(b)
    ensures a == b
    decreases a
  {
    if a >= 10 && b >= 10 {
      var ta, tb := NatText(a), NatText(b);
      assert ta[|ta| - 1] == DigitChar(a % 10) && tb[|tb| - 1] == DigitChar(b % 10);
      assert NatText(a / 10) == ta[..|ta| - 1] == tb[..|tb| - 1] == NatText(b / 10);
      NatTextInjective(a / 10, b / 10);
    } else if a < 10 && b < 10 {
      assert NatText(a)[0] == DigitChar(a) && NatText(b)[0] == DigitChar(b);
    }
  }

  /** Distinct integers have distinct renderings. */
  lemma IntTextInjective(a: int, b: int)
    requires IntText(a) == IntText(b)
    ensures a == b
  {
    if a < 0 {
      assert IntText(a)[1..] == NatText(-a) && IntText(b)[1..] == NatText(-b);
      NatTextInjective(-a, -b);
    } else {
      NatTextInjective(a, b);
    }
  }

  /** Up to `n` decimal digits of a fraction in [0, 1), stopping early when the
      expansion terminates. */
  function FractionDigits(f: real, n: nat): (r: string)
    requires 0.0 <= f < 1.0
    ensures |r| <= n
    ensures forall k | 0 <= k < |r| :: IsDigit(r[k])
    decreases n
  {
    if n == 0 || f == 0.0 then ""
    else
      var d := (f * 10.0).Floor;
      [DigitChar(d)] + FractionDigits(f * 10.0 - d as real, n - 1)
  }

  /** Rendering of a rating: the decimal expansion, cut after 17 fractional
      digits, with no fractional part for whole numbers (`8.0` renders `8`).
      Only digits, a leading minus sign and a decimal point appear. */
  function RealText(x: real): (r: string)
    ensures |r| >= 1
    ensures (r[0] == '-') <==> x < 0.0
    ensures forall k | 0 <= k < |r| :: IsDigit(r[k]) || r[k] == '.' || (k == 0 && r[k] == '-')
  {
    var a := if x < 0.0 then -x else x;
    var whole := a.Floor;
    var frac := a - whole as real;
    var digits := NatText(whole) + (if frac == 0.0 then "" else "." + FractionDigits(frac, 17));
    assert forall k | 0 <= k < |digits| :: IsDigit(digits[k]) || digits[k] == '.' by {
      var tail := if frac == 0.0 then "" else "." + FractionDigits(frac, 17);
      forall k | 0 <= k < |digits| ensures IsDigit(digits[k]) || digits[k] == '.' {
        if k >= |NatText(whole)| {
          assert digits[k] == tail[k - |NatText(whole)|];
        }
      }
    }
    if x < 0.0 then
      var r := "-" + digits;
      assert forall k | 1 <= k < |r| :: r[k] == digits[k - 1];
      r
    else digits
  }

  /** `string.Join(sep, parts)`. */
  function Join(parts: seq<string>, sep: char): string
    decreases |parts|
  {
    if |parts| == 0 then ""
    else if |parts| == 1 then parts[0]
    else parts[0] + [sep] + Join(parts[1..], sep)
  }

  function IndexOf(s: string, c: char): (i: nat)
    requires c in s
    ensures i < |s| && s[i] == c && c !in s[..i]
  {
    if s[0] == c then 0 else 1 + IndexOf(s[1..], c)
  }

  /** `s.Split(sep)`: the pieces between separators, empty pieces kept. */
  function Split(s: string, sep: char): (r: seq<string>)
    ensures |r| >= 1
    ensures forall k | 0 <= k < |r| :: sep !in r[k]
    decreases |s|
  {
    if sep in s then
      var i := IndexOf(s, sep);
      [s[..i]] + Split(s[i + 1..], sep)
    else [s]
  }

  /** The first separator after a separator-free piece is the one right after it. */
  lemma IndexOfAfterPiece(p: string, sep: char, rest: string)
    requires sep !in p
    ensures IndexOf(p + [sep] + rest, sep) == |p|
  {
    var s := p + [sep] + rest;
    assert s[|p|] == sep;
  }

  /** Joining pieces that do not contain the separator can be undone by
      splitting: without escaping, this is the only case where it can. */
  lemma {:induction false} SplitJoin(parts: seq<string>, sep: char)
    requires |parts| >= 1
    requires forall k | 0 <= k < |parts| :: sep !in parts[k]
    ensures Split(Join(parts, sep), sep) == parts
    decreases |parts|
  {
    if |parts| > 1 {
      var p0, rest := parts[0], Join(parts[1..], sep);
      var s := p0 + [sep] + rest;
      IndexOfAfterPiece(p0, sep, rest);
      assert s[..|p0|] == p0 && s[|p0| + 1..] == rest;
      SplitJoin(parts[1..], sep);
    }
  }

  /** Splitting undoes joining exactly when no piece contains the separator. */
  lemma SplitJoinIff(parts: seq<string>, sep: char)
    requires |parts| >= 1
    ensures Split(Join(parts, sep), sep) == parts <==> forall k | 0 <= k < |parts| :: sep !in parts[k]
  {
    if forall k | 0 <= k < |parts| :: sep !in parts[k] {
      SplitJoin(parts, sep);
    }
  }
}
