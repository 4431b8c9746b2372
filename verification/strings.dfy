/** The JavaScript string built-ins the app leans on: `trim`, ASCII case
    mapping, decimal rendering of naturals, `padStart`, `parseInt(s, 10)`
    and `join`. Strings are sequences of UTF-16 code units (`char`). */
module Strings {
  import opened Common

  /** The characters `String.prototype.trim` removes: the ECMAScript
      WhiteSpace and LineTerminator code points. */
  predicate IsJsSpace(c: char) {
    c in JsSpaces || '\U{2000}' <= c <= '\U{200A}'
  }

  /** The white space `trim()` removes outside the range U+2000..U+200A. */
  const JsSpaces: set<char> := {
    ' ', '\t', '\n', '\r', '\U{000B}', '\U{000C}', '\U{00A0}', '\U{1680}',
    '\U{2028}', '\U{2029}', '\U{202F}', '\U{205F}', '\U{3000}', '\U{FEFF}'
  }

  /** The number of white space characters `s` starts with. */
  function LeadingSpaces(s: string): (n: nat)
    ensures n <= |s|
    ensures forall i | 0 <= i < n :: IsJsSpace(s[i])
    ensures n < |s| ==> !IsJsSpace(s[n])
  {
    if |s| > 0 && IsJsSpace(s[0]) then 1 + LeadingSpaces(s[1..]) else 0
  }

  /** The number of white space characters `s` ends with. */
  function TrailingSpaces(s: string): (n: nat)
    ensures n <= |s|
    ensures forall i | |s| - n <= i < |s| :: IsJsSpace(s[i])
    ensures n < |s| ==> !IsJsSpace(s[|s| - n - 1])
  {
    if |s| > 0 && IsJsSpace(s[|s| - 1]) then 1 + TrailingSpaces(s[..|s| - 1]) else 0
  }

  /** Leading white space removed: a suffix of `s` that does not start with
      white space, and everything dropped was white space. */
  function TrimStart(s: string): (r: string)
    ensures |r| <= |s| && r == s[|s| - |r|..]
    ensures forall i | 0 <= i < |s| - |r| :: IsJsSpace(s[i])
    ensures |r| > 0 ==> !IsJsSpace(r[0])
  {
    s[LeadingSpaces(s)..]
  }

  /** Trailing white space removed: a prefix of `s` that does not end with
      white space, and everything dropped was white space. */
  function TrimEnd(s: string): (r: string)
    ensures |r| <= |s| && r == s[..|r|]
    ensures forall i | |r| <= i < |s| :: IsJsSpace(s[i])
    ensures |r| > 0 ==> !IsJsSpace(r[|r| - 1])
  {
    s[..|s| - TrailingSpaces(s)]
  }

  /** `s.trim()`. */
  function Trim(s: string): (r: string)
    ensures |r| > 0 ==> !IsJsSpace(r[0]) && !IsJsSpace(r[|r| - 1])
    ensures r == [] <==> forall i | 0 <= i < |s| :: IsJsSpace(s[i])
  {
    TrimEmptyAllSpace(s);
    TrimEnd(TrimStart(s))
  }

  lemma TrimIsSlice(s: string)
    ensures var t := TrimStart(s); var r := TrimEnd(t);
      r == s[|s| - |t|..|s| - |t| + |r|]
  {
    var t := TrimStart(s);
    var r := TrimEnd(t);
    assert t == s[|s| - |t|..];
    assert r == t[..|r|];
    SliceOfSuffix(s, t, r);
  }

  /** Both ends trimmed, nothing is left exactly when all was white space. */
  lemma TrimEmptyAllSpace(s: string)
    ensures TrimEnd(TrimStart(s)) == [] ==> forall i | 0 <= i < |s| :: IsJsSpace(s[i])
  {
    var t := TrimStart(s);
    if TrimEnd(t) == [] {
      TrimEndEmpty(t);
    }
  }

  /** A prefix of a suffix is a slice. */
  lemma SliceOfSuffix(s: string, t: string, r: string)
    requires |t| <= |s| && t == s[|s| - |t|..] && |r| <= |t| && r == t[..|r|]
    ensures r == s[|s| - |t|..|s| - |t| + |r|]
  {
  }

  /** Text without leading white space trims to nothing only when empty. */
  lemma TrimEndEmpty(t: string)
    requires |t| > 0 ==> !IsJsSpace(t[0])
    requires TrimEnd(t) == []
    ensures t == []
  {
  }

  predicate AllSpace(s: string) {
    forall i | 0 <= i < |s| :: IsJsSpace(s[i])
  }

  lemma {:induction false} TrimStartSpaces(pre: string, rest: string)
    requires AllSpace(pre) && (|rest| > 0 ==> !IsJsSpace(rest[0]))
    ensures TrimStart(pre + rest) == rest
  {
    if |pre| > 0 {
      assert (pre + rest)[1..] == pre[1..] + rest;
      TrimStartSpaces(pre[1..], rest);
    } else {
      assert pre + rest == rest;
    }
  }

  lemma {:induction false} TrimEndSpaces(rest: string, post: string)
    requires AllSpace(post) && (|rest| > 0 ==> !IsJsSpace(rest[|rest| - 1]))
    ensures TrimEnd(rest + post) == rest
  {
    if |post| > 0 {
      assert (rest + post)[..|rest + post| - 1] == rest + post[..|post| - 1];
      TrimEndSpaces(rest, post[..|post| - 1]);
    } else {
      assert rest + post == rest;
    }
  }

  /** Trimming removes exactly the white space padding around a word that
      neither starts nor ends with white space. */
  lemma TrimPadded(pre: string, w: string, post: string)
    requires AllSpace(pre) && AllSpace(post)
    requires |w| > 0 && !IsJsSpace(w[0]) && !IsJsSpace(w[|w| - 1])
    ensures Trim(pre + w + post) == w
  {
    assert pre + w + post == pre + (w + post);
    TrimStartSpaces(pre, w + post);
    TrimEndSpaces(w, post);
  }

  function LowerChar(c: char): char {
    if 'A' <= c <= 'Z' then (c as int + 32) as char else c
  }

  function UpperChar(c: char): char {
    if 'a' <= c <= 'z' then (c as int - 32) as char else c
  }

  /** `s.toLowerCase()` on the ASCII letters: no upper-case letter is left,
      and only upper-case letters change, each to its lower-case partner. */
  function Lower(s: string): (r: string)
    ensures |r| == |s|
    ensures forall i | 0 <= i < |r| :: !('A' <= r[i] <= 'Z')
    ensures forall i | 0 <= i < |s| :: r[i] == s[i] || ('A' <= s[i] <= 'Z' && r[i] as int == s[i] as int + 32)
  {
    seq(|s|, i requires 0 <= i < |s| => LowerChar(s[i]))
  }

  /** `s.toUpperCase()` on the ASCII letters: no lower-case letter is left,
      and only lower-case letters change, each to its upper-case partner. */
  function Upper(s: string): (r: string)
    ensures |r| == |s|
    ensures forall i | 0 <= i < |r| :: !('a' <= r[i] <= 'z')
    ensures forall i | 0 <= i < |s| :: r[i] == s[i] || ('a' <= s[i] <= 'z' && r[i] as int == s[i] as int - 32)
  {
    seq(|s|, i requires 0 <= i < |s| => UpperChar(s[i]))
  }

  /** A text without small letters is its own upper case. */
  lemma UpperOfCapitals(s: string)
    requires forall i | 0 <= i < |s| :: !('a' <= s[i] <= 'z')
    ensures Upper(s) == s
  {
  }

  /** Case mapping never turns a letter into white space or back, so a word
      that neither starts nor ends with white space keeps that shape. */
  lemma UpperKeepsEnds(s: string)
    requires |s| > 0 && !IsJsSpace(s[0]) && !IsJsSpace(s[|s| - 1])
    ensures var u := Upper(s); |u| > 0 && !IsJsSpace(u[0]) && !IsJsSpace(u[|u| - 1])
  {
    assert Upper(s)[0] == UpperChar(s[0]);
    assert Upper(s)[|s| - 1] == UpperChar(s[|s| - 1]);
  }

  /** Lower-casing forgets a previous upper-casing. */
  lemma LowerOfUpper(s: string)
    ensures Lower(Upper(s)) == Lower(s)
  {
  }

  /** `s.startsWith(p)`: `p` is no longer than `s` and agrees with it
      character by character. */
  function StartsWith(s: string, p: string): (r: bool)
    ensures r <==> |p| <= |s| && forall i | 0 <= i < |p| :: s[i] == p[i]
  {
    |p| <= |s| && s[..|p|] == p
  }

  /** `p` occurs in `s` starting at index `k`. */
  predicate OccursAt(s: string, p: string, k: int) {
    0 <= k && k + |p| <= |s| && s[k..k + |p|] == p
  }

  /** `s.includes(p)`: `p` occurs somewhere in `s`. */
  function Contains(s: string, p: string): (r: bool)
    ensures r <==> exists k :: OccursAt(s, p, k)
  {
    if |p| <= |s| && s[..|p|] == p then
      assert OccursAt(s, p, 0);
      true
    else if |p| > |s| then
      false
    else
      var c := Contains(s[1..], p);
      ContainsShift(s, p);
      c
  }

  /** Away from the first position, `p` occurs in `s` exactly when it
      occurs in `s[1..]`. */
  lemma ContainsShift(s: string, p: string)
    requires |s| > 0 && !OccursAt(s, p, 0)
    ensures (exists k :: OccursAt(s[1..], p, k)) <==> (exists k :: OccursAt(s, p, k))
  {
    if k :| OccursAt(s[1..], p, k) {
      assert s[1..][k..k + |p|] == s[k + 1..k + 1 + |p|];
      assert OccursAt(s, p, k + 1);
    }
    if k :| OccursAt(s, p, k) {
      assert k >= 1;
      assert s[1..][k - 1..k - 1 + |p|] == s[k..k + |p|];
      assert OccursAt(s[1..], p, k - 1);
    }
  }

  predicate IsDigit(c: char) { '0' <= c <= '9' }

  function DigitChar(d: int): (c: char)
    requires 0 <= d < 10
    ensures IsDigit(c)
  {
    ('0' as int + d) as char
  }

  function DigitValue(c: char): (d: nat)
    requires IsDigit(c)
    ensures d < 10 && DigitChar(d) == c
  {
    c as int - '0' as int
  }

  predicate AllDigits(s: string) {
    forall i | 0 <= i < |s| :: IsDigit(s[i])
  }

  /** The value of a string of decimal digits, most significant first. */
  function DigitsValue(s: string): nat
    requires AllDigits(s)
  {
    if |s| == 0 then 0 else DigitsValue(s[..|s| - 1]) * 10 + DigitValue(s[|s| - 1])
  }

  /** `n.toString()` for a natural number: shortest decimal, no leading zero,
      and reading it back gives `n`. */
  function NatToString(n: nat): (s: string)
    ensures |s| >= 1 && AllDigits(s)
    ensures s[0] == '0' ==> n == 0 && |s| == 1
    ensures DigitsValue(s) == n
  {
    if n < 10 then [DigitChar(n)]
    else
      var p := NatToString(n / 10);
      var s := p + [DigitChar(n % 10)];
      assert s[..|s| - 1] == p;
      s
  }

  /** A canonical digit string is what `NatToString` prints back. */
  lemma {:induction false} NatToStringOfDigits(s: string)
    requires |s| >= 1 && AllDigits(s)
    requires s[0] == '0' ==> |s| == 1
    ensures NatToString(DigitsValue(s)) == s
  {
    if |s| == 1 {
    } else {
      var p := s[..|s| - 1];
      assert p[0] == s[0];
      NatToStringOfDigits(p);
      DigitsValueLeadingDigitPositive(s);
      var n := DigitsValue(s);
      assert n / 10 == DigitsValue(p);
      assert n % 10 == DigitValue(s[|s| - 1]);
    }
  }

  lemma {:induction false} DigitsValueLeadingDigitPositive(s: string)
    requires |s| >= 2 && AllDigits(s) && s[0] != '0'
    ensures DigitsValue(s) >= 10
  {
    if |s| > 2 {
      assert s[..|s| - 1][0] == s[0];
      DigitsValueLeadingDigitPositive(s[..|s| - 1]);
    } else {
      assert s[..1] == [s[0]];
      assert DigitsValue(s[..1]) == DigitValue(s[0]);
    }
  }

  /** `s.padStart(2, '0')`. */
  function PadStart2(s: string): (r: string)
    ensures |r| == if |s| >= 2 then |s| else 2
    ensures r[|r| - |s|..] == s
    ensures forall i | 0 <= i < |r| - |s| :: r[i] == '0'
  {
    if |s| >= 2 then s else seq(2 - |s|, _ => '0') + s
  }

  /** The longest prefix of `s` made of decimal digits. */
  function DigitPrefix(s: string): (r: string)
    ensures AllDigits(r) && |r| <= |s| && r == s[..|r|]
    ensures |r| < |s| ==> !IsDigit(s[|r|])
  {
    if |s| > 0 && IsDigit(s[0]) then [s[0]] + DigitPrefix(s[1..]) else []
  }

  /** `parseInt(s, 10)`: leading white space skipped, an optional sign, then
      the longest run of digits; `None` stands for `NaN` (no digit at all). */
  function ParseInt(s: string): (r: Option<int>)
    ensures r.None? <==>
      var t := TrimStart(s);
      var u := if |t| > 0 && (t[0] == '+' || t[0] == '-') then t[1..] else t;
      |u| == 0 || !IsDigit(u[0])
  {
    var t := TrimStart(s);
    var negative := |t| > 0 && t[0] == '-';
    var u := if |t| > 0 && (t[0] == '+' || t[0] == '-') then t[1..] else t;
    var digits := DigitPrefix(u);
    if |digits| == 0 then None
    else if negative then Some(-(DigitsValue(digits) as int))
    else Some(DigitsValue(digits))
  }

  /** The summed lengths of `parts`. */
  function TotalLength(parts: seq<string>): nat {
    if |parts| == 0 then 0 else TotalLength(parts[..|parts| - 1]) + |parts[|parts| - 1]|
  }

  /** `parts.join(sep)`: every part once, with one separator between each
      two neighbours, beginning with the first part and ending with the
      last. */
  function Join(parts: seq<string>, sep: string): (r: string)
    ensures |parts| == 0 ==> r == []
    ensures |r| == TotalLength(parts) + if |parts| == 0 then 0 else (|parts| - 1) * |sep|
    ensures |parts| > 0 ==> StartsWith(r, parts[0])
    ensures |parts| > 0 ==> r[|r| - |parts[|parts| - 1]|..] == parts[|parts| - 1]
  {
    if |parts| == 0 then []
    else if |parts| == 1 then parts[0]
    else
      var init := parts[..|parts| - 1];
      var j := Join(init, sep);
      assert init[0] == parts[0];
      MulStep(|init|, |sep|);
      j + sep + parts[|parts| - 1]
  }

  lemma MulStep(n: nat, k: nat)
    requires n >= 1
    ensures n * k == (n - 1) * k + k
  {
  }

  /** A run of digits followed by a non-digit (or by nothing) is exactly the
      digit prefix. */
  lemma {:induction false} DigitPrefixOf(d: string, rest: string)
    requires AllDigits(d)
    requires |rest| > 0 ==> !IsDigit(rest[0])
    ensures DigitPrefix(d + rest) == d
  {
    if |d| > 0 {
      assert (d + rest)[0] == d[0];
      assert (d + rest)[1..] == d[1..] + rest;
      DigitPrefixOf(d[1..], rest);
    } else {
      assert d + rest == rest;
    }
  }

  /** `String(n)` / `${n}` for an integer: a minus sign before the digits of
      a negative number. */
  function IntToString(n: int): (s: string)
    ensures |s| >= 1
    ensures n >= 0 ==> s == NatToString(n)
  {
    if n < 0 then "-" + NatToString(-n) else NatToString(n)
  }

  /** `parseInt(String(n), 10)` gives `n` back. */
  lemma ParseIntOfInt(n: int)
    ensures ParseInt(IntToString(n)) == Some(n)
  {
    if n < 0 {
      var d := NatToString(-n);
      DigitPrefixAll(d);
      ParseIntSigned(d);
    } else {
      var d := NatToString(n);
      DigitPrefixAll(d);
      ParseIntUnsigned(d);
    }
  }

  /** A run of digits is its own digit prefix. */
  lemma DigitPrefixAll(d: string)
    requires AllDigits(d)
    ensures DigitPrefix(d) == d
  {
    DigitPrefixOf(d, []);
    assert d + [] == d;
  }

  lemma ParseIntUnsigned(d: string)
    requires |d| >= 1 && AllDigits(d) && DigitPrefix(d) == d
    ensures ParseInt(d) == Some(DigitsValue(d))
  {
    DigitIsPlain(d[0]);
    assert TrimStart(d) == d;
  }

  /** A digit is neither white space nor a sign. */
  lemma DigitIsPlain(c: char)
    requires IsDigit(c)
    ensures !IsJsSpace(c) && c != '+' && c != '-'
  {
  }

  lemma ParseIntSigned(d: string)
    requires |d| >= 1 && AllDigits(d) && DigitPrefix(d) == d
    ensures ParseInt("-" + d) == Some(0 - DigitsValue(d))
  {
    var s := "-" + d;
    assert s[1..] == d;
    ParseIntMinus(s, d);
  }

  /** A minus sign followed by digits alone reads as their negated value. */
  lemma ParseIntMinus(s: string, d: string)
    requires |s| >= 1 && s[0] == '-' && s[1..] == d && |d| >= 1 && DigitPrefix(d) == d
    ensures ParseInt(s) == Some(0 - DigitsValue(d))
  {
    assert TrimStart(s) == s;
  }

  /** `0x` or `0X`: the prefix that makes `parseInt` without a radix read
      hexadecimal. */
  predicate HexMarked(u: string) {
    |u| >= 2 && u[0] == '0' && (u[1] == 'x' || u[1] == 'X')
  }

  predicate IsHexDigit(c: char) {
    IsDigit(c) || 'a' <= c <= 'f' || 'A' <= c <= 'F'
  }

  function HexDigitValue(c: char): (d: nat)
    requires IsHexDigit(c)
    ensures d < 16
    ensures IsDigit(c) ==> d == DigitValue(c)
  {
    if IsDigit(c) then DigitValue(c)
    else if 'a' <= c <= 'f' then c as int - 'a' as int + 10
    else c as int - 'A' as int + 10
  }

  predicate AllHexDigits(s: string) {
    forall i | 0 <= i < |s| :: IsHexDigit(s[i])
  }

  /** The longest prefix of `s` made of hexadecimal digits. */
  function HexPrefix(s: string): (r: string)
    ensures AllHexDigits(r) && |r| <= |s| && r == s[..|r|]
    ensures |r| < |s| ==> !IsHexDigit(s[|r|])
  {
    if |s| > 0 && IsHexDigit(s[0]) then [s[0]] + HexPrefix(s[1..]) else []
  }

  function HexValue(s: string): nat
    requires AllHexDigits(s)
  {
    if |s| == 0 then 0 else HexValue(s[..|s| - 1]) * 16 + HexDigitValue(s[|s| - 1])
  }

  /** `parseInt(s)` with no radix: as `parseInt(s, 10)`, except that after
      the white space and the sign a `0x` prefix switches to hexadecimal. */
  function ParseIntNoRadix(s: string): (r: Option<int>)
    ensures var t := TrimStart(s);
      var u := if |t| > 0 && (t[0] == '+' || t[0] == '-') then t[1..] else t;
      && (!HexMarked(u) ==> r == ParseInt(s))
      && (HexMarked(u) ==> (r.None? <==> |u| == 2 || !IsHexDigit(u[2])))
  {
    var t := TrimStart(s);
    var negative := |t| > 0 && t[0] == '-';
    var u := if |t| > 0 && (t[0] == '+' || t[0] == '-') then t[1..] else t;
    if HexMarked(u) then
      var digits := HexPrefix(u[2..]);
      if |digits| == 0 then None
      else if negative then Some(-(HexValue(digits) as int))
      else Some(HexValue(digits))
    else ParseInt(s)
  }

  /** A decimal integer string never carries the hexadecimal prefix, so
      both readings of `String(n)` give `n`. */
  lemma ParseIntNoRadixOfInt(n: int)
    ensures ParseIntNoRadix(IntToString(n)) == Some(n)
  {
    ParseIntOfInt(n);
    var d := NatToString(if n < 0 then -n else n);
    NotHexMarked(d);
    if n < 0 {
      var s := "-" + d;
      assert IntToString(n) == s;
      assert s[1..] == d;
      DecimalReadsAlike(s, d);
    } else {
      DigitIsPlain(d[0]);
      DecimalReadsAlike(d, d);
    }
  }

  /** Text that starts with no white space and whose digits part `u`, after
      an optional minus sign, lacks the `0x` mark reads the same with and
      without a radix. */
  lemma DecimalReadsAlike(s: string, u: string)
    requires |s| >= 1 && !IsJsSpace(s[0]) && s[0] != '+'
    requires u == if s[0] == '-' then s[1..] else s
    requires !HexMarked(u)
    ensures ParseIntNoRadix(s) == ParseInt(s)
  {
    assert TrimStart(s) == s;
  }

  lemma NotHexMarked(d: string)
    requires |d| >= 1 && AllDigits(d) && (d[0] == '0' ==> |d| == 1)
    ensures !HexMarked(d)
  {
  }
}
