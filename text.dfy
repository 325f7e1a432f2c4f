/** The string primitives the input handlers use: `trim`, `toUpperCase`,
    `startsWith`, `parseInt` and integer `toString`, following ECMA-262. */
module Text {
  import opened Types

  /** WhiteSpace and LineTerminator code points (ECMA-262, sections 12.2 and
      12.3): what `trim` strips and what `parseInt` skips. */
  predicate IsWhite(c: char)
  {
    var n := c as int;
    n == 0x09 || n == 0x0A || n == 0x0B || n == 0x0C || n == 0x0D || n == 0x20 ||
    n == 0xA0 || n == 0x1680 || (0x2000 <= n <= 0x200A) || n == 0x2028 || n == 0x2029 ||
    n == 0x202F || n == 0x205F || n == 0x3000 || n == 0xFEFF
  }

  predicate AllWhite(s: string)
  {
    forall i :: 0 <= i < |s| ==> IsWhite(s[i])
  }

  /** The number of white-space characters `s` starts with. */
  function LeadingWhite(s: string): (k: nat)
    ensures k <= |s| && forall i :: 0 <= i < k ==> IsWhite(s[i])
    ensures k < |s| ==> !IsWhite(s[k])
  {
    if |s| > 0 && IsWhite(s[0]) then LeadingWhite(s[1..]) + 1 else 0
  }

  /** The number of white-space characters `s` ends with. */
  function TrailingWhite(s: string): (k: nat)
    ensures k <= |s| && forall i :: |s| - k <= i < |s| ==> IsWhite(s[i])
    ensures k < |s| ==> !IsWhite(s[|s| - k - 1])
  {
    if |s| > 0 && IsWhite(s[|s| - 1]) then TrailingWhite(s[..|s| - 1]) + 1 else 0
  }

  /** Strips leading white space. */
  function TrimStart(s: string): string
  {
    s[LeadingWhite(s)..]
  }

  /** Strips trailing white space. */
  function TrimEnd(s: string): string
  {
    s[..|s| - TrailingWhite(s)]
  }

  /** `String.prototype.trim`: the run of `s` left after its leading
      white space, which ends where its trailing white space begins and
      itself neither starts nor ends with white space. */
  function Trim(s: string): (r: string)
    ensures LeadingWhite(s) + |r| <= |s|
    ensures forall i :: 0 <= i < |r| ==> r[i] == s[LeadingWhite(s) + i]
    ensures forall i :: LeadingWhite(s) + |r| <= i < |s| ==> IsWhite(s[i])
    ensures r != [] ==> !IsWhite(r[0]) && !IsWhite(r[|r| - 1])
  {
    TrimEnd(TrimStart(s))
  }

  /** `!s.trim()` holds exactly when `s` is empty or all white space. */
  lemma TrimEmptyIff(s: string)
    ensures Trim(s) == [] <==> AllWhite(s)
  {
    var t := TrimStart(s);
    if Trim(s) == [] {
      assert s == s[..|s| - |t|] + t;
      assert t == t[|TrimEnd(t)|..];
    }
  }

  /** Trimming what is already trimmed changes nothing: a name saved
      trimmed is saved unchanged when it is saved again. */
  lemma TrimTrimmed(s: string)
    ensures Trim(Trim(s)) == Trim(s)
  {
    var u := TrimStart(s);
    var t := TrimEnd(u);
    if t != [] {
      assert t[0] == u[0];
      assert TrimStart(t) == t;
    }
  }

  function UpperChar(c: char): char
  {
    if 'a' <= c <= 'z' then (c as int - 32) as char else c
  }

  predicate IsUpper(s: string)
  {
    forall i :: 0 <= i < |s| ==> UpperChar(s[i]) == s[i]
  }

  /** `String.prototype.toUpperCase`, restricted to the ASCII letters. */
  function Upper(s: string): (r: string)
    ensures |r| == |s| && IsUpper(r)
    ensures forall i :: 0 <= i < |s| && 'a' <= s[i] <= 'z' ==>
      'A' <= r[i] <= 'Z' && r[i] as int == s[i] as int - 32
    ensures forall i :: 0 <= i < |s| && !('a' <= s[i] <= 'z') ==> r[i] == s[i]
  {
    if s == [] then [] else [UpperChar(s[0])] + Upper(s[1..])
  }

  /** Upper-casing twice is upper-casing once: a word the ledger stored
      upper-cased comes back unchanged when it is edited and saved again. */
  lemma UpperOfUpper(s: string)
    requires IsUpper(s)
    ensures Upper(s) == s
  {
  }

  /** `s.startsWith(prefix)`: `s` is at least as long and agrees with
      `prefix` character by character. */
  predicate StartsWith(s: string, prefix: string)
    ensures StartsWith(s, prefix) <==>
      |prefix| <= |s| && forall i :: 0 <= i < |prefix| ==> s[i] == prefix[i]
  {
    |prefix| <= |s| && s[..|prefix|] == prefix
  }

  /** The value of `c` as a digit of radix up to 36, or -1. */
  function DigitValue(c: char): int
  {
    if '0' <= c <= '9' then c as int - '0' as int
    else if 'a' <= c <= 'z' then c as int - 'a' as int + 10
    else if 'A' <= c <= 'Z' then c as int - 'A' as int + 10
    else -1
  }

  predicate IsDigitOf(c: char, radix: nat)
  {
    0 <= DigitValue(c) < radix
  }

  /** The longest prefix of `s` made of radix digits. */
  function DigitPrefix(s: string, radix: nat): (r: string)
    ensures |r| <= |s| && r == s[..|r|]
    ensures forall i :: 0 <= i < |r| ==> IsDigitOf(r[i], radix)
    ensures |r| < |s| ==> !IsDigitOf(s[|r|], radix)
  {
    if |s| > 0 && IsDigitOf(s[0], radix) then [s[0]] + DigitPrefix(s[1..], radix) else []
  }

  /** The mathematical value of a digit string, most significant first. */
  function DigitsValue(d: string, radix: nat): (v: int)
    requires forall i :: 0 <= i < |d| ==> IsDigitOf(d[i], radix)
    ensures v >= 0
  {
    if d == [] then 0
    else
      var w := DigitsValue(d[..|d| - 1], radix);
      assert 0 <= w * radix by { MulNonNegative(w, radix); }
      assert IsDigitOf(d[|d| - 1], radix);
      w * radix + DigitValue(d[|d| - 1])
  }

  lemma MulNonNegative(a: int, b: int)
    requires 0 <= a && 0 <= b
    ensures 0 <= a * b
  {
  }

  /** `parseInt(s)` with no radix (ECMA-262, section 19.2.5): skip leading
      white space, read an optional sign, then the magnitude; a string with
      no digits there is NaN, here None. */
  function ParseInt(s: string): (r: Option<int>)
    ensures AllWhite(s) ==> r.None?
    ensures |s| > 0 && '0' <= s[0] <= '9' && !(|s| >= 2 && s[0] == '0' && (s[1] == 'x' || s[1] == 'X')) ==>
      r.Some?
    ensures r.Some? && r.value < 0 ==> |TrimStart(s)| > 1 && TrimStart(s)[0] == '-'
  {
    var t := TrimStart(s);
    var signed := |t| > 0 && (t[0] == '-' || t[0] == '+');
    var negative := signed && t[0] == '-';
    match ParseMagnitude(if signed then t[1..] else t)
    case None => None
    case Some(v) => Some(if negative then -v else v)
  }

  /** The unsigned part of `parseInt`: radix 16 after a `0x`/`0X` prefix and
      radix 10 otherwise, digits up to the first non-digit. */
  function ParseMagnitude(rest: string): Option<int>
  {
    var hex := |rest| >= 2 && rest[0] == '0' && (rest[1] == 'x' || rest[1] == 'X');
    var radix := if hex then 16 else 10;
    var digits := DigitPrefix(if hex then rest[2..] else rest, radix);
    if digits == [] then None else Some(DigitsValue(digits, radix))
  }

  function DigitChar(d: nat): (c: char)
    requires d < 10
    ensures '0' <= c <= '9' && DigitValue(c) == d
  {
    ('0' as int + d) as char
  }

  /** Decimal digits of `m`, most significant first, no leading zero. */
  function NatToString(m: nat): (s: string)
    ensures |s| >= 1 && forall i :: 0 <= i < |s| ==> '0' <= s[i] <= '9'
  {
    if m < 10 then [DigitChar(m)] else NatToString(m / 10) + [DigitChar(m % 10)]
  }

  /** `Number.prototype.toString` on an integer. */
  function IntToString(n: int): (s: string)
    ensures |s| >= 1 && (s[0] == '-' <==> n < 0)
    ensures forall i :: 0 < i < |s| ==> '0' <= s[i] <= '9'
  {
    if n < 0 then "-" + NatToString(-n) else NatToString(n)
  }

  lemma {:induction false} NatToStringDigits(m: nat)
    ensures |NatToString(m)| >= 1
    ensures forall i :: 0 <= i < |NatToString(m)| ==> '0' <= NatToString(m)[i] <= '9'
    ensures forall i :: 0 <= i < |NatToString(m)| ==> IsDigitOf(NatToString(m)[i], 10)
    ensures DigitsValue(NatToString(m), 10) == m
  {
    if m >= 10 {
      NatToStringDigits(m / 10);
      var s := NatToString(m);
      assert s[..|s| - 1] == NatToString(m / 10);
    }
  }

  lemma {:induction false} DigitPrefixOfDigits(s: string, radix: nat)
    requires forall i :: 0 <= i < |s| ==> IsDigitOf(s[i], radix)
    ensures DigitPrefix(s, radix) == s
  {
    if |s| > 0 {
      DigitPrefixOfDigits(s[1..], radix);
    }
  }

  /** Reading back what `toString` wrote gives the same number: the points a
      play shows are the points `parseInt` accepts again. */
  lemma ParseIntOfToString(n: int)
    ensures ParseInt(IntToString(n)) == Some(n)
  {
    var m := if n < 0 then -n else n;
    MagnitudeOfNatToString(m);
    SignedRoundTrip(NatToString(m), m);
  }

  /** The digits `toString` writes start with a digit and read back as the
      magnitude. */
  lemma MagnitudeOfNatToString(m: nat)
    ensures |NatToString(m)| > 0 && '0' <= NatToString(m)[0] <= '9'
    ensures ParseMagnitude(NatToString(m)) == Some(m)
  {
    var d := NatToString(m);
    NatToStringDigits(m);
    assert |d| >= 2 ==> d[1] != 'x' && d[1] != 'X';
    ParseMagnitudeOfDecimal(d);
  }

  lemma ParseMagnitudeOfDecimal(d: string)
    requires |d| >= 1 && forall i :: 0 <= i < |d| ==> IsDigitOf(d[i], 10)
    requires |d| >= 2 ==> d[1] != 'x' && d[1] != 'X'
    ensures ParseMagnitude(d) == Some(DigitsValue(d, 10))
  {
    var hex := |d| >= 2 && d[0] == '0' && (d[1] == 'x' || d[1] == 'X');
    assert !hex;
    assert DigitPrefix(d, 10) == d by {
      DigitPrefixOfDigits(d, 10);
    }
  }

  /** A digit string read back with or without a leading minus. */
  lemma SignedRoundTrip(d: string, m: int)
    requires |d| > 0 && '0' <= d[0] <= '9' && ParseMagnitude(d) == Some(m)
    ensures ParseInt(d) == Some(m) && ParseInt("-" + d) == Some(-m)
  {
    ParseIntUnsigned(d);
    ParseIntNegative(d);
  }

  /** Without leading white space or sign, `parseInt` reads the magnitude. */
  lemma ParseIntUnsigned(s: string)
    requires |s| > 0 && !IsWhite(s[0]) && s[0] != '-' && s[0] != '+'
    ensures ParseInt(s) == ParseMagnitude(s)
  {
  }

  /** A leading minus negates the magnitude that follows it. */
  lemma ParseIntNegative(d: string)
    requires |d| > 0
    ensures ParseInt("-" + d) == if ParseMagnitude(d).None? then None else Some(-ParseMagnitude(d).value)
  {
    var s := "-" + d;
    assert LeadingWhite(s) == 0;
    assert TrimStart(s) == s;
    assert s[1..] == d;
  }
}
