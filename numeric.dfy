/** The global `parseInt(string)` of ECMAScript (ECMA-262, section 19.2.5)
    called without a radix, as the simulator's form handling uses it:
    leading white space is skipped, one optional sign is read, a `0x`/`0X`
    prefix selects radix 16 (otherwise radix 10), and the value is that of
    the longest run of digits that follows; with no digit the result is NaN. */
module Numeric {
  import opened Seqs

  /** StrWhiteSpaceChar: the WhiteSpace code points (TAB, VT, FF, ZWNBSP and
      the Unicode category Zs) and the LineTerminator code points. */
  predicate IsStrWhiteSpace(c: char) {
    || c == '\t' || c == '\U{000B}' || c == '\U{000C}' || c == '\U{FEFF}'
    || c == ' ' || c == '\U{00A0}' || c == '\U{1680}' || '\U{2000}' <= c <= '\U{200A}'
    || c == '\U{202F}' || c == '\U{205F}' || c == '\U{3000}'
    || c == '\n' || c == '\r' || c == '\U{2028}' || c == '\U{2029}'
  }

  /** The string with its leading white space removed. */
  function TrimStart(s: string): (r: string)
    ensures |r| <= |s| && r == s[|s| - |r|..]
    ensures r == [] || !IsStrWhiteSpace(r[0])
    ensures forall i :: 0 <= i < |s| - |r| ==> IsStrWhiteSpace(s[i])
  {
    if s != [] && IsStrWhiteSpace(s[0]) then TrimStart(s[1..]) else s
  }

  /** The value of `c` as a digit of a radix up to 36 (`0`-`9`, then the
      letters in either case); 36 when `c` is no digit at all. */
  function DigitValue(c: char): (d: nat)
    ensures d <= 36
  {
    if '0' <= c <= '9' then c as int - '0' as int
    else if 'a' <= c <= 'z' then c as int - 'a' as int + 10
    else if 'A' <= c <= 'Z' then c as int - 'A' as int + 10
    else 36
  }

  /** The longest prefix of `s` made of digits of `radix`. */
  function LeadingDigits(s: string, radix: nat): (z: string)
    ensures |z| <= |s| && z == s[..|z|]
    ensures forall i :: 0 <= i < |z| ==> DigitValue(z[i]) < radix
    ensures |z| < |s| ==> DigitValue(s[|z|]) >= radix
  {
    if s != [] && DigitValue(s[0]) < radix then [s[0]] + LeadingDigits(s[1..], radix) else []
  }

  /** The number a digit string denotes in `radix`, most significant digit first. */
  function DigitsValue(z: string, radix: nat): nat {
    if z == [] then 0 else DigitsValue(z[..|z| - 1], radix) * radix + DigitValue(z[|z| - 1])
  }

  predicate HasHexPrefix(u: string) {
    |u| >= 2 && u[0] == '0' && (u[1] == 'x' || u[1] == 'X')
  }

  /** The part of `parseInt` after the sign: an optional hex prefix, then
      the longest digit run; `None` when that run is empty. */
  function ParseUnsigned(u: string): Option<int> {
    var radix := if HasHexPrefix(u) then 16 else 10;
    var z := LeadingDigits(if HasHexPrefix(u) then u[2..] else u, radix);
    if z == [] then None else Some(DigitsValue(z, radix))
  }

  /** `parseInt(s)`: `None` stands for NaN. Both zeros are `Some(0)`, since
      their only use here is as a falsy value. */
  function ParseInt(s: string): Option<int> {
    ParseSigned(TrimStart(s))
  }

  /** The part of `parseInt` after the white space: an optional sign, then
      the unsigned part. */
  function ParseSigned(t: string): Option<int> {
    if t != [] && t[0] == '-' then Negate(ParseUnsigned(t[1..]))
    else if t != [] && t[0] == '+' then ParseUnsigned(t[1..])
    else ParseUnsigned(t)
  }

  function Negate(v: Option<int>): Option<int> {
    match v
    case None => None
    case Some(x) => Some(-x)
  }

  /** `parseInt(s) || d`: NaN and zero are falsy, so both give `d`. */
  function ParseIntOr(s: string, d: int): (r: int)
    ensures r == d || (ParseInt(s) == Some(r) && r != 0)
    ensures ParseInt(s).None? || ParseInt(s) == Some(0) ==> r == d
    ensures ParseInt(s).Some? && ParseInt(s).value != 0 ==> r == ParseInt(s).value
  {
    match ParseInt(s)
    case Some(v) => if v != 0 then v else d
    case None => d
  }

  function DigitChar(d: nat): (c: char)
    requires d < 10
    ensures DigitValue(c) == d
  {
    ('0' as int + d) as char
  }

  /** The decimal numeral of `n`, as `String(n)` writes it. */
  function NatToString(n: nat): (s: string)
    ensures |s| >= 1
    ensures forall i :: 0 <= i < |s| ==> DigitValue(s[i]) < 10
    ensures s[0] == '0' ==> n == 0 && s == "0"
  {
    if n < 10 then [DigitChar(n)] else NatToString(n / 10) + [DigitChar(n % 10)]
  }

  function IntToString(n: int): string {
    if n < 0 then "-" + NatToString(-n) else NatToString(n)
  }

  lemma {:induction false} DigitsValueOfNumeral(n: nat)
    ensures DigitsValue(NatToString(n), 10) == n
    decreases n
  {
    if n >= 10 {
      DigitsValueOfNumeral(n / 10);
      var s := NatToString(n);
      assert s[..|s| - 1] == NatToString(n / 10);
    }
  }

  lemma {:induction false} LeadingDigitsOfRun(z: string, rest: string, radix: nat)
    requires forall i :: 0 <= i < |z| ==> DigitValue(z[i]) < radix
    requires rest == [] || DigitValue(rest[0]) >= radix
    ensures LeadingDigits(z + rest, radix) == z
    decreases |z|
  {
    if z != [] {
      assert (z + rest)[1..] == z[1..] + rest;
      LeadingDigitsOfRun(z[1..], rest, radix);
    } else {
      assert z + rest == rest;
    }
  }

  lemma {:induction false} TrimStartOfBlank(w: string, s: string)
    requires forall i :: 0 <= i < |w| ==> IsStrWhiteSpace(w[i])
    requires s == [] || !IsStrWhiteSpace(s[0])
    ensures TrimStart(w + s) == s
    decreases |w|
  {
    if w != [] {
      assert (w + s)[1..] == w[1..] + s;
      TrimStartOfBlank(w[1..], s);
    } else {
      assert w + s == s;
    }
  }

  /** White space in front of any input changes nothing `parseInt` reads. */
  lemma {:induction false} ParseIntSkipsBlank(w: string, s: string)
    requires forall i :: 0 <= i < |w| ==> IsStrWhiteSpace(w[i])
    ensures ParseInt(w + s) == ParseInt(s)
    decreases |w|
  {
    if w != [] {
      assert (w + s)[0] == w[0];
      assert (w + s)[1..] == w[1..] + s;
      ParseIntSkipsBlank(w[1..], s);
    } else {
      assert w + s == s;
    }
  }

  /** `parseInt` reads back the decimal numeral of any integer, whatever white
      space precedes it and whatever follows it that is not a further digit
      (and, after the numeral `0`, not an `x` that would make a hex prefix). */
  lemma {:induction false} ParseIntReadsNumeral(w: string, n: int, rest: string)
    requires forall i :: 0 <= i < |w| ==> IsStrWhiteSpace(w[i])
    requires rest == [] || DigitValue(rest[0]) >= 10
    requires n == 0 && rest != [] ==> rest[0] != 'x' && rest[0] != 'X'
    ensures ParseInt(w + IntToString(n) + rest) == Some(n)
  {
    var t := IntToString(n) + rest;
    assert ParseInt(w + t) == ParseSigned(t) by {
      NumeralStartsPlain(n, rest);
      ParseIntAfterBlank(w, t);
    }
    assert ParseSigned(t) == Some(n) by {
      SignedReadsNumeral(n, rest);
    }
    assert w + IntToString(n) + rest == w + t;
  }

  /** White space before the sign is skipped. */
  lemma {:induction false} ParseIntAfterBlank(w: string, t: string)
    requires forall i :: 0 <= i < |w| ==> IsStrWhiteSpace(w[i])
    requires t != [] && !IsStrWhiteSpace(t[0])
    ensures ParseInt(w + t) == ParseSigned(t)
  {
    TrimStartOfBlank(w, t);
  }

  /** A numeral starts with a sign or a digit, neither of them white space. */
  lemma {:induction false} NumeralStartsPlain(n: int, rest: string)
    ensures IntToString(n) + rest != []
    ensures !IsStrWhiteSpace((IntToString(n) + rest)[0])
  {
    var t := IntToString(n) + rest;
    if n < 0 {
      assert t[0] == '-';
    } else {
      assert t[0] == NatToString(n)[0];
      assert '0' <= t[0] <= '9';
    }
  }

  /** After the white space, the numeral of `n` followed by a non-digit reads as `n`. */
  lemma {:induction false} SignedReadsNumeral(n: int, rest: string)
    requires rest == [] || DigitValue(rest[0]) >= 10
    requires n == 0 && rest != [] ==> rest[0] != 'x' && rest[0] != 'X'
    ensures IntToString(n) + rest != []
    ensures ParseSigned(IntToString(n) + rest) == Some(n)
  {
    if n < 0 {
      NegativeReadsNumeral(-n, rest);
    } else {
      UnsignedReadsNumeral(n, rest);
      var t := NatToString(n) + rest;
      assert DigitValue(t[0]) < 10;
    }
  }

  lemma {:induction false} NegativeReadsNumeral(m: nat, rest: string)
    requires m > 0
    requires rest == [] || DigitValue(rest[0]) >= 10
    ensures ParseSigned("-" + NatToString(m) + rest) == Some(-(m as int))
  {
    var u := NatToString(m) + rest;
    var t := "-" + NatToString(m) + rest;
    assert ParseSigned(t) == Negate(ParseUnsigned(u)) by {
      assert t == "-" + u;
      assert t[0] == '-' && t[1..] == u;
    }
    assert ParseUnsigned(u) == Some(m) by {
      UnsignedReadsNumeral(m, rest);
    }
  }

  /** After the sign, the numeral of `m` followed by a non-digit reads as `m`. */
  lemma {:induction false} UnsignedReadsNumeral(m: nat, rest: string)
    requires rest == [] || DigitValue(rest[0]) >= 10
    requires m == 0 && rest != [] ==> rest[0] != 'x' && rest[0] != 'X'
    ensures ParseUnsigned(NatToString(m) + rest) == Some(m)
  {
    var digits := NatToString(m);
    var u := digits + rest;
    assert u[0] == digits[0];
    if m == 0 {
      assert digits == "0";
      assert rest != [] ==> u[1] == rest[0];
    } else {
      assert digits[0] != '0';
    }
    LeadingDigitsOfRun(digits, rest, 10);
    DigitsValueOfNumeral(m);
  }

  /** `parseInt(String(n)) || d` gives back every non-zero `n`, and `d` for zero. */
  lemma {:induction false} ParseIntOrOfNumeral(n: int, d: int)
    ensures ParseIntOr(IntToString(n), d) == if n == 0 then d else n
  {
    ParseIntReadsNumeral("", n, "");
    assert "" + IntToString(n) + "" == IntToString(n);
  }
}
