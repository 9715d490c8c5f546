/** The few JavaScript string and number conversions the wizard relies on:
    `String.prototype.trim`, `String(n)` for an integer `n`, `parseInt(s, 10)`
    and `parseInt(s)` with no radix. */
module Text {
  import opened Base

  predicate IsDigit(c: char) { '0' <= c <= '9' }
  predicate IsLower(c: char) { 'a' <= c <= 'z' }
  predicate IsUpper(c: char) { 'A' <= c <= 'Z' }

  /** WhiteSpace and LineTerminator code points of ECMA-262 (sections 12.2
      and 12.3): what `trim` strips and what `parseInt` skips. */
  predicate IsJsSpace(c: char) {
    || c == ' ' || c == '\t' || c == '\n' || c == '\r'
    || c as int == 0x0B || c as int == 0x0C || c as int == 0xA0
    || c as int == 0x1680 || (0x2000 <= c as int <= 0x200A)
    || c as int == 0x2028 || c as int == 0x2029 || c as int == 0x202F
    || c as int == 0x205F || c as int == 0x3000 || c as int == 0xFEFF
  }

  /** `s.trimStart()`: drops the leading white space and nothing else. */
  function TrimStart(s: string): (r: string)
    ensures |r| <= |s| && r == s[|s| - |r|..]
    ensures r == [] || !IsJsSpace(r[0])
    ensures forall i :: 0 <= i < |s| - |r| ==> IsJsSpace(s[i])
  {
    if s != [] && IsJsSpace(s[0]) then TrimStart(s[1..]) else s
  }

  /** `s.trimEnd()`: drops the trailing white space and nothing else. */
  function TrimEnd(s: string): (r: string)
    ensures |r| <= |s| && r == s[..|r|]
    ensures r == [] || !IsJsSpace(r[|r| - 1])
    ensures forall i :: |r| <= i < |s| ==> IsJsSpace(s[i])
  {
    if s != [] && IsJsSpace(s[|s| - 1]) then TrimEnd(s[..|s| - 1]) else s
  }

  /** `r` is the slice of `s` that starts at `a`, and only white space
      lies before it and after it. */
  predicate TrimmedAt(s: string, a: int, r: string)
  {
    && 0 <= a && a + |r| <= |s| && r == s[a..a + |r|]
    && (forall i :: 0 <= i < a ==> IsJsSpace(s[i]))
    && (forall i :: a + |r| <= i < |s| ==> IsJsSpace(s[i]))
  }

  /** `s.trim()`: the slice of `s` left once the white space around it is
      gone; it neither starts nor ends with white space. */
  function Trim(s: string): (r: string)
    ensures |r| <= |s|
    ensures r == [] || (!IsJsSpace(r[0]) && !IsJsSpace(r[|r| - 1]))
    ensures r == [] <==> forall i :: 0 <= i < |s| ==> IsJsSpace(s[i])
    ensures exists a :: TrimmedAt(s, a, r)
  {
    TrimSlice(s);
    TrimEnd(TrimStart(s))
  }

  /** Trimming both ends keeps one contiguous slice of `s`, which starts
      where the leading white space ends. */
  lemma TrimSlice(s: string)
    ensures var r := TrimEnd(TrimStart(s));
      && (r == [] || !IsJsSpace(r[0]))
      && (r == [] <==> forall i :: 0 <= i < |s| ==> IsJsSpace(s[i]))
      && TrimmedAt(s, |s| - |TrimStart(s)|, r)
  {
    var t := TrimStart(s);
    var r := TrimEnd(t);
    if r == [] {
      assert t == [];
    } else {
      assert r[0] == t[0];
    }
    TrimTail(s, t, r);
  }

  lemma TrimTail(s: string, t: string, r: string)
    requires |t| <= |s| && t == s[|s| - |t|..]
    requires forall i :: 0 <= i < |s| - |t| ==> IsJsSpace(s[i])
    requires |r| <= |t| && r == t[..|r|]
    requires forall i :: |r| <= i < |t| ==> IsJsSpace(t[i])
    ensures TrimmedAt(s, |s| - |t|, r)
  {
    var a := |s| - |t|;
    forall i | a + |r| <= i < |s|
      ensures IsJsSpace(s[i])
    {
      assert s[i] == t[i - a];
    }
  }

  function DigitChar(d: nat): (c: char)
    requires d < 10
    ensures IsDigit(c) && DigitValue(c) == d
  {
    ['0', '1', '2', '3', '4', '5', '6', '7', '8', '9'][d]
  }

  function DigitValue(c: char): nat
    requires IsDigit(c)
  {
    c as int - '0' as int
  }

  predicate AllDigits(s: string) {
    forall i :: 0 <= i < |s| ==> IsDigit(s[i])
  }

  /** The decimal digits of `n`, most significant first, as `String(n)`
      writes a non-negative integer. */
  function NatToString(n: nat): (r: string)
    ensures r != [] && AllDigits(r)
  {
    if n < 10 then [DigitChar(n)] else NatToString(n / 10) + [DigitChar(n % 10)]
  }

  /** `String(n)` for an integer `n` (magnitudes below 10^21). */
  function IntToString(n: int): (r: string)
    ensures r != [] && (IsDigit(r[0]) || r[0] == '-')
  {
    if n < 0 then "-" + NatToString(-n) else NatToString(n)
  }

  /** The number a string of decimal digits denotes. */
  function DigitsValue(ds: string): nat
    requires AllDigits(ds)
  {
    if ds == [] then 0 else DigitsValue(ds[..|ds| - 1]) * 10 + DigitValue(ds[|ds| - 1])
  }

  /** The longest prefix of `s` made of decimal digits. */
  function LeadingDigits(s: string): (r: string)
    ensures AllDigits(r) && r <= s
    ensures |r| == |s| || !IsDigit(s[|r|])
  {
    if s == [] || !IsDigit(s[0]) then [] else [s[0]] + LeadingDigits(s[1..])
  }

  /** `parseInt(s, 10)` (section 19.2.5 of ECMA-262), with `None` for NaN:
      skip leading white space, read an optional sign, then the longest run
      of decimal digits; no digits at all is NaN. */
  function ParseInt(s: string): Option<int> {
    ParseSigned(TrimStart(s))
  }

  /** `parseInt` once the leading white space is gone. */
  function ParseSigned(t: string): Option<int> {
    if t != [] && t[0] == '-' then Negate(ParseDigits(t[1..]))
    else if t != [] && t[0] == '+' then ParseDigits(t[1..])
    else ParseDigits(t)
  }

  function Negate(v: Option<int>): Option<int> {
    match v
    case Some(x) => Some(-x)
    case None => None
  }

  /** The value of the digits `s` starts with, or `None` when it starts with
      none. */
  function ParseDigits(s: string): Option<int> {
    var digits := LeadingDigits(s);
    if digits == [] then None else Some(DigitsValue(digits))
  }

  /** `parseInt(s, 10) || 0`: NaN (and zero) become zero. */
  function ParseIntOrZero(s: string): int {
    ParseInt(s).GetOr(0)
  }

  predicate IsHexDigit(c: char) { IsDigit(c) || 'a' <= c <= 'f' || 'A' <= c <= 'F' }

  function HexDigitValue(c: char): (v: nat)
    requires IsHexDigit(c)
    ensures v < 16
    ensures IsDigit(c) ==> v == DigitValue(c)
  {
    if IsDigit(c) then DigitValue(c)
    else if 'a' <= c <= 'f' then c as int - 'a' as int + 10
    else c as int - 'A' as int + 10
  }

  predicate AllHexDigits(s: string) {
    forall i :: 0 <= i < |s| ==> IsHexDigit(s[i])
  }

  /** The number a string of hexadecimal digits denotes. */
  function HexDigitsValue(ds: string): nat
    requires AllHexDigits(ds)
  {
    if ds == [] then 0 else HexDigitsValue(ds[..|ds| - 1]) * 16 + HexDigitValue(ds[|ds| - 1])
  }

  /** The longest prefix of `s` made of hexadecimal digits. */
  function LeadingHexDigits(s: string): (r: string)
    ensures AllHexDigits(r) && r <= s
    ensures |r| == |s| || !IsHexDigit(s[|r|])
  {
    if s == [] || !IsHexDigit(s[0]) then [] else [s[0]] + LeadingHexDigits(s[1..])
  }

  function ParseHexDigits(s: string): Option<int> {
    var digits := LeadingHexDigits(s);
    if digits == [] then None else Some(HexDigitsValue(digits))
  }

  /** The text after an optional leading sign. */
  function Unsigned(t: string): (u: string)
    ensures u == t || (t != [] && (t[0] == '-' || t[0] == '+') && u == t[1..])
  {
    if t != [] && (t[0] == '-' || t[0] == '+') then t[1..] else t
  }

  /** Whether a magnitude starts with "0x" or "0X". */
  predicate HasHexPrefix(u: string) {
    |u| >= 2 && u[0] == '0' && (u[1] == 'x' || u[1] == 'X')
  }

  /** `parseInt(s)` with no radix (section 19.2.5 of ECMA-262), with `None`
      for NaN: as `parseInt(s, 10)`, except that "0x" or "0X" right after
      the sign makes the digits that follow hexadecimal, and no hexadecimal
      digit after it is NaN. */
  function ParseIntAuto(s: string): (r: Option<int>)
    ensures !HasHexPrefix(Unsigned(TrimStart(s))) ==> r == ParseInt(s)
    ensures HasHexPrefix(Unsigned(TrimStart(s))) ==>
      (r.Some? <==> LeadingHexDigits(Unsigned(TrimStart(s))[2..]) != [])
  {
    ParseSignedAuto(TrimStart(s))
  }

  function ParseSignedAuto(t: string): Option<int> {
    if t != [] && t[0] == '-' then Negate(ParseMagnitude(t[1..]))
    else if t != [] && t[0] == '+' then ParseMagnitude(t[1..])
    else ParseMagnitude(t)
  }

  function ParseMagnitude(u: string): Option<int> {
    if HasHexPrefix(u) then ParseHexDigits(u[2..]) else ParseDigits(u)
  }

  lemma {:induction false} DigitsValueOfNatToString(n: nat)
    ensures DigitsValue(NatToString(n)) == n
  {
    var r := NatToString(n);
    if n < 10 {
      assert r[..|r| - 1] == [];
    } else {
      DigitsValueOfNatToString(n / 10);
      assert r[..|r| - 1] == NatToString(n / 10);
    }
  }

  lemma {:induction false} LeadingDigitsOfDigits(ds: string, rest: string)
    requires AllDigits(ds)
    requires rest == [] || !IsDigit(rest[0])
    ensures LeadingDigits(ds + rest) == ds
  {
    if ds != [] {
      assert (ds + rest)[1..] == ds[1..] + rest;
      LeadingDigitsOfDigits(ds[1..], rest);
    }
  }

  /** `parseInt` reads back the integer `String(n)` wrote, whatever non-digit
      text follows it. */
  lemma ParseIntOfIntToString(n: int, rest: string)
    requires rest == [] || !IsDigit(rest[0])
    ensures ParseInt(IntToString(n) + rest) == Some(n)
  {
    if n < 0 {
      ParseIntOfNegative(n, rest);
    } else {
      ParseIntOfNonNegative(n, rest);
    }
  }

  lemma ParseIntOfNegative(n: int, rest: string)
    requires n < 0
    requires rest == [] || !IsDigit(rest[0])
    ensures ParseInt(IntToString(n) + rest) == Some(n)
  {
    var m: nat := -n;
    var t := NatToString(m) + rest;
    ParseDigitsOfNatToString(m, rest);
    ParseIntMinus(t);
    assert ParseInt(['-'] + t) == Some(n);
    NegativeText(n, rest);
  }

  lemma NegativeText(n: int, rest: string)
    requires n < 0
    ensures IntToString(n) + rest == ['-'] + (NatToString(-n) + rest)
  {
  }

  lemma ParseIntOfNonNegative(n: nat, rest: string)
    requires rest == [] || !IsDigit(rest[0])
    ensures ParseInt(IntToString(n) + rest) == Some(n)
  {
    var t := NatToString(n) + rest;
    ParseDigitsOfNatToString(n, rest);
    assert IntToString(n) + rest == t;
    ParseSignedDigit(t);
    ParseIntWithoutSpace(t);
  }

  lemma ParseSignedDigit(t: string)
    requires t != [] && IsDigit(t[0])
    ensures ParseSigned(t) == ParseDigits(t)
  {
  }

  lemma ParseIntWithoutSpace(s: string)
    requires s != [] && !IsJsSpace(s[0])
    ensures ParseInt(s) == ParseSigned(s)
  {
  }

  lemma ParseIntMinus(t: string)
    ensures ParseInt(['-'] + t) == Negate(ParseDigits(t))
  {
    var s := ['-'] + t;
    assert s[1..] == t;
    ParseIntWithoutSpace(s);
  }

  lemma ParseDigitsOfNatToString(m: nat, rest: string)
    requires rest == [] || !IsDigit(rest[0])
    ensures ParseDigits(NatToString(m) + rest) == Some(m)
  {
    LeadingDigitsOfDigits(NatToString(m), rest);
    DigitsValueOfNatToString(m);
  }

  /** Two texts that begin with different integers followed by non-digit
      text are different: `String(n)` is injective even with a suffix. */
  lemma IntToStringPrefixInjective(m: int, n: int, rest1: string, rest2: string)
    requires rest1 == [] || !IsDigit(rest1[0])
    requires rest2 == [] || !IsDigit(rest2[0])
    requires IntToString(m) + rest1 == IntToString(n) + rest2
    ensures m == n
  {
    ParseIntOfIntToString(m, rest1);
    ParseIntOfIntToString(n, rest2);
  }

  /** `parseInt` with no radix also reads back what `String(n)` wrote:
      `String(n)` never starts with "0x". */
  lemma ParseIntAutoOfIntToString(n: int)
    ensures ParseIntAuto(IntToString(n)) == Some(n)
  {
    var t := IntToString(n);
    assert t + "" == t;
    ParseIntOfIntToString(n, "");
    TrimStartOfIntToString(n);
    UnsignedIntToString(n);
    assert ParseIntAuto(t) == ParseInt(t);
  }

  lemma TrimStartOfIntToString(n: int)
    ensures TrimStart(IntToString(n)) == IntToString(n)
  {
    var t := IntToString(n);
    assert !IsJsSpace(t[0]);
  }

  lemma UnsignedIntToString(n: int)
    ensures !HasHexPrefix(Unsigned(IntToString(n)))
  {
    var m: nat := if n < 0 then -n else n;
    var d := NatToString(m);
    assert Unsigned(IntToString(n)) == d by {
      if n < 0 {
        assert IntToString(n) == "-" + d;
        assert (("-" + d)[1..]) == d;
      }
    }
    assert |d| >= 2 ==> IsDigit(d[1]);
  }

  /** A row index written "0x1" selects row 1 through `parseInt(index)`,
      where `parseInt(index, 10)` reads it as 0. */
  lemma HexIndexExample()
    ensures ParseIntAuto("0x1") == Some(1)
    ensures ParseInt("0x1") == Some(0)
  {
    var s := "0x1";
    assert TrimStart(s) == s;
    assert LeadingHexDigits(s[2..]) == "1";
    assert HexDigitsValue("1") == 1;
    assert LeadingDigits(s) == "0" by {
      assert LeadingDigits(s[1..]) == [];
    }
    assert DigitsValue("0") == 0;
  }

  /** A text that starts with an ASCII letter or a bracket is NaN to `parseInt`. */
  lemma ParseIntAutoOfWord(s: string)
    requires s != [] && (IsLower(s[0]) || IsUpper(s[0]) || s[0] == '[')
    ensures ParseIntAuto(s) == None
  {
    assert !IsJsSpace(s[0]);
    assert TrimStart(s) == s;
    assert !HasHexPrefix(s) && LeadingDigits(s) == [];
    assert ParseMagnitude(s) == None;
    assert ParseSignedAuto(s) == None;
  }
}
