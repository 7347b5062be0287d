/** The parts of the C and C++ standard libraries that the tree code relies
    on: C strings (`c_str()`, `strlen`), the C locale's `isspace`,
    `std::to_string(int)` and `std::stoi`. */
module CStd {

  import opened Wrappers

  const MinInt32: int := -0x8000_0000
  const MaxInt32: int := 0x7fff_ffff

  /** A C++ `int` on the platforms the program targets. */
  type Int32 = x: int | MinInt32 <= x <= MaxInt32

  /** The text a C string read from `s.c_str()` holds: `s` up to its first NUL. */
  function CStr(s: string): (r: string)
    ensures r <= s
    ensures '\0' !in r
    ensures |r| < |s| ==> s[|r|] == '\0'
    ensures '\0' !in s ==> r == s
  {
    if s == [] || s[0] == '\0' then [] else [s[0]] + CStr(s[1..])
  }

  /** `isspace` in the C locale. */
  predicate IsSpace(c: char)
  {
    c == ' ' || c == '\t' || c == '\n' || c == '\U{000B}' || c == '\U{000C}' || c == '\r'
  }

  predicate IsDigit(c: char)
  {
    '0' <= c <= '9'
  }

  predicate AllDigits(s: string)
  {
    forall i :: 0 <= i < |s| ==> IsDigit(s[i])
  }

  function DigitChar(d: nat): (c: char)
    requires d < 10
    ensures IsDigit(c)
  {
    ('0' as int + d) as char
  }

  function DigitValue(c: char): (d: nat)
    requires IsDigit(c)
    ensures d < 10 && DigitChar(d) == c
  {
    c as int - '0' as int
  }

  /** The value of a string of decimal digits, most significant first. */
  function DigitsValue(s: string): nat
    requires AllDigits(s)
  {
    if s == [] then 0 else DigitsValue(s[..|s| - 1]) * 10 + DigitValue(s[|s| - 1])
  }

  /** The decimal digits of `n` without leading zeros ("0" for zero). */
  function NatDigits(n: nat): (r: string)
    ensures |r| >= 1 && AllDigits(r)
    ensures r[0] == '0' <==> n == 0
    ensures n == 0 ==> r == "0"
  {
    if n < 10 then [DigitChar(n)] else NatDigits(n / 10) + [DigitChar(n % 10)]
  }

  /** `std::to_string(int)`: an optional minus sign, then the digits of the magnitude. */
  function ToDecimal(n: int): (r: string)
    ensures |r| >= 1 && '\0' !in r
    ensures r[0] == '-' <==> n < 0
    ensures n < 0 ==> r[1..] == NatDigits(-n)
    ensures n >= 0 ==> r == NatDigits(n)
  {
    if n < 0 then "-" + NatDigits(-n) else NatDigits(n)
  }

  /** Length of the run of characters satisfying `isspace` at the front of `s`. */
  function SpaceRun(s: string): (k: nat)
    ensures k <= |s|
    ensures forall i :: 0 <= i < k ==> IsSpace(s[i])
    ensures k < |s| ==> !IsSpace(s[k])
  {
    if s == [] || !IsSpace(s[0]) then 0 else 1 + SpaceRun(s[1..])
  }

  /** Length of the run of decimal digits at the front of `s`. */
  function DigitRun(s: string): (k: nat)
    ensures k <= |s|
    ensures AllDigits(s[..k])
    ensures k < |s| ==> !IsDigit(s[k])
  {
    if s == [] || !IsDigit(s[0]) then 0 else 1 + DigitRun(s[1..])
  }

  /** `std::stoi(s)` in base 10: leading white space is skipped, then an
      optional sign and the longest run of digits are read and the rest of the
      string is ignored. It throws (here: `None`) when there is no digit, or
      when the value does not fit an `int`. */
  function Stoi(s: string): (r: Option<Int32>)
    ensures SpaceRun(s) == |s| ==> r.None?
    ensures r.Some? && r.value < 0 ==> s[SpaceRun(s)] == '-'
  {
    StoiSigned(s[SpaceRun(s)..])
  }

  /** `std::stoi` after the white space: the sign, then the digits. */
  function StoiSigned(t: string): Option<Int32>
  {
    if |t| > 0 && t[0] == '-' then StoiDigits(true, t[1..])
    else if |t| > 0 && t[0] == '+' then StoiDigits(false, t[1..])
    else StoiDigits(false, t)
  }

  /** `std::stoi` on the digits after the sign. */
  function StoiDigits(negative: bool, u: string): Option<Int32>
  {
    var k := DigitRun(u);
    if k == 0 then None
    else
      var magnitude: int := DigitsValue(u[..k]);
      var v := if negative then -magnitude else magnitude;
      if MinInt32 <= v <= MaxInt32 then Some(v) else None
  }

  lemma {:induction false} DigitsValueOfNatDigits(n: nat)
    ensures DigitsValue(NatDigits(n)) == n
  {
    var r := NatDigits(n);
    if n >= 10 {
      DigitsValueOfNatDigits(n / 10);
      assert r[..|r| - 1] == NatDigits(n / 10);
    }
  }

  /** The digits `std::to_string` writes for a magnitude are read back as that magnitude. */
  lemma StoiDigitsOfNatDigits(negative: bool, m: nat)
    ensures var v: int := if negative then -(m as int) else m;
      StoiDigits(negative, NatDigits(m)) == if MinInt32 <= v <= MaxInt32 then Some(v) else None
  {
    var u := NatDigits(m);
    assert DigitRun(u) == |u| && u[..|u|] == u;
    DigitsValueOfNatDigits(m);
  }

  /** `std::stoi` reads back exactly what `std::to_string` writes, for every `int`. */
  lemma StoiToDecimal(n: Int32)
    ensures Stoi(ToDecimal(n)) == Some(n)
  {
    var s := ToDecimal(n);
    assert SpaceRun(s) == 0 && s[0..] == s;
    var m: nat := if n < 0 then -(n as int) else n as int;
    StoiDigitsOfNatDigits(n < 0, m);
    if n < 0 {
      assert StoiSigned(s) == StoiDigits(true, NatDigits(m));
    } else {
      assert StoiSigned(s) == StoiDigits(false, NatDigits(m));
    }
  }

  /** Reading stops at the first character that is not a digit. */
  lemma StoiStopsAtNonDigit()
    ensures Stoi("12abc") == Some(12)
  {
    assert DigitRun("12abc") == 2 by { assert DigitRun("abc") == 0; }
    assert "12abc"[..2] == "12";
    assert DigitsValue("12") == 12 by { assert "12"[..1] == "1"; assert "1"[..0] == ""; }
  }

  /** White space before the numeral and a sign are accepted. */
  lemma StoiSkipsSpaceAndSign()
    ensures Stoi(" \t-7") == Some(-7)
    ensures Stoi("+3") == Some(3)
  {
    assert SpaceRun(" \t-7") == 2 && " \t-7"[2..] == "-7";
    assert StoiSigned("-7") == StoiDigits(true, "7");
    assert DigitRun("7") == 1 && "7"[..1] == "7";
    assert SpaceRun("+3") == 0 && "+3"[0..] == "+3";
    assert StoiSigned("+3") == StoiDigits(false, "3");
    assert DigitRun("3") == 1 && "3"[..1] == "3";
  }

  /** Text with no digit after the optional sign is rejected. */
  lemma StoiRejectsNoDigits()
    ensures Stoi("abc") == None
    ensures Stoi("") == None
    ensures Stoi(" -x") == None
  {
    assert SpaceRun("abc") == 0 && "abc"[0..] == "abc";
    assert DigitRun("abc") == 0;
    assert SpaceRun(" -x") == 1 && " -x"[1..] == "-x";
    assert StoiSigned("-x") == StoiDigits(true, "x");
    assert DigitRun("x") == 0;
  }

  /** A numeral above the largest `int` is rejected. */
  lemma StoiRejectsTooLarge(m: nat)
    requires m > MaxInt32
    ensures Stoi(NatDigits(m)) == None
  {
    var u := NatDigits(m);
    assert SpaceRun(u) == 0 && u[0..] == u;
    assert StoiSigned(u) == StoiDigits(false, u);
    StoiDigitsOfNatDigits(false, m);
  }

  /** A numeral below the smallest `int` is rejected. */
  lemma StoiRejectsTooSmall(m: nat)
    requires -(m as int) < MinInt32
    ensures Stoi("-" + NatDigits(m)) == None
  {
    var w := "-" + NatDigits(m);
    assert SpaceRun(w) == 0 && w[0..] == w;
    assert w[1..] == NatDigits(m);
    assert StoiSigned(w) == StoiDigits(true, NatDigits(m));
    StoiDigitsOfNatDigits(true, m);
  }
}
