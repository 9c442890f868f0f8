/**
  The parts of C#'s `int` that the application relies on: 32-bit wrap-around of
  unchecked arithmetic, the truncating remainder operator `%`, decimal rendering
  (`$"{n}"`) and `int.Parse` with the default integer number style.
*/
module CSharpInt {
  import opened Wrappers

  const MinInt32: int := -0x8000_0000
  const MaxInt32: int := 0x7FFF_FFFF

  type int32 = x: int | MinInt32 <= x <= MaxInt32

  /** Unchecked 32-bit arithmetic: the result is congruent to `x` modulo 2^32. */
  function Wrap32(x: int): (r: int32)
    ensures (r - x) % 0x1_0000_0000 == 0
    ensures MinInt32 <= x <= MaxInt32 ==> r == x
  {
    (x - MinInt32) % 0x1_0000_0000 + MinInt32
  }

  /** The exceptions the arithmetic and parsing below can raise. */
  datatype ArithmeticError = DivideByZero | Overflow

  /**
    C#'s `x % d` on `int`: the remainder carries the sign of the dividend (it
    truncates toward zero, unlike Dafny's Euclidean `%`). Division by zero throws
    `DivideByZeroException`, and `int.MinValue % -1` throws `OverflowException`.
  */
  function Remainder(x: int32, d: int32): (r: Result<int32, ArithmeticError>)
    ensures d == 0 <==> r == Failure(DivideByZero)
    ensures r.Failure? <==> d == 0 || (x == MinInt32 && d == -1)
    ensures r.Success? ==> -(Abs(d) as int) < r.value < Abs(d)
    ensures r.Success? && x >= 0 ==> r.value == x % Abs(d)
    ensures r.Success? && x < 0 ==> r.value == -(Abs(x) % Abs(d))
  {
    if d == 0 then Failure(DivideByZero)
    else if x == MinInt32 && d == -1 then Failure(Overflow)
    else if x >= 0 then Success(x % Abs(d))
    else Success(-(Abs(x) % Abs(d)))
  }

  function Abs(x: int): nat
  {
    if x < 0 then -x else x
  }

  // ---------------------------------------------------------------------
  // Decimal rendering, `n.ToString()` with the invariant negative sign.
  // ---------------------------------------------------------------------

  predicate IsDigit(c: char)
  {
    '0' <= c <= '9'
  }

  function DigitChar(d: nat): (c: char)
    requires d < 10
    ensures IsDigit(c) && DigitValue(c) == d
  {
    ['0', '1', '2', '3', '4', '5', '6', '7', '8', '9'][d]
  }

  function DigitValue(c: char): nat
    requires IsDigit(c)
  {
    c as int - '0' as int
  }

  /** The shortest decimal spelling of `n`, most significant digit first. */
  function DecimalDigits(n: nat): (s: string)
    ensures |s| > 0
    ensures forall i :: 0 <= i < |s| ==> IsDigit(s[i])
  {
    if n < 10 then [DigitChar(n)] else DecimalDigits(n / 10) + [DigitChar(n % 10)]
  }

  function IntToString(n: int): (s: string)
    ensures |s| > 0 && (s[0] == '-' <==> n < 0)
    ensures n >= 0 ==> IsDigit(s[0])
    ensures forall i :: 0 < i < |s| ==> IsDigit(s[i])
  {
    if n < 0 then "-" + DecimalDigits(Abs(n)) else DecimalDigits(n)
  }

  // ---------------------------------------------------------------------
  // `int.Parse(s)` with `NumberStyles.Integer`: optional leading white space,
  // an optional sign, at least one decimal digit, optional trailing white
  // space, and then only NUL characters.
  // ---------------------------------------------------------------------

  /** The .NET exception `int.Parse` throws on a bad input. */
  datatype ParseError = FormatError | OverflowError

  predicate IsWhite(c: char)
  {
    c == ' ' || '\t' <= c <= '\r'
  }

  function SkipWhite(s: string, i: nat): (k: nat)
    requires i <= |s|
    ensures i <= k <= |s|
    ensures forall j :: i <= j < k ==> IsWhite(s[j])
    ensures k < |s| ==> !IsWhite(s[k])
    decreases |s| - i
  {
    if i < |s| && IsWhite(s[i]) then SkipWhite(s, i + 1) else i
  }

  function DigitRunEnd(s: string, i: nat): (k: nat)
    requires i <= |s|
    ensures i <= k <= |s|
    ensures forall j :: i <= j < k ==> IsDigit(s[j])
    ensures k < |s| ==> !IsDigit(s[k])
    decreases |s| - i
  {
    if i < |s| && IsDigit(s[i]) then DigitRunEnd(s, i + 1) else i
  }

  /** The value of a run of decimal digits, read most significant first. */
  function DigitsValue(s: string): nat
    requires forall i :: 0 <= i < |s| ==> IsDigit(s[i])
  {
    if s == [] then 0 else DigitsValue(s[..|s| - 1]) * 10 + DigitValue(s[|s| - 1])
  }

  predicate AllNul(s: string)
  {
    forall i :: 0 <= i < |s| ==> s[i] == '\0'
  }

  function ParseInt(s: string): (r: Result<int32, ParseError>)
    ensures r.Success? ==> exists i :: 0 <= i < |s| && IsDigit(s[i])
  {
    var i := SkipWhite(s, 0);
    var negative := i < |s| && s[i] == '-';
    var j := if i < |s| && (s[i] == '-' || s[i] == '+') then i + 1 else i;
    var k := DigitRunEnd(s, j);
    if k == j then Failure(FormatError)
    else
      assert IsDigit(s[j]);
      var e := SkipWhite(s, k);
      if !AllNul(s[e..]) then Failure(FormatError)
      else
        var digits := s[j..k];
        assert forall t :: 0 <= t < |digits| ==> digits[t] == s[j + t];
        var magnitude: int := DigitsValue(digits);
        var v := if negative then -magnitude else magnitude;
        if v < MinInt32 || MaxInt32 < v then Failure(OverflowError) else Success(v)
  }

  lemma {:induction false} DigitsValueOfDecimalDigits(n: nat)
    ensures DigitsValue(DecimalDigits(n)) == n
  {
    if n >= 10 {
      var s := DecimalDigits(n);
      DigitsValueOfDecimalDigits(n / 10);
      assert s[..|s| - 1] == DecimalDigits(n / 10);
    }
  }

  lemma DigitRunEndOfDigits(s: string, i: nat)
    requires i <= |s|
    requires forall j :: i <= j < |s| ==> IsDigit(s[j])
    ensures DigitRunEnd(s, i) == |s|
  {
  }

  /** Parsing the rendering of any `int` gives that `int` back. */
  lemma ParseIntToString(n: int32)
    ensures ParseInt(IntToString(n)) == Success(n)
  {
    var s := IntToString(n);
    var digits := DecimalDigits(Abs(n));
    var j := if n < 0 then 1 else 0;
    assert s[j..] == digits;
    assert IsDigit(s[j]);
    assert (s[0] == '-') == (n < 0);
    assert SkipWhite(s, 0) == 0;
    DigitRunEndOfDigits(s, j);
    assert SkipWhite(s, |s|) == |s|;
    assert s[|s|..] == [];
    assert s[j..|s|] == digits;
    DigitsValueOfDecimalDigits(Abs(n));
  }
}
