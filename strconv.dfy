/**
  Go's `strconv.Atoi` and `strconv.Itoa` on the 64-bit `int` type.

  `Atoi` accepts an optional `+` or `-` sign followed by one or more ASCII
  digits (leading zeros allowed, no underscores, no spaces) and rejects a value
  outside the 64-bit range; `Itoa` prints the shortest decimal form, with a
  leading `-` for negative values.
 */
module Strconv {
  import opened Wrappers

  const MaxInt: int := 0x7fff_ffff_ffff_ffff
  const MinInt: int := -0x8000_0000_0000_0000

  /** True iff `n` is a value of Go's 64-bit `int`. */
  predicate InIntRange(n: int) {
    MinInt <= n <= MaxInt
  }

  predicate IsDigit(c: char) {
    '0' <= c <= '9'
  }

  predicate AllDigits(s: string) {
    forall i :: 0 <= i < |s| ==> IsDigit(s[i])
  }

  /** The number a string of decimal digits denotes. */
  function DigitsValue(s: string): nat
    requires AllDigits(s)
  {
    if s == [] then 0 else DigitsValue(s[..|s| - 1]) * 10 + (s[|s| - 1] as int - '0' as int)
  }

  /** The shortest decimal digits of `n`. */
  function Digits(n: nat): (r: string)
    ensures |r| >= 1 && AllDigits(r)
    ensures r[0] == '0' ==> n == 0
  {
    if n < 10 then [('0' as int + n) as char]
    else Digits(n / 10) + [('0' as int + n % 10) as char]
  }

  function Itoa(n: int): string {
    if n < 0 then "-" + Digits(-n) else Digits(n)
  }

  /** The failure reasons Go's `*strconv.NumError` reports for `Atoi`. */
  const SyntaxError := "invalid syntax"
  const RangeError := "value out of range"

  /** True iff `s` starts with a sign character. */
  predicate Signed(s: string) {
    |s| > 0 && (s[0] == '-' || s[0] == '+')
  }

  /** What follows the optional sign. */
  function Body(s: string): (b: string)
    ensures Signed(s) ==> s == [s[0]] + b
    ensures !Signed(s) ==> b == s
  {
    if Signed(s) then s[1..] else s
  }

  /** The 64-bit range check on a parsed magnitude. */
  function InRange(negative: bool, magnitude: int): (r: Result<int, string>)
    ensures r.Success? <==> InIntRange(if negative then -magnitude else magnitude)
    ensures r.Success? ==> r.value == if negative then -magnitude else magnitude
    ensures r.Failure? ==> r.error == RangeError
  {
    var v: int := if negative then -magnitude else magnitude;
    if InIntRange(v) then Success(v) else Failure(RangeError)
  }

  /** The largest magnitude the unsigned scan underneath `Atoi` can hold: 2^64 - 1. */
  const MaxUint: int := 0xffff_ffff_ffff_ffff

  /** The length of the run of digits `s` starts with. */
  function DigitRun(s: string): (k: nat)
    ensures k <= |s| && AllDigits(s[..k])
    ensures k < |s| ==> !IsDigit(s[k])
  {
    if s == [] || !IsDigit(s[0]) then 0
    else
      var k := 1 + DigitRun(s[1..]);
      assert forall i :: 1 <= i < k ==> s[..k][i] == s[1..][..k - 1][i - 1];
      k
  }

  /**
    Go scans the digits left to right and reports `value out of range` as soon
    as the magnitude read so far passes 2^64 - 1, before it reaches a later
    character that is not a digit; only then does a non-digit give
    `invalid syntax`, and a full run of digits is checked against the signed
    64-bit range.
   */
  function Atoi(s: string): (r: Result<int, string>)
    ensures r.Success? ==> InIntRange(r.value)
    ensures r.Failure? ==> r.error == SyntaxError || r.error == RangeError
  {
    var body := Body(s);
    var run := DigitRun(body);
    if body == [] then Failure(SyntaxError)
    else if DigitsValue(body[..run]) > MaxUint then Failure(RangeError)
    else if run < |body| then Failure(SyntaxError)
    else
      assert body[..run] == body;
      InRange(Signed(s) && s[0] == '-', DigitsValue(body))
  }

  /** Independent statement of the accepted syntax and range. */
  ghost predicate ParsesAsInt(s: string) {
    exists sign: string, digits: string ::
      sign in {"", "+", "-"} && s == sign + digits && |digits| >= 1 && AllDigits(digits)
      && InIntRange(SignedValue(sign, digits))
  }

  function SignedValue(sign: string, digits: string): int
    requires AllDigits(digits)
  {
    var magnitude: int := DigitsValue(digits);
    if sign == "-" then -magnitude else magnitude
  }

  /** `Atoi` succeeds exactly on an optional sign, at least one digit, and a value in range. */
  lemma AtoiAcceptsExactly(s: string)
    ensures Atoi(s).Success? <==> ParsesAsInt(s)
    ensures Atoi(s).Success? ==> exists sign, digits ::
      sign in {"", "+", "-"} && s == sign + digits && AllDigits(digits) && Atoi(s).value == SignedValue(sign, digits)
  {
    if Atoi(s).Success? {
      AtoiSound(s);
    }
    if ParsesAsInt(s) {
      var sg: string, ds: string :| sg in {"", "+", "-"} && s == sg + ds && |ds| >= 1 && AllDigits(ds)
        && InIntRange(SignedValue(sg, ds));
      AtoiComplete(s, sg, ds);
    }
  }

  lemma AtoiSound(s: string)
    requires Atoi(s).Success?
    ensures var sign := if Signed(s) then [s[0]] else "";
      sign in {"", "+", "-"} && s == sign + Body(s) && |Body(s)| >= 1 && AllDigits(Body(s))
      && Atoi(s).value == SignedValue(sign, Body(s)) && InIntRange(SignedValue(sign, Body(s)))
  {
    var body := Body(s);
    assert DigitRun(body) == |body|;
    assert body[..|body|] == body;
  }

  /** A string of digits is one run. */
  lemma {:induction false} DigitRunOfDigits(s: string)
    requires AllDigits(s)
    ensures DigitRun(s) == |s|
    decreases |s|
  {
    if s != [] {
      assert IsDigit(s[0]);
      DigitRunOfDigits(s[1..]);
    }
  }

  lemma AtoiComplete(s: string, sg: string, ds: string)
    requires sg in {"", "+", "-"} && s == sg + ds && |ds| >= 1 && AllDigits(ds)
    requires InIntRange(SignedValue(sg, ds))
    ensures Atoi(s) == Success(SignedValue(sg, ds))
  {
    if sg == "" {
      assert s == ds;
      assert IsDigit(ds[0]);
      assert !Signed(s) && Body(s) == ds;
    } else {
      assert s[0] == sg[0];
      assert s[1..] == ds;
    }
    DigitRunOfDigits(ds);
    assert ds[..|ds|] == ds;
  }

  function Pow10(n: nat): nat {
    if n == 0 then 1 else 10 * Pow10(n - 1)
  }

  lemma {:induction false} Pow10Add(a: nat, b: nat)
    ensures Pow10(a + b) == Pow10(a) * Pow10(b)
  {
    if a > 0 {
      Pow10Add(a - 1, b);
    }
  }

  lemma {:induction false} Pow10Monotone(a: nat, b: nat)
    requires a <= b
    ensures Pow10(a) <= Pow10(b)
    decreases b
  {
    if a < b {
      Pow10Monotone(a, b - 1);
    }
  }

  /** Digits that do not start with `0` are worth at least 10^(length - 1). */
  lemma {:induction false} DigitsValueAtLeast(s: string)
    requires AllDigits(s) && |s| >= 1 && s[0] != '0'
    ensures DigitsValue(s) >= Pow10(|s| - 1)
    decreases |s|
  {
    if |s| > 1 {
      var init := s[..|s| - 1];
      assert init[0] == s[0];
      DigitsValueAtLeast(init);
    }
  }

  /**
    Overflow is reported before a later non-digit: twenty-one or more digits
    without a leading zero are out of range, whatever follows them.
   */
  lemma AtoiRangeBeforeSyntax(s: string)
    requires |Body(s)| > 0 && Body(s)[0] != '0' && DigitRun(Body(s)) >= 21
    ensures Atoi(s) == Failure(RangeError)
  {
    var body := Body(s);
    var run := DigitRun(body);
    var digits := body[..run];
    assert digits[0] == body[0];
    DigitsValueAtLeast(digits);
    Pow10Monotone(20, run - 1);
    Pow10Add(5, 5);
    Pow10Add(10, 10);
  }

  /** The text of the error `Atoi` returns for `s`. */
  function AtoiErrorText(s: string, reason: string): string {
    "strconv.Atoi: parsing \"" + s + "\": " + reason
  }

  lemma {:induction false} DigitsValueOfDigits(n: nat)
    ensures DigitsValue(Digits(n)) == n
  {
    if n >= 10 {
      var d := Digits(n);
      assert d[..|d| - 1] == Digits(n / 10);
      DigitsValueOfDigits(n / 10);
    }
  }

  /** Printing a 64-bit value and parsing it back gives the value. */
  lemma AtoiItoa(n: int)
    requires InIntRange(n)
    ensures Atoi(Itoa(n)) == Success(n)
  {
    if n < 0 {
      var d := Digits(-n);
      DigitsValueOfDigits(-n);
      AtoiComplete("-" + d, "-", d);
    } else {
      var d := Digits(n);
      DigitsValueOfDigits(n);
      assert "" + d == d;
      AtoiComplete(d, "", d);
    }
  }


  /** `Itoa` produces only a sign and digits, so never a separator such as `.`. */
  lemma ItoaAlphabet(n: int)
    ensures forall i :: 0 <= i < |Itoa(n)| ==> IsDigit(Itoa(n)[i]) || (i == 0 && Itoa(n)[i] == '-')
  {
  }
}
