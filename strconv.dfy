/**
 * The two conversions of Go's `strconv` package that the worker-pool parser
 * uses, `Atoi` and `ParseBool`, each returning its value together with the
 * error Go reports, and their inverses `Itoa` and `FormatBool`.
 */
module Strconv {
  import opened Wrappers

  /** Go's `int` on a 64-bit platform. */
  const MaxInt: int := 0x7FFF_FFFF_FFFF_FFFF
  const MinInt: int := -0x8000_0000_0000_0000

  /** The two kinds of `*strconv.NumError`. */
  datatype NumError = ErrSyntax | ErrRange

  predicate IsDigit(c: char) {
    '0' <= c <= '9'
  }

  predicate AllDigits(s: string) {
    forall i :: 0 <= i < |s| ==> IsDigit(s[i])
  }

  /** The value of a string of decimal digits, most significant first. */
  function DigitsValue(ds: string): nat
    requires AllDigits(ds)
    decreases |ds|
  {
    if |ds| == 0 then 0
    else DigitsValue(ds[..|ds| - 1]) * 10 + (ds[|ds| - 1] as int - '0' as int)
  }

  /** The decimal text of a signed number: an optional sign and at least one digit. */
  predicate IsDecimal(s: string) {
    var body := if |s| > 0 && (s[0] == '-' || s[0] == '+') then s[1..] else s;
    |body| > 0 && AllDigits(body)
  }

  /**
   * `strconv.Atoi`: an optional `+` or `-` followed by decimal digits. Any
   * other text is a syntax error with value 0; a number outside `int` is a
   * range error whose value is the nearest end of the range.
   */
  function Atoi(s: string): (r: (int, Option<NumError>))
    ensures MinInt <= r.0 <= MaxInt
    ensures r.1 == Some(ErrSyntax) <==> !IsDecimal(s)
    ensures r.1 == Some(ErrSyntax) ==> r.0 == 0
    ensures r.1 == Some(ErrRange) ==> r.0 == MaxInt || r.0 == MinInt
  {
    var neg := |s| > 0 && s[0] == '-';
    var body := if |s| > 0 && (s[0] == '-' || s[0] == '+') then s[1..] else s;
    if |body| == 0 || !AllDigits(body) then (0, Some(ErrSyntax))
    else
      var v: int := DigitsValue(body);
      var n := if neg then -v else v;
      if n > MaxInt then (MaxInt, Some(ErrRange))
      else if n < MinInt then (MinInt, Some(ErrRange))
      else (n, None)
  }

  /** The decimal digits of a natural number, without leading zeros. */
  function NatDigits(n: nat): (ds: string)
    ensures |ds| >= 1 && AllDigits(ds)
    decreases n
  {
    if n < 10 then [('0' as int + n) as char]
    else NatDigits(n / 10) + [('0' as int + n % 10) as char]
  }

  /** `strconv.Itoa`: the decimal text of `n`, with a `-` when it is negative. */
  function Itoa(n: int): string {
    if n < 0 then "-" + NatDigits(-n) else NatDigits(n)
  }

  lemma {:induction false} DigitsValueOfNatDigits(n: nat)
    ensures DigitsValue(NatDigits(n)) == n
    decreases n
  {
    var ds := NatDigits(n);
    if n >= 10 {
      DigitsValueOfNatDigits(n / 10);
      assert ds[..|ds| - 1] == NatDigits(n / 10);
    }
  }

  /** `Atoi` reads back every `int` that `Itoa` writes, without error. */
  lemma AtoiItoa(n: int)
    requires MinInt <= n <= MaxInt
    ensures Atoi(Itoa(n)) == (n, None)
  {
    var s := Itoa(n);
    if n < 0 {
      DigitsValueOfNatDigits(-n);
      assert s[1..] == NatDigits(-n);
    } else {
      DigitsValueOfNatDigits(n);
    }
  }

  /**
   * `strconv.ParseBool`: the six spellings of true and the six of false;
   * any other text is a syntax error whose value is false.
   */
  function ParseBool(s: string): (r: (bool, Option<NumError>))
    ensures r.1.Some? ==> r.1 == Some(ErrSyntax) && !r.0
    ensures r.0 ==> |s| >= 1 && (s[0] == '1' || s[0] == 't' || s[0] == 'T')
  {
    if s in ["1", "t", "T", "TRUE", "true", "True"] then (true, None)
    else if s in ["0", "f", "F", "FALSE", "false", "False"] then (false, None)
    else (false, Some(ErrSyntax))
  }

  /** `strconv.FormatBool`. */
  function FormatBool(b: bool): string {
    if b then "true" else "false"
  }

  /** `ParseBool` reads back what `FormatBool` writes. */
  lemma ParseBoolFormatBool(b: bool)
    ensures ParseBool(FormatBool(b)) == (b, None)
  {
  }
}
