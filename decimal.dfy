/**
 * Decimal text for integers: fmt.Sprintf("%d", n) on an unsigned 64-bit
 * transaction id, and the two readers the repository uses on such text,
 * strconv.ParseUint(s, 10, 64) and strconv.Atoi(s) (64-bit int).
 */
module Decimal {
  import opened Wrappers

  const Uint64Limit: int := 0x1_0000_0000_0000_0000
  const Int64Min: int := -0x8000_0000_0000_0000
  const Int64Max: int := 0x7fff_ffff_ffff_ffff

  predicate IsDigit(c: char)
  {
    '0' <= c <= '9'
  }

  predicate AllDigits(s: string)
  {
    forall i :: 0 <= i < |s| ==> IsDigit(s[i])
  }

  function DigitChar(d: nat): (c: char)
    requires d < 10
    ensures IsDigit(c)
  {
    (48 + d) as char
  }

  function DigitValue(c: char): (d: nat)
    requires IsDigit(c)
    ensures d < 10
  {
    c as int - 48
  }

  /** The number a run of decimal digits denotes (leading zeros allowed). */
  function DigitsValue(s: string): nat
    requires AllDigits(s)
  {
    if s == [] then 0 else DigitsValue(s[..|s| - 1]) * 10 + DigitValue(s[|s| - 1])
  }

  /** fmt.Sprintf("%d", n): the shortest decimal text of `n`. */
  function Format(n: nat): (s: string)
    ensures |s| > 0 && AllDigits(s)
    ensures s[0] == '0' ==> n == 0
  {
    if n < 10 then [DigitChar(n)] else Format(n / 10) + [DigitChar(n % 10)]
  }

  /** strconv.ParseUint(s, 10, 64): digits only, at least one, value below 2^64. */
  function ParseUint(s: string): (r: Option<nat>)
    ensures r.Some? <==> s != [] && AllDigits(s) && DigitsValue(s) < Uint64Limit
    ensures r.Some? ==> r.value < Uint64Limit
  {
    if s != [] && AllDigits(s) && DigitsValue(s) < Uint64Limit then Some(DigitsValue(s)) else None
  }

  /** strconv.Atoi(s): an optional '+' or '-' and at least one digit, in the 64-bit range. */
  function Atoi(s: string): (r: Option<int>)
    ensures r.Some? ==> Int64Min <= r.value <= Int64Max
    ensures r.Some? ==> s != [] && (IsDigit(s[0]) || s[0] == '+' || s[0] == '-')
  {
    var negative := s != [] && s[0] == '-';
    var digits := if s != [] && (s[0] == '+' || s[0] == '-') then s[1..] else s;
    if digits == [] then None
    else
      DigitsOfValue(digits);
      match DigitsOf(digits)
      case None => None
      case Some(magnitude) =>
        var m: int := magnitude;
        var v := if negative then -m else m;
        if Int64Min <= v <= Int64Max then Some(v) else None
  }

  /** The number a text denotes when it is all decimal digits, None otherwise. */
  function DigitsOf(s: string): (r: Option<nat>)
  {
    if s == [] then Some(0)
    else if !IsDigit(s[|s| - 1]) then None
    else
      match DigitsOf(s[..|s| - 1])
      case None => None
      case Some(v) => Some(v * 10 + DigitValue(s[|s| - 1]))
  }

  /** The digit reader accepts exactly the all-digit texts, and reads the number they denote. */
  lemma {:induction false} DigitsOfValue(s: string)
    ensures DigitsOf(s).Some? <==> AllDigits(s)
    ensures DigitsOf(s).Some? ==> DigitsOf(s).value == DigitsValue(s)
  {
    if s != [] {
      var init := s[..|s| - 1];
      DigitsOfValue(init);
      assert forall i :: 0 <= i < |init| ==> init[i] == s[i];
    }
  }

  /** The text of a signed integer, as fmt.Sprintf("%d", i) writes it. */
  function FormatInt(i: int): (s: string)
    ensures |s| > 0
  {
    if i < 0 then "-" + Format(-i) else Format(i)
  }

  lemma {:induction false} FormatValue(n: nat)
    ensures DigitsValue(Format(n)) == n
  {
    if n >= 10 {
      FormatValue(n / 10);
      var s := Format(n);
      assert s[..|s| - 1] == Format(n / 10);
    }
  }

  /** The decimal text a transaction id is stored as reads back as the same id. */
  lemma FormatParseUint(n: nat)
    requires n < Uint64Limit
    ensures ParseUint(Format(n)) == Some(n)
  {
    FormatValue(n);
  }

  /** Atoi reads back every 64-bit integer from its decimal text. */
  lemma FormatAtoi(i: int)
    requires Int64Min <= i <= Int64Max
    ensures Atoi(FormatInt(i)) == Some(i)
  {
    var s := FormatInt(i);
    if i < 0 {
      var digits := Format(-i);
      FormatValue(-i);
      DigitsOfValue(digits);
      assert s[0] == '-' && s[1..] == digits;
      assert DigitsOf(digits) == Some(-i);
    } else {
      FormatValue(i);
      DigitsOfValue(s);
      assert DigitsOf(s) == Some(i) && IsDigit(s[0]);
    }
  }

  /** Distinct ids never share a decimal text. */
  lemma FormatInjective(m: nat, n: nat)
    requires Format(m) == Format(n)
    ensures m == n
  {
    FormatValue(m);
    FormatValue(n);
  }
}
