/** The few JavaScript runtime behaviours the tracker's logic depends on:
    optional record fields, truthiness of stored values, the numeric
    coercion of `value || 0`, property keys of `undefined`, and the
    decimal text of an integer produced by a template literal. */
module JsValues {

  datatype Option<+T> = None | Some(value: T)

  /** A value stored under a requirement key in a step's progress object:
      a boolean written by toggling, or a number written by the count
      operations. */
  datatype Cell = Flag(b: bool) | Count(n: int)

  /** Truthiness of a stored value; an absent key reads as `undefined`. */
  predicate Truthy(c: Option<Cell>)
  {
    match c
    case None => false
    case Some(Flag(b)) => b
    case Some(Count(n)) => n != 0
  }

  /** The number that `value || 0` yields when it is then compared with or
      added to a number: `undefined`, `false` and `0` give 0, `true` gives 1. */
  function CountOf(c: Option<Cell>): (n: int)
    ensures Truthy(c) <==> n != 0
  {
    match c
    case None => 0
    case Some(Flag(b)) => if b then 1 else 0
    case Some(Count(n)) => n
  }

  /** Truthiness of an optional string field: missing and `''` are falsy. */
  predicate Present(s: Option<string>)
  {
    s.Some? && s.value != ""
  }

  /** `field || ''`. */
  function OrEmpty(s: Option<string>): (r: string)
    ensures Present(s) ==> r == s.value
    ensures !Present(s) ==> r == ""
  {
    if Present(s) then s.value else ""
  }

  /** The property key that `obj[field]` uses: a missing field is `undefined`,
      which becomes the key "undefined". */
  function PropertyKey(s: Option<string>): string
  {
    match s
    case Some(k) => k
    case None => "undefined"
  }

  predicate IsDigit(c: char)
  {
    '0' <= c <= '9'
  }

  function DigitChar(d: int): (c: char)
    requires 0 <= d < 10
    ensures IsDigit(c)
  {
    (('0' as int) + d) as char
  }

  function DigitValue(c: char): (d: int)
    requires IsDigit(c)
    ensures 0 <= d < 10
  {
    (c as int) - ('0' as int)
  }

  /** Decimal text of a natural number, most significant digit first, no
      leading zeros. */
  function NatToDecimal(n: nat): (s: string)
    ensures |s| > 0
    ensures forall i :: 0 <= i < |s| ==> IsDigit(s[i])
    ensures NoLeadingZero(s)
    decreases n
  {
    if n < 10 then [DigitChar(n)] else NatToDecimal(n / 10) + [DigitChar(n % 10)]
  }

  /** Text of an integer in a template literal (`${n}`); reading it back
      gives the integer. */
  function IntToDecimal(n: int): (s: string)
    ensures ReadsAs(s, n)
    ensures n >= 0 <==> IsDigit(s[0])
    ensures Canonical(s)
  {
    if n < 0 then
      var d := NatToDecimal(-n);
      ParseNegated(d);
      NatToDecimalRoundTrip(-n);
      "-" + d
    else
      var d := NatToDecimal(n);
      ParseUnsigned(d);
      NatToDecimalRoundTrip(n);
      d
  }

  /** A digit string has no superfluous leading zero: "0" alone is allowed. */
  predicate NoLeadingZero(s: string)
  {
    |s| > 1 ==> s[0] != '0'
  }

  /** The shortest text of an integer: a `-` only before a non-zero
      magnitude, and no leading zero in the magnitude. */
  predicate Canonical(s: string)
  {
    IsDecimalText(s)
    && (s[0] == '-' ==> |s| > 1 && s[1] != '0')
    && (s[0] != '-' ==> NoLeadingZero(s))
  }

  /** Value of a string of decimal digits. */
  function DigitsValue(s: string): nat
    requires forall i :: 0 <= i < |s| ==> IsDigit(s[i])
  {
    if s == [] then 0 else DigitsValue(s[..|s| - 1]) * 10 + DigitValue(s[|s| - 1])
  }

  /** Digits, optionally after a leading minus sign. */
  predicate IsDecimalText(s: string)
  {
    |s| > 0 && (s[0] == '-' || IsDigit(s[0])) && forall i :: 1 <= i < |s| ==> IsDigit(s[i])
  }

  /** Reads back the text that IntToDecimal writes. */
  function ParseDecimal(s: string): int
    requires IsDecimalText(s)
  {
    if s[0] == '-' then -(DigitsValue(s[1..]) as int) else DigitsValue(s)
  }

  /** s is decimal text that reads back as n. */
  predicate ReadsAs(s: string, n: int)
  {
    IsDecimalText(s) && ParseDecimal(s) == n
  }

  lemma {:induction false} NatToDecimalRoundTrip(n: nat)
    ensures DigitsValue(NatToDecimal(n)) == n
    decreases n
  {
    var s := NatToDecimal(n);
    if n < 10 {
      assert s[..|s| - 1] == [];
    } else {
      NatToDecimalRoundTrip(n / 10);
      assert s[..|s| - 1] == NatToDecimal(n / 10);
      assert DigitValue(s[|s| - 1]) == n % 10;
    }
  }

  /** A minus sign before digits reads as the negated digit value. */
  lemma ParseNegated(d: string)
    requires |d| > 0 && forall i :: 0 <= i < |d| ==> IsDigit(d[i])
    ensures ReadsAs("-" + d, -(DigitsValue(d) as int))
  {
    var s := "-" + d;
    assert s[1..] == d;
    assert forall i :: 1 <= i < |s| ==> s[i] == d[i - 1];
  }

  /** Digits alone read as their value. */
  lemma ParseUnsigned(d: string)
    requires |d| > 0 && forall i :: 0 <= i < |d| ==> IsDigit(d[i])
    ensures ReadsAs(d, DigitsValue(d))
  {
    assert IsDigit(d[0]);
  }

  /** A digit string starting with a non-zero digit has a positive value. */
  lemma {:induction false} LeadingDigitPositive(d: string)
    requires |d| > 0 && forall i :: 0 <= i < |d| ==> IsDigit(d[i])
    requires d[0] != '0'
    ensures DigitsValue(d) > 0
    decreases |d|
  {
    if |d| > 1 {
      LeadingDigitPositive(d[..|d| - 1]);
    }
  }

  /** The only digit string without a leading zero that reads as m is the
      one NatToDecimal writes. */
  lemma {:induction false} NatToDecimalUnique(d: string, m: nat)
    requires |d| > 0 && forall i :: 0 <= i < |d| ==> IsDigit(d[i])
    requires NoLeadingZero(d) && DigitsValue(d) == m
    ensures d == NatToDecimal(m)
    decreases |d|
  {
    if |d| > 1 {
      var init := d[..|d| - 1];
      LeadingDigitPositive(init);
      NatToDecimalUnique(init, m / 10);
      assert d == init + [d[|d| - 1]];
      assert DigitChar(m % 10) == d[|d| - 1];
    } else {
      assert DigitChar(m) == d[0];
    }
  }

  /** `${n}` is the one canonical text that reads as n. */
  lemma CanonicalUnique(s: string, n: int)
    requires Canonical(s) && ReadsAs(s, n)
    ensures s == IntToDecimal(n)
  {
    if s[0] == '-' {
      var d := s[1..];
      LeadingDigitPositive(d);
      NatToDecimalUnique(d, -n);
      assert s == "-" + d;
    } else {
      NatToDecimalUnique(s, n);
    }
  }

  /** Two different quantities never share a decimal text. */
  lemma IntToDecimalInjective(m: int, n: int)
    ensures IntToDecimal(m) == IntToDecimal(n) ==> m == n
  {
    if IntToDecimal(m) == IntToDecimal(n) {
      assert ReadsAs(IntToDecimal(m), m) && ReadsAs(IntToDecimal(n), n);
    }
  }
}
