/** Decimal text of the year and month fields: Convert.ToInt16 on the way in,
    the default integer formatting on the way out. */
module Int16Text {
  import opened Wrappers

  datatype NumberError =
    | Malformed  // FormatException: not an optional sign followed by digits
    | Overflow   // OverflowException: outside the range of a 16-bit integer

  const MinInt16: int := -32768
  const MaxInt16: int := 32767

  predicate IsDigit(c: char) {
    '0' <= c <= '9'
  }

  predicate AllDigits(s: string) {
    forall i :: 0 <= i < |s| ==> IsDigit(s[i])
  }

  /** Value of a string of decimal digits, most significant first. */
  function DigitsValue(s: string): nat
    requires AllDigits(s)
  {
    if s == [] then 0 else 10 * DigitsValue(s[..|s| - 1]) + (s[|s| - 1] as int - '0' as int)
  }

  /** An optional '+' or '-' sign followed by at least one decimal digit. */
  predicate IsNumeral(token: string) {
    || (token != [] && AllDigits(token))
    || (|token| >= 2 && (token[0] == '-' || token[0] == '+') && AllDigits(token[1..]))
  }

  /** Convert.ToInt16: an optional '+' or '-' sign followed by at least one digit,
      whose value fits in 16 bits. */
  function ParseInt16(token: string): (r: Result<int, NumberError>)
    ensures r.Ok? ==> MinInt16 <= r.value <= MaxInt16
    ensures r == Err(Malformed) <==> !IsNumeral(token)
    ensures token != [] && AllDigits(token) ==>
      r == if DigitsValue(token) <= MaxInt16 then Ok(DigitsValue(token)) else Err(Overflow)
    ensures |token| >= 2 && token[0] == '+' && AllDigits(token[1..]) ==>
      r == if DigitsValue(token[1..]) <= MaxInt16 then Ok(DigitsValue(token[1..])) else Err(Overflow)
    ensures |token| >= 2 && token[0] == '-' && AllDigits(token[1..]) ==>
      r == if MinInt16 <= 0 - DigitsValue(token[1..]) then Ok(0 - DigitsValue(token[1..])) else Err(Overflow)
  {
    var signed := |token| > 0 && (token[0] == '-' || token[0] == '+');
    var digits := if signed then token[1..] else token;
    if digits == [] || !AllDigits(digits) then Err(Malformed)
    else
      var n: int := if signed && token[0] == '-' then 0 - DigitsValue(digits) as int else DigitsValue(digits);
      if n < MinInt16 || MaxInt16 < n then Err(Overflow) else Ok(n)
  }

  /** Decimal digits of a natural number, without leading zeros. */
  function ShowNat(n: nat): (s: string)
    ensures |s| >= 1 && AllDigits(s)
    ensures DigitsValue(s) == n
    ensures s[0] == '0' ==> |s| == 1
  {
    var last := ['0' + (n % 10) as char];
    if n < 10 then last else ShowNat(n / 10) + last
  }

  /** Decimal text of an integer: a '-' sign for negative numbers, then the digits of its
      magnitude without leading zeros. */
  function ShowInt(n: int): (s: string)
    ensures |s| >= 1 && forall i :: 0 <= i < |s| ==> IsDigit(s[i]) || s[i] == '-'
    ensures s[0] == '-' <==> n < 0
    ensures var digits := if n < 0 then s[1..] else s;
      && |digits| >= 1 && AllDigits(digits)
      && DigitsValue(digits) == (if n < 0 then -n else n)
      && (digits[0] == '0' ==> |digits| == 1)
  {
    if n < 0 then
      var s := "-" + ShowNat(-n);
      assert s[1..] == ShowNat(-n);
      s
    else ShowNat(n)
  }

  /** Parsing the printed form of any 16-bit integer gives that integer back. */
  lemma Int16RoundTrip(n: int)
    requires MinInt16 <= n <= MaxInt16
    ensures ParseInt16(ShowInt(n)) == Ok(n)
  {
    var s := ShowInt(n);
    if n < 0 {
      assert s[1..] == ShowNat(-n);
    } else {
      assert s == ShowNat(n);
      assert IsDigit(s[0]);
    }
  }

  /** A token that parses is either all digits or a sign followed by digits;
      tokens with any other character are rejected. */
  lemma ParseInt16RejectsStrayCharacters(token: string, k: nat)
    requires k < |token| && !IsDigit(token[k]) && (k == 0 ==> token[0] != '-' && token[0] != '+')
    ensures ParseInt16(token) == Err(Malformed)
  {
    if token[0] == '-' || token[0] == '+' {
      assert token[1..][k - 1] == token[k];
    }
  }
}
