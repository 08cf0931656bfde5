/** Rust's `FromStr` for the integer types the launcher parses: `i32` for the
    exit status and `u16` for the port. Parsing is strict: an optional sign,
    then one or more ASCII digits, nothing else, and the value in range. */
module IntParse {
  import opened Options

  const MinI32: int := -0x8000_0000
  const MaxI32: int := 0x7fff_ffff
  const MaxU16: int := 0xffff

  predicate IsDigit(c: char) {
    '0' <= c <= '9'
  }

  predicate AllDigits(s: string) {
    forall i :: 0 <= i < |s| ==> IsDigit(s[i])
  }

  function DigitValue(c: char): (d: nat)
    requires IsDigit(c)
    ensures d < 10
  {
    (c as int) - ('0' as int)
  }

  function DigitChar(d: nat): (c: char)
    requires d < 10
    ensures IsDigit(c) && DigitValue(c) == d
  {
    ('0' as int + d) as char
  }

  /** The value of a digit string read most-significant first. */
  function DigitsValue(s: string): nat
    requires AllDigits(s)
  {
    if s == [] then 0 else DigitsValue(s[..|s| - 1]) * 10 + DigitValue(s[|s| - 1])
  }

  /** `<T as FromStr>::from_str` for a type with range lo..=hi. A lone sign is
      rejected; '+' is always accepted; '-' only when the type is signed,
      otherwise it is an invalid digit. */
  function ParseInteger(s: string, signed: bool, lo: int, hi: int): (r: Option<int>)
    ensures r.Some? ==> lo <= r.value <= hi
    ensures r.Some? ==> |s| > 0 && AllDigits(if s[0] == '+' || s[0] == '-' then s[1..] else s)
    ensures r.Some? && !signed ==> s[0] != '-'
    ensures r.Some? ==>
      var d := if s[0] == '+' || s[0] == '-' then s[1..] else s;
      AllDigits(d) && r.value == (if s[0] == '-' then -(DigitsValue(d) as int) else DigitsValue(d))
  {
    if |s| == 0 then None
    else if |s| == 1 && (s[0] == '+' || s[0] == '-') then None
    else
      var negative := signed && s[0] == '-';
      var digits := if s[0] == '+' || negative then s[1..] else s;
      if !AllDigits(digits) then None
      else
        var mag: int := DigitsValue(digits);
        var v := if negative then -mag else mag;
        if lo <= v <= hi then Some(v) else None
  }

  /** `str::parse::<i32>`. */
  function ParseI32(s: string): (r: Option<int>)
    ensures r.Some? ==> MinI32 <= r.value <= MaxI32
  {
    ParseInteger(s, true, MinI32, MaxI32)
  }

  /** `str::parse::<u16>`. */
  function ParseU16(s: string): (r: Option<int>)
    ensures r.Some? ==> 0 <= r.value <= MaxU16
  {
    ParseInteger(s, false, 0, MaxU16)
  }

  /** Decimal digits of a natural number, no leading zeros. */
  function Digits(n: nat): (s: string)
    ensures |s| > 0 && AllDigits(s)
  {
    if n < 10 then [DigitChar(n)] else Digits(n / 10) + [DigitChar(n % 10)]
  }

  /** The decimal rendering of an integer (`to_string`): '-' for negatives. */
  function Render(n: int): string {
    if n < 0 then "-" + Digits(-n) else Digits(n)
  }

  lemma {:induction false} DigitsValueOfDigits(n: nat)
    ensures DigitsValue(Digits(n)) == n
  {
    if n >= 10 {
      var s := Digits(n);
      DigitsValueOfDigits(n / 10);
      assert s[..|s| - 1] == Digits(n / 10);
    }
  }

  /** A plain digit string parses to its value when that is in range. */
  lemma ParsePlainDigits(d: string, signed: bool, lo: int, hi: int)
    requires |d| > 0 && AllDigits(d)
    ensures ParseInteger(d, signed, lo, hi) == (if lo <= DigitsValue(d) <= hi then Some(DigitsValue(d)) else None)
  {
    assert IsDigit(d[0]);
  }

  /** '-' followed by digits parses to the negated value for a signed type. */
  lemma ParseNegativeDigits(d: string, lo: int, hi: int)
    requires |d| > 0 && AllDigits(d)
    ensures var v := -(DigitsValue(d) as int);
      ParseInteger("-" + d, true, lo, hi) == (if lo <= v <= hi then Some(v) else None)
  {
    var s := "-" + d;
    assert s[0] == '-' && |s| > 1 && s[1..] == d;
  }

  /** A rendered integer parses, as a signed type with range lo..=hi, to
      itself exactly when it is in range. */
  lemma ParseRendered(n: int, lo: int, hi: int)
    ensures ParseInteger(Render(n), true, lo, hi) == (if lo <= n <= hi then Some(n) else None)
  {
    if n < 0 {
      var d := Digits(-n);
      assert Render(n) == "-" + d;
      assert DigitsValue(d) == -n by {
        DigitsValueOfDigits(-n);
      }
      ParseNegativeDigits(d, lo, hi);
    } else {
      var d := Digits(n);
      assert Render(n) == d;
      assert DigitsValue(d) == n by {
        DigitsValueOfDigits(n);
      }
      ParsePlainDigits(d, true, lo, hi);
    }
  }

  /** Every `i32` rendered in decimal parses back to itself. */
  lemma I32RoundTrip(n: int)
    requires MinI32 <= n <= MaxI32
    ensures ParseI32(Render(n)) == Some(n)
  {
    ParseRendered(n, MinI32, MaxI32);
  }

  /** Every port number rendered in decimal parses back to itself. */
  lemma U16RoundTrip(n: int)
    requires 0 <= n <= MaxU16
    ensures ParseU16(Render(n)) == Some(n)
  {
    DigitsValueOfDigits(n);
    ParsePlainDigits(Digits(n), false, 0, MaxU16);
  }

  /** No trimming: a trailing character that is not a digit, such as the
      newline of "0\n", makes the text unparsable. */
  lemma TrailingNonDigitRejected(s: string, c: char, signed: bool, lo: int, hi: int)
    requires !IsDigit(c)
    ensures ParseInteger(s + [c], signed, lo, hi) == None
  {
    var t := s + [c];
    assert t[|t| - 1] == c;
  }

  /** No trimming: a leading character that is neither a digit nor a sign,
      such as a space, makes the text unparsable. */
  lemma LeadingNonDigitRejected(c: char, s: string, signed: bool, lo: int, hi: int)
    requires !IsDigit(c) && c != '+' && c != '-'
    ensures ParseInteger([c] + s, signed, lo, hi) == None
  {
    var t := [c] + s;
    assert t[0] == c;
  }

  /** Out-of-range values are rejected rather than wrapped. */
  lemma I32OverflowRejected(n: int)
    requires n < MinI32 || MaxI32 < n
    ensures ParseI32(Render(n)) == None
  {
    ParseRendered(n, MinI32, MaxI32);
  }
}
