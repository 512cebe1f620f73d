/** Go's `strconv.Atoi` on a 64-bit platform: an optional `+` or `-` followed
    by one or more decimal digits, whose value must fit in an int64. Any
    other input is an error, represented here by `None`. */
module Strconv {
  import opened Wrappers
  import opened Ints

  predicate IsDigit(c: char)
  {
    '0' <= c <= '9'
  }

  predicate AllDigits(s: string)
  {
    forall i :: 0 <= i < |s| ==> IsDigit(s[i])
  }

  function DigitValue(c: char): nat
    requires IsDigit(c)
  {
    c as int - '0' as int
  }

  // ---------------------------------------------------------------------
  // Reference grammar and value of a decimal integer literal.
  // ---------------------------------------------------------------------

  /** The value of a string of digits, most significant first. */
  ghost function DigitsValue(s: string): nat
    requires AllDigits(s)
    decreases |s|
  {
    if |s| == 0 then 0 else DigitsValue(s[..|s| - 1]) * 10 + DigitValue(s[|s| - 1])
  }

  /** The text after an optional leading sign. */
  ghost function Magnitude(s: string): string
  {
    if |s| > 0 && (s[0] == '+' || s[0] == '-') then s[1..] else s
  }

  /** An optional sign followed by at least one decimal digit, nothing else. */
  ghost predicate IsDecimal(s: string)
  {
    |Magnitude(s)| > 0 && AllDigits(Magnitude(s))
  }

  ghost function DecimalValue(s: string): int
    requires IsDecimal(s)
  {
    if s[0] == '-' then -(DigitsValue(s[1..]) as int) else DigitsValue(Magnitude(s))
  }

  // ---------------------------------------------------------------------
  // The conversion itself.
  // ---------------------------------------------------------------------

  /** Scans `s[i..]` digit by digit, extending the value `acc` of `s[..i]`,
      and gives up as soon as the value passes `limit` (a range error) or a
      non-digit turns up (a syntax error). */
  function ScanDigits(s: string, i: nat, acc: nat, limit: nat): (r: Option<nat>)
    requires i <= |s| && AllDigits(s[..i]) && acc == DigitsValue(s[..i]) && acc <= limit
    ensures r.Some? <==> AllDigits(s) && DigitsValue(s) <= limit
    ensures r.Some? ==> AllDigits(s) && r.value == DigitsValue(s)
    decreases |s| - i
  {
    if i == |s| then
      assert s[..i] == s;
      Some(acc)
    else if !IsDigit(s[i]) then
      None
    else
      var next := acc * 10 + DigitValue(s[i]);
      assert s[..i + 1][..i] == s[..i];
      assert DigitsValue(s[..i + 1]) == next;
      if next > limit then
        if AllDigits(s) then DigitsValuePrefix(s, i + 1); None else None
      else
        ScanDigits(s, i + 1, next, limit)
  }

  /** Go's `strconv.Atoi`: the value of an optionally signed decimal literal
      that fits in an int64; `None` for everything else. */
  function Atoi(s: string): (r: Option<int>)
    ensures r.Some? <==> IsDecimal(s) && InInt64(DecimalValue(s))
    ensures r.Some? ==> IsDecimal(s) && r.value == DecimalValue(s)
  {
    if |s| == 0 then None
    else
      var neg := s[0] == '-';
      var digits := if s[0] == '+' || s[0] == '-' then s[1..] else s;
      assert digits == Magnitude(s);
      if |digits| == 0 then None
      else
        assert digits[..0] == [];
        match ScanDigits(digits, 0, 0, if neg then -MinInt64 else MaxInt64)
        case None => None
        case Some(u) => Some(if neg then -(u as int) else u)
  }

  /** A prefix of a digit string never has a larger value. */
  lemma {:induction false} DigitsValuePrefix(s: string, i: nat)
    requires AllDigits(s) && i <= |s|
    ensures AllDigits(s[..i]) && DigitsValue(s[..i]) <= DigitsValue(s)
    decreases |s|
  {
    if i < |s| {
      var init := s[..|s| - 1];
      assert init[..i] == s[..i];
      DigitsValuePrefix(init, i);
    } else {
      assert s[..i] == s;
    }
  }

  /** A character that is neither a digit nor a sign rules out a decimal
      literal, wherever it stands. */
  lemma NotDecimalWith(s: string, j: int)
    requires 0 <= j < |s| && !IsDigit(s[j]) && s[j] != '+' && s[j] != '-'
    ensures !IsDecimal(s)
  {
    var m := Magnitude(s);
    if s[0] == '+' || s[0] == '-' {
      assert m[j - 1] == s[j];
    } else {
      assert m[j] == s[j];
    }
  }

  // ---------------------------------------------------------------------
  // Decimal rendering, the inverse of the conversion.
  // ---------------------------------------------------------------------

  function DigitChar(d: nat): (c: char)
    requires d < 10
    ensures IsDigit(c) && DigitValue(c) == d
  {
    ('0' as int + d) as char
  }

  /** The shortest decimal rendering of a natural number. */
  function FormatNat(n: nat): (s: string)
    ensures |s| > 0 && AllDigits(s)
    decreases n
  {
    if n < 10 then [DigitChar(n)] else FormatNat(n / 10) + [DigitChar(n % 10)]
  }

  /** Go's `strconv.Itoa`: a `-` for negative numbers, then the digits. */
  function FormatInt(n: int): (s: string)
    ensures |s| > 0 && (s[0] == '-' || IsDigit(s[0])) && IsDigit(s[|s| - 1])
  {
    if n < 0 then "-" + FormatNat(-n) else FormatNat(n)
  }

  lemma {:induction false} FormatNatValue(n: nat)
    ensures DigitsValue(FormatNat(n)) == n
    decreases n
  {
    if n >= 10 {
      var s := FormatNat(n);
      assert s[..|s| - 1] == FormatNat(n / 10);
      FormatNatValue(n / 10);
    }
  }

  /** Rendering an integer gives a decimal literal with the same value. */
  lemma FormatIntDecimal(n: int)
    ensures IsDecimal(FormatInt(n)) && DecimalValue(FormatInt(n)) == n
  {
    var s := FormatInt(n);
    if n < 0 {
      var digits := FormatNat(-n);
      assert s == "-" + digits;
      assert s[1..] == digits;
      assert Magnitude(s) == digits;
      FormatNatValue(-n);
    } else {
      assert s[0] != '+' && s[0] != '-';
      FormatNatValue(n);
    }
  }

  /** Parsing undoes rendering on the whole int64 range. */
  lemma AtoiFormatInt(n: int)
    requires InInt64(n)
    ensures Atoi(FormatInt(n)) == Some(n)
  {
    FormatIntDecimal(n);
  }
}
