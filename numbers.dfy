/**
 * Python's `int(text)` and `float(text)` on the decimal texts that occur in a
 * cty.dat file. `float` yields a `real`: binary floating point is not modelled.
 */
module Numbers {
  import opened Wrappers
  import opened Ascii

  function DigitValue(c: char): nat
    requires IsDigit(c)
  {
    c as int - '0' as int
  }

  function DigitChar(d: nat): (c: char)
    requires d < 10
    ensures IsDigit(c) && DigitValue(c) == d
  {
    ('0' as int + d) as char
  }

  /** The value of a run of decimal digits, most significant first. */
  function DigitsValue(s: string): nat
    requires AllDigits(s)
  {
    if s == [] then 0 else DigitsValue(s[..|s| - 1]) * 10 + DigitValue(s[|s| - 1])
  }

  function Pow10(n: nat): (r: nat)
    ensures r >= 1
  {
    if n == 0 then 1 else 10 * Pow10(n - 1)
  }

  /** The length of an optional leading `+` or `-`. */
  function SignLength(s: string): (n: nat)
    ensures n <= |s|
  {
    if |s| > 0 && (s[0] == '+' || s[0] == '-') then 1 else 0
  }

  function Signed(s: string, x: real): real
  {
    if |s| > 0 && s[0] == '-' then -x else x
  }

  /** `int(s)` for an already stripped `s`: an optional sign and one or more digits. */
  function ParseInt(s: string): (r: Option<int>)
    ensures r.Some? <==> SignLength(s) < |s| && AllDigits(s[SignLength(s)..])
  {
    var body := s[SignLength(s)..];
    if body == [] || !AllDigits(body) then None
    else
      var n: int := DigitsValue(body);
      Some(if s[0] == '-' then -n else n)
  }

  /** Decimal digits of `n`, without leading zeros. */
  function ShowNat(n: nat): (s: string)
    ensures s != [] && AllDigits(s)
  {
    if n < 10 then [DigitChar(n)] else ShowNat(n / 10) + [DigitChar(n % 10)]
  }

  function ShowInt(i: int): string
  {
    if i < 0 then "-" + ShowNat(-i) else ShowNat(i)
  }

  lemma {:induction false} DigitsValueShowNat(n: nat)
    ensures DigitsValue(ShowNat(n)) == n
  {
    if n >= 10 {
      var s := ShowNat(n);
      assert s[..|s| - 1] == ShowNat(n / 10);
      DigitsValueShowNat(n / 10);
    }
  }

  /** `int` inverts the decimal rendering of every integer. */
  lemma ParseIntShowInt(i: int)
    ensures ParseInt(ShowInt(i)) == Some(i)
  {
    var s := ShowInt(i);
    if i < 0 {
      assert s[1..] == ShowNat(-i);
      DigitsValueShowNat(-i);
    } else {
      DigitsValueShowNat(i);
    }
  }

  /**
   * `float(s)` for an already stripped `s`: an optional sign, then digits with an
   * optional fraction (`12`, `12.`, `12.5`) or a bare fraction (`.5`).
   */
  function ParseFloat(s: string): (r: Option<real>)
    ensures r.Some? <==> DecimalText(s[SignLength(s)..])
    ensures r.Some? && SignLength(s) == 0 ==> r.value >= 0.0
  {
    match UnsignedDecimal(s[SignLength(s)..])
    case None => None
    case Some(x) => Some(Signed(s, x))
  }

  /** Digits with at most one `.` among them, and at least one digit. */
  predicate DecimalText(t: string)
  {
    && (forall i :: 0 <= i < |t| ==> IsDigit(t[i]) || t[i] == '.')
    && (forall i, j :: 0 <= i < j < |t| && t[i] == '.' ==> t[j] != '.')
    && (exists i :: 0 <= i < |t| && IsDigit(t[i]))
  }

  /** The value of an unsigned decimal text `12`, `12.`, `12.5` or `.5`. */
  function UnsignedDecimal(s: string): (r: Option<real>)
    ensures r.Some? <==> DecimalText(s)
    ensures r.Some? ==> r.value >= 0.0
  {
    var k := SpanEnd(s, 0, Digit);
    assert AllDigits(s[..k]);
    if k == |s| then
      if k > 0 then Some(DigitsValue(s) as real) else None
    else if s[k] != '.' then None
    else
      var m := SpanEnd(s, k + 1, Digit);
      assert AllDigits(s[k + 1..m]);
      if m < |s| || (k == 0 && m == k + 1) then None
      else Some(DigitsValue(s[..k]) as real + DigitsValue(s[k + 1..m]) as real / Pow10(m - k - 1) as real)
  }

  /** On integer texts `float` and `int` agree. */
  lemma ParseFloatOfInt(s: string)
    requires ParseInt(s).Some?
    ensures ParseFloat(s) == Some(ParseInt(s).value as real)
  {
    var body := s[SignLength(s)..];
    assert forall k :: 0 <= k < |body| ==> IsDigit(body[k]);
    SpanEndIs(body, 0, |body|, Digit);
  }

  /** Putting `-` in front of an unsigned number text negates its value. */
  lemma ParseFloatNegate(s: string)
    requires SignLength(s) == 0 && ParseFloat(s).Some?
    ensures ParseFloat("-" + s) == Some(-ParseFloat(s).value)
  {
    assert ("-" + s)[SignLength("-" + s)..] == s;
  }
}
