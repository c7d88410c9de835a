/** The numeric reading of field values. The exporter reads every number with
    `strconv.ParseFloat` and discards the error, so a value that does not
    parse reads as 0. The model reads unsigned decimal digit strings as
    naturals; `ToDecimal` renders a natural back into that syntax. */
module Numbers {
  import opened Wrappers

  predicate IsDigit(c: char) {
    '0' <= c <= '9'
  }

  /** A non-empty string of decimal digits. */
  predicate IsDecimal(s: string) {
    |s| > 0 && forall i :: 0 <= i < |s| ==> IsDigit(s[i])
  }

  function DigitValue(c: char): (d: nat)
    requires IsDigit(c)
    ensures d < 10
  {
    c as int - '0' as int
  }

  function DigitChar(d: nat): (c: char)
    requires d < 10
    ensures IsDigit(c) && DigitValue(c) == d
  {
    ('0' as int + d) as char
  }

  /** The value of a digit string, most significant digit first. */
  function DecimalValue(s: string): nat
    requires forall i :: 0 <= i < |s| ==> IsDigit(s[i])
  {
    if |s| == 0 then 0 else 10 * DecimalValue(s[..|s| - 1]) + DigitValue(s[|s| - 1])
  }

  /** The number a field value denotes, None when it is not a decimal numeral. */
  function ParseNum(s: string): (r: Option<nat>)
    ensures r.Some? <==> IsDecimal(s)
  {
    if IsDecimal(s) then Some(DecimalValue(s)) else None
  }

  /** What the exporter stores for a field value: its number, or 0 when
      parsing fails (the discarded `ParseFloat` error). */
  function NumOrZero(s: string): nat {
    ParseNum(s).GetOr(0)
  }

  /** The shortest decimal numeral of `n`. */
  function ToDecimal(n: nat): (s: string)
    ensures IsDecimal(s)
    ensures s[0] == '0' ==> n == 0
  {
    if n < 10 then [DigitChar(n)]
    else
      var s := ToDecimal(n / 10) + [DigitChar(n % 10)];
      assert s[0] == ToDecimal(n / 10)[0];
      s
  }

  /** Parsing a rendered numeral gives the number back. */
  lemma {:induction false} ParseToDecimal(n: nat)
    ensures ParseNum(ToDecimal(n)) == Some(n)
    ensures NumOrZero(ToDecimal(n)) == n
  {
    var s := ToDecimal(n);
    if n < 10 {
      assert s[..0] == "";
    } else {
      ParseToDecimal(n / 10);
      assert s[..|s| - 1] == ToDecimal(n / 10);
      assert DecimalValue(s) == 10 * (n / 10) + n % 10;
    }
  }
}
