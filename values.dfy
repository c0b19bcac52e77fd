/** PHP scalar values as the markup system sees them: the values an attribute
    array may hold, PHP's truthiness test and its string conversion. */
module PhpValues {

  datatype Option<+T> = None | Some(value: T)

  /** A value stored in a PHP attribute array or returned by a filter. */
  datatype Val = Null | Bool(b: bool) | Str(s: string)

  /** `(bool) $s` for a PHP string: only "" and "0" are falsy. */
  predicate TruthyString(s: string)
  {
    s != "" && s != "0"
  }

  /** `(bool) $v`, which is what `! $tag` and `empty()` test. */
  predicate Truthy(v: Val)
  {
    match v
    case Null => false
    case Bool(b) => b
    case Str(s) => TruthyString(s)
  }

  /** PHP's string conversion, as applied by the `.` and `.=` operators. */
  function ToStr(v: Val): string
  {
    match v
    case Null => ""
    case Bool(b) => if b then "1" else ""
    case Str(s) => s
  }

  predicate IsDigit(c: char)
  {
    '0' <= c <= '9'
  }

  function Digit(d: nat): (c: char)
    requires d < 10
    ensures IsDigit(c)
    ensures c as int - '0' as int == d
  {
    ('0' as int + d) as char
  }

  /** The number a string of decimal digits denotes, most significant
      digit first. */
  function DigitsValue(s: string): nat
  {
    if s == [] then 0
    else
      var n := |s| - 1;
      DigitsValue(s[..n]) * 10 + (if IsDigit(s[n]) then s[n] as int - '0' as int else 0)
  }

  /** The decimal text PHP interpolates for a non-negative integer. */
  function Decimal(n: nat): (r: string)
    ensures |r| >= 1
    ensures forall i :: 0 <= i < |r| ==> IsDigit(r[i])
    ensures DigitsValue(r) == n
    ensures |r| == 1 <==> n < 10
    ensures r[0] == '0' ==> n == 0
    decreases n
  {
    if n < 10 then [Digit(n)]
    else
      var prefix := Decimal(n / 10);
      assert (prefix + [Digit(n % 10)])[..|prefix|] == prefix;
      prefix + [Digit(n % 10)]
  }

  /** Distinct numbers print differently. */
  lemma DecimalInjective(m: nat, n: nat)
    requires Decimal(m) == Decimal(n)
    ensures m == n
  {
    assert DigitsValue(Decimal(m)) == m;
  }
}
