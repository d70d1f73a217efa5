/** Decimal number syntax as Go's strconv.ParseFloat and strconv.Atoi accept it, with the
    parsed value kept exact (a real, an unbounded int). */
module Numbers {
  import opened Wrappers
  import opened GoStrings

  predicate IsDigit(c: char) {
    '0' <= c <= '9'
  }

  predicate AllDigits(s: string) {
    forall k | 0 <= k < |s| :: IsDigit(s[k])
  }

  /** Length of the longest prefix of `s` made of decimal digits. */
  function DigitRun(s: string): (n: nat)
    ensures n <= |s| && AllDigits(s[..n]) && (n == |s| || !IsDigit(s[n]))
  {
    if |s| > 0 && IsDigit(s[0]) then
      var n := 1 + DigitRun(s[1..]);
      assert forall k | 1 <= k < n :: s[..n][k] == s[1..][..n - 1][k - 1];
      n
    else 0
  }

  function DigitsValue(d: string): nat
    requires AllDigits(d)
  {
    if d == [] then 0 else 10 * DigitsValue(d[..|d| - 1]) + (d[|d| - 1] as int - '0' as int)
  }

  function Pow10(k: nat): (p: nat)
    ensures p >= 1
  {
    if k == 0 then 1 else 10 * Pow10(k - 1)
  }

  /** m * 10^e, exactly. */
  function Scale(m: nat, e: int): real
  {
    if e >= 0 then (m * Pow10(e)) as real else m as real / Pow10(-e) as real
  }

  /** An optional sign: whether it is '-', and the text after it. */
  function SplitSign(s: string): (bool, string)
  {
    if |s| > 0 && (s[0] == '+' || s[0] == '-') then (s[0] == '-', s[1..]) else (false, s)
  }

  /** The exponent part of a decimal float: empty, or `e`/`E`, an optional sign, digits. */
  function ParseExponent(rest: string): Option<int>
  {
    if rest == "" then Some(0)
    else if rest[0] != 'e' && rest[0] != 'E' then None
    else
      var (neg, w) := SplitSign(rest[1..]);
      if |w| > 0 && AllDigits(w) then Some(if neg then 0 - DigitsValue(w) as int else DigitsValue(w))
      else None
  }

  /** Whether strconv.Quote escapes a character: the quote, the backslash and the ASCII
      control characters. */
  predicate Escaped(c: char)
  {
    c == '"' || c == '\\' || (c as int) < 32 || c as int == 127
  }

  /** The escape strconv.Quote writes for one character: the named escapes for the
      quote, the backslash and the seven C control characters (\a \b \f \n \r \t \v),
      `\x` and two lowercase hex digits for the other ASCII control characters, and the
      character itself otherwise. */
  function QuoteChar(c: char): (r: string)
    ensures r == [c] <==> !Escaped(c)
    ensures Escaped(c) ==> |r| >= 2 && r[0] == '\\'
  {
    var n := c as int;
    if c == '"' then "\\\""
    else if c == '\\' then "\\\\"
    else if n == 7 then "\\a"
    else if n == 8 then "\\b"
    else if n == 12 then "\\f"
    else if c == '\n' then "\\n"
    else if c == '\r' then "\\r"
    else if c == '\t' then "\\t"
    else if n == 11 then "\\v"
    else if n < 32 || n == 127 then "\\x" + [HexDigit(n / 16), HexDigit(n % 16)]
    else [c]
  }

  function HexDigit(d: int): char
    requires 0 <= d < 16
  {
    "0123456789abcdef"[d]
  }

  function QuoteBody(s: string): string
  {
    if s == [] then "" else QuoteChar(s[0]) + QuoteBody(s[1..])
  }

  /** strconv.Quote: the text between double quotes, each character escaped. */
  function Quote(s: string): (r: string)
    ensures |r| >= 2 && r[0] == '"' && r[|r| - 1] == '"'
  {
    "\"" + QuoteBody(s) + "\""
  }

  /** A text without quotes, backslashes or ASCII control characters is quoted as it is. */
  lemma QuotePlain(s: string)
    requires forall k | 0 <= k < |s| :: !Escaped(s[k])
    ensures Quote(s) == "\"" + s + "\""
  {
    QuoteBodyPlain(s);
  }

  lemma {:induction false} QuoteBodyPlain(s: string)
    requires forall k | 0 <= k < |s| :: !Escaped(s[k])
    ensures QuoteBody(s) == s
    decreases |s|
  {
    if s != [] {
      assert QuoteChar(s[0]) == [s[0]];
      QuoteBodyPlain(s[1..]);
    }
  }

  function FloatSyntaxError(s: string): Fault {
    Err("strconv.ParseFloat: parsing " + Quote(s) + ": invalid syntax")
  }

  /** The mantissa of a decimal float read left to right: `m` is the value of the
      digits so far, `digits` their number, `dot` whether the point was seen and
      `frac` the number of digits after it. At the first character that is neither a
      digit nor the first point, the rest must be an exponent. */
  function Mantissa(t: string, m: nat, digits: nat, dot: bool, frac: nat): (r: Option<real>)
    ensures r.Some? && digits == 0 && !dot ==> t != "" && (IsDigit(t[0]) || t[0] == '.')
    decreases |t|
  {
    if t != "" && IsDigit(t[0]) then
      Mantissa(t[1..], 10 * m + (t[0] as int - '0' as int), digits + 1, dot, if dot then frac + 1 else frac)
    else if t != "" && t[0] == '.' && !dot then
      Mantissa(t[1..], m, digits, true, frac)
    else if digits == 0 then None
    else
      match ParseExponent(t)
      case None => None
      case Some(e) => Some(Scale(m, e - frac))
  }

  /** The value of a decimal float: a sign, digits with an optional fraction (at least
      one digit in all), an optional exponent, nothing else. */
  function DecimalValue(s: string): (r: Option<real>)
    ensures r.Some? ==> s != "" && !IsSpace(s[0])
  {
    var (neg, t) := SplitSign(s);
    match Mantissa(t, 0, 0, false, 0)
    case None => None
    case Some(v) => Some(if neg then -v else v)
  }

  /** 2^1024 - 2^970, half a unit in the last place above the largest float64: a
      decimal of this magnitude or more rounds to an infinity. */
  const Float64Overflow: real :=
    179769313486231580793728971405303415079934132710037826936173778980444968292764750946649017977587207096330286416692887910946555547851940402630657488671505820681908902000708383676273854845817711531764475730270069855571366959622842914819860834936475292719074168444365510704342711559699508093042880177904174497792.0

  function FloatRangeError(s: string): Fault {
    Err("strconv.ParseFloat: parsing " + Quote(s) + ": value out of range")
  }

  /** strconv.ParseFloat(s, 64) on decimal syntax: text that is not a decimal is a
      syntax error, a decimal that rounds to an infinity is a range error, any other
      decimal is its exact value. */
  function ParseFloat(s: string): (r: Result<real>)
    ensures r.Success? <==> DecimalValue(s).Some? && -Float64Overflow < DecimalValue(s).value < Float64Overflow
    ensures r.Success? ==> r.value == DecimalValue(s).value && s != "" && !IsSpace(s[0])
    ensures r.Failure? ==> r.error == if DecimalValue(s).None? then FloatSyntaxError(s) else FloatRangeError(s)
  {
    match DecimalValue(s)
    case None => Failure(FloatSyntaxError(s))
    case Some(v) =>
      if v <= -Float64Overflow || Float64Overflow <= v then Failure(FloatRangeError(s)) else Success(v)
  }

  const MinInt64: int := -0x8000_0000_0000_0000
  const MaxInt64: int := 0x7fff_ffff_ffff_ffff

  /** strconv.Atoi on a 64-bit platform: an optional sign and one or more digits,
      in the int64 range. */
  function Atoi(s: string): (r: Result<int>)
    ensures r.Success? ==> MinInt64 <= r.value <= MaxInt64
    ensures r.Failure? ==> r.error.Err?
  {
    var (neg, w) := SplitSign(s);
    if |w| == 0 || !AllDigits(w) then
      Failure(Err("strconv.Atoi: parsing " + Quote(s) + ": invalid syntax"))
    else
      var v: int := if neg then 0 - DigitsValue(w) as int else DigitsValue(w);
      if v < MinInt64 || v > MaxInt64 then
        Failure(Err("strconv.Atoi: parsing " + Quote(s) + ": value out of range"))
      else Success(v)
  }

  lemma {:induction false} NatToStringDigits(n: nat)
    ensures AllDigits(NatToString(n)) && DigitsValue(NatToString(n)) == n
    decreases n
  {
    var s := NatToString(n);
    if n >= 10 {
      NatToStringDigits(n / 10);
      assert s[..|s| - 1] == NatToString(n / 10);
    }
  }

  /** Atoi reads back what strconv.FormatInt writes, over the whole int64 range. */
  lemma {:induction false} AtoiFormatInt(n: int)
    requires MinInt64 <= n <= MaxInt64
    ensures Atoi(IntToString(n)) == Success(n)
  {
    var m: nat := if n < 0 then -n else n;
    NatToStringDigits(m);
    var d := NatToString(m);
    assert d[0] != '+' && d[0] != '-' by { assert IsDigit(d[0]); }
    if n < 0 {
      assert ("-" + d)[1..] == d;
    }
  }
}
