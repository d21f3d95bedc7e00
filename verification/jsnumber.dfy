/**
 * JavaScript's `Number(string)` conversion (the StringNumericLiteral grammar
 * of ECMAScript), restricted to finite results: `None` stands for NaN and
 * for +/-Infinity, which every caller in the application rejects alike.
 */
module JsNumber {
  import opened Wrappers
  import opened Text

  function Pow10(n: nat): (r: nat)
    ensures r >= 1
  {
    if n == 0 then 1 else 10 * Pow10(n - 1)
  }

  /** `m * 10^e` for any integer exponent. */
  function Scale(m: real, e: int): real {
    if e >= 0 then m * Pow10(e) as real else m / Pow10(-e) as real
  }

  // ---------------------------------------------------------------- radix literals

  function RadixDigit(c: char): (d: int)
    ensures -1 <= d < 16
  {
    if '0' <= c <= '9' then c as int - '0' as int
    else if 'a' <= c <= 'f' then c as int - 'a' as int + 10
    else if 'A' <= c <= 'F' then c as int - 'A' as int + 10
    else -1
  }

  predicate AllRadixDigits(s: string, radix: nat) {
    forall i :: 0 <= i < |s| ==> 0 <= RadixDigit(s[i]) < radix
  }

  function RadixValue(s: string, radix: nat): nat
    requires AllRadixDigits(s, radix)
    decreases |s|
  {
    if |s| == 0 then 0 else RadixValue(s[..|s| - 1], radix) * radix + RadixDigit(s[|s| - 1])
  }

  predicate IsRadixPrefix(c: char) {
    c == 'x' || c == 'X' || c == 'o' || c == 'O' || c == 'b' || c == 'B'
  }

  /** `0x…`, `0o…`, `0b…` (unsigned, at least one digit). */
  function RadixLiteral(t: string): Option<real>
    requires |t| >= 2 && IsRadixPrefix(t[1])
  {
    var radix := if t[1] == 'x' || t[1] == 'X' then 16 else if t[1] == 'o' || t[1] == 'O' then 8 else 2;
    var body := t[2..];
    if |body| > 0 && AllRadixDigits(body, radix) then Some(RadixValue(body, radix) as real) else None
  }

  // ---------------------------------------------------------------- decimal literals

  /** Index of the first exponent marker `e`/`E`, or `|s|`. */
  function IndexOfExponent(s: string): (i: nat)
    ensures i <= |s|
    ensures forall j :: 0 <= j < i ==> s[j] != 'e' && s[j] != 'E'
  {
    if |s| == 0 then 0 else if s[0] == 'e' || s[0] == 'E' then 0 else 1 + IndexOfExponent(s[1..])
  }

  /** Signed decimal exponent: `[+-]digits`. */
  function ParseExponent(s: string): Option<int> {
    if |s| > 0 && (s[0] == '+' || s[0] == '-') then
      var d := s[1..];
      if |d| > 0 && AllDigits(d) then Some(if s[0] == '-' then -(DigitsValue(d) as int) else DigitsValue(d)) else None
    else if |s| > 0 && AllDigits(s) then Some(DigitsValue(s))
    else None
  }

  /** The value of `ip.fp` for digit strings `ip` and `fp`. */
  function PointedValue(ip: string, fp: string): real
    requires AllDigits(ip) && AllDigits(fp)
  {
    DigitsValue(ip) as real + DigitsValue(fp) as real / Pow10(|fp|) as real
  }

  /** `digits`, `digits.`, `digits.digits` or `.digits`. */
  function ParseMantissa(m: string): Option<real> {
    var dot := IndexOf(m, '.');
    if dot == |m| then
      if |m| > 0 && AllDigits(m) then Some(DigitsValue(m) as real) else None
    else
      var ip := m[..dot];
      var fp := m[dot + 1..];
      if |ip| + |fp| > 0 && AllDigits(ip) && AllDigits(fp) then Some(PointedValue(ip, fp)) else None
  }

  /** An unsigned decimal literal with optional exponent. */
  function UnsignedDecimal(b: string): Option<real> {
    var e := IndexOfExponent(b);
    var mant := ParseMantissa(b[..e]);
    var expo := if e < |b| then ParseExponent(b[e + 1..]) else Some(0);
    if mant.Some? && expo.Some? then Some(Scale(mant.value, expo.value)) else None
  }

  /**
   * `Number(s)` when finite: surrounding whitespace is ignored, a blank
   * string is 0, `Infinity` (any sign) is not finite, radix literals take no
   * sign, and decimal literals take one optional sign.
   */
  function NumberOf(s: string): (r: Option<real>)
    ensures |Trim(s)| == 0 ==> r == Some(0.0)
  {
    NumberOfTrimmed(Trim(s))
  }

  /** `Number` of a string that has no surrounding whitespace. */
  function NumberOfTrimmed(t: string): Option<real> {
    if |t| == 0 then Some(0.0)
    else if t == "Infinity" || t == "+Infinity" || t == "-Infinity" then None
    else if |t| >= 2 && t[0] == '0' && IsRadixPrefix(t[1]) then RadixLiteral(t)
    else if t[0] == '-' then
      match UnsignedDecimal(t[1..])
      case Some(v) => Some(-v)
      case None => None
    else if t[0] == '+' then UnsignedDecimal(t[1..])
    else UnsignedDecimal(t)
  }

  // ---------------------------------------------------------------- facts

  /**
   * A literal that starts with a digit or a point and ends with a digit or a
   * point is read as an unsigned decimal.
   */
  lemma NumberOfUnsigned(s: string)
    requires |s| > 0
    requires IsDigit(s[0]) || s[0] == '.'
    requires IsDigit(s[|s| - 1]) || s[|s| - 1] == '.'
    requires |s| >= 2 ==> !IsRadixPrefix(s[1])
    ensures NumberOf(s) == UnsignedDecimal(s)
  {
    TrimIdentity(s);
    assert s[0] != 'I' && s[0] != '+' && s[0] != '-';
    assert s != "Infinity" && s != "+Infinity" && s != "-Infinity";
    assert NumberOfTrimmed(s) == UnsignedDecimal(s);
  }

  /** Without an exponent marker the literal is just its mantissa. */
  lemma UnsignedWithoutExponent(s: string)
    requires forall j :: 0 <= j < |s| ==> s[j] != 'e' && s[j] != 'E'
    ensures UnsignedDecimal(s) == ParseMantissa(s)
  {
    IndexOfExponentNone(s);
    assert s[..|s|] == s;
    ScaleZero(ParseMantissa(s).GetOr(0.0));
  }

  lemma ScaleZero(m: real)
    ensures Scale(m, 0) == m
  {
    assert Pow10(0) == 1;
  }

  /** A plain digit string converts to its decimal value. */
  lemma {:induction false} NumberOfDigits(s: string)
    requires |s| >= 1 && AllDigits(s)
    ensures NumberOf(s) == Some(DigitsValue(s) as real)
  {
    NumberOfUnsigned(s);
    UnsignedWithoutExponent(s);
    IndexOfNone(s, '.');
  }

  /** `Number(String(n)) == n` for every natural number. */
  lemma {:induction false} NumberOfDecimal(n: nat)
    ensures NumberOf(NatToDecimal(n)) == Some(n as real)
  {
    NumberOfDigits(NatToDecimal(n));
    DecimalThenDigits(n);
  }

  /** A digit string with one decimal point converts to the value it spells. */
  lemma NumberOfPointed(ip: string, fp: string)
    requires AllDigits(ip) && AllDigits(fp) && |ip| + |fp| > 0
    ensures NumberOf(ip + "." + fp) ==
            Some(PointedValue(ip, fp))
  {
    var s := ip + "." + fp;
    DigitsOrPoint(ip, fp);
    NumberOfUnsigned(s);
    UnsignedWithoutExponent(s);
    MantissaPointed(ip, fp);
  }

  lemma DigitsOrPoint(ip: string, fp: string)
    requires AllDigits(ip) && AllDigits(fp)
    ensures forall j :: 0 <= j < |ip + "." + fp| ==>
              IsDigit((ip + "." + fp)[j]) || (ip + "." + fp)[j] == '.'
  {
  }

  lemma MantissaPointed(ip: string, fp: string)
    requires AllDigits(ip) && AllDigits(fp) && |ip| + |fp| > 0
    ensures ParseMantissa(ip + "." + fp) ==
            Some(PointedValue(ip, fp))
  {
    var s := ip + "." + fp;
    var dot := IndexOf(s, '.');
    assert dot == |ip| by {
      assert forall j :: 0 <= j < |ip| ==> s[j] != '.';
      IndexOfAt(s, '.', |ip|);
    }
    var a := s[..dot];
    var b := s[dot + 1..];
    assert a == ip;
    assert b == fp;
    assert |a| + |b| > 0 && AllDigits(a) && AllDigits(b);
    assert dot != |s|;
  }

  lemma {:induction false} IndexOfExponentNone(s: string)
    requires forall j :: 0 <= j < |s| ==> s[j] != 'e' && s[j] != 'E'
    ensures IndexOfExponent(s) == |s|
  {
    if |s| > 0 {
      IndexOfExponentNone(s[1..]);
    }
  }

  lemma {:induction false} IndexOfNone(s: string, c: char)
    requires forall j :: 0 <= j < |s| ==> s[j] != c
    ensures IndexOf(s, c) == |s|
  {
  }

  lemma {:induction false} IndexOfAt(s: string, c: char, k: nat)
    requires k < |s| && s[k] == c
    requires forall j :: 0 <= j < k ==> s[j] != c
    ensures IndexOf(s, c) == k
  {
  }
}
