/**
 * Character and string helpers shared by the parsers: decimal digits,
 * JavaScript whitespace, `trim`, `split`, `String.prototype.replace` with a
 * string pattern (first occurrence only) and the case mapping of every letter
 * whose simple mapping lands in ASCII (the ASCII letters, ſ, ı and the Kelvin
 * sign).
 */
module Text {

  predicate IsDigit(c: char) {
    '0' <= c <= '9'
  }

  predicate AllDigits(s: string) {
    forall i :: 0 <= i < |s| ==> IsDigit(s[i])
  }

  function DigitValue(c: char): (d: nat)
    requires IsDigit(c)
    ensures d < 10
  {
    c as int - '0' as int
  }

  function DigitChar(d: nat): (c: char)
    requires d < 10
    ensures IsDigit(c) && DigitValue(c) == d
  {
    ('0' as int + d) as char
  }

  /** The value of a string of decimal digits; the empty string is 0. */
  function DigitsValue(s: string): nat
    requires AllDigits(s)
    decreases |s|
  {
    if |s| == 0 then 0 else DigitsValue(s[..|s| - 1]) * 10 + DigitValue(s[|s| - 1])
  }

  /** Decimal rendering of a natural number without leading zeros (`String(n)`). */
  function NatToDecimal(n: nat): (r: string)
    ensures |r| >= 1 && AllDigits(r)
    ensures r[0] != '0' || n == 0
    decreases n
  {
    if n < 10 then [DigitChar(n)] else NatToDecimal(n / 10) + [DigitChar(n % 10)]
  }

  /** `String(n).padStart(2, "0")` for a natural number. */
  function Pad2(n: nat): (r: string)
    ensures |r| >= 2 && AllDigits(r)
  {
    if n < 10 then "0" + NatToDecimal(n) else NatToDecimal(n)
  }

  lemma {:induction false} DecimalThenDigits(n: nat)
    ensures DigitsValue(NatToDecimal(n)) == n
    decreases n
  {
    if n >= 10 {
      DecimalThenDigits(n / 10);
      var s := NatToDecimal(n);
      assert s[..|s| - 1] == NatToDecimal(n / 10);
    }
  }

  lemma {:induction false} LeadingDigitBound(s: string)
    requires |s| >= 1 && AllDigits(s)
    ensures DigitsValue(s) >= DigitValue(s[0])
    decreases |s|
  {
    if |s| > 1 {
      LeadingDigitBound(s[..|s| - 1]);
    }
  }

  /** A digit string without a superfluous leading zero prints back to itself. */
  lemma {:induction false} DigitsThenDecimal(s: string)
    requires |s| >= 1 && AllDigits(s)
    requires s[0] != '0' || |s| == 1
    ensures NatToDecimal(DigitsValue(s)) == s
    decreases |s|
  {
    if |s| > 1 {
      var p := s[..|s| - 1];
      LeadingDigitBound(p);
      DigitsThenDecimal(p);
      assert DigitsValue(s) / 10 == DigitsValue(p);
      assert DigitsValue(s) % 10 == DigitValue(s[|s| - 1]);
      assert s == p + [s[|s| - 1]];
    }
  }

  lemma {:induction false} TwoDigitsValue(s: string)
    requires |s| == 2 && AllDigits(s)
    ensures DigitsValue(s) == DigitValue(s[0]) * 10 + DigitValue(s[1])
  {
    var p := s[..1];
    assert p[..0] == [];
    assert DigitsValue(p) == DigitValue(s[0]);
    assert s[..|s| - 1] == p;
  }

  /** `Pad2` prints back exactly a two-digit string naming 1..99. */
  lemma {:induction false} Pad2OfDigits(s: string)
    requires |s| == 2 && AllDigits(s) && DigitsValue(s) >= 1
    ensures Pad2(DigitsValue(s)) == s
  {
    TwoDigitsValue(s);
    if s[0] == '0' {
      assert s == "0" + [s[1]];
      assert [s[1]][..0] == [];
      DigitsThenDecimal([s[1]]);
    } else {
      LeadingDigitBound(s);
      DigitsThenDecimal(s);
    }
  }

  lemma Pad2Value(n: nat)
    requires 1 <= n < 100
    ensures |Pad2(n)| == 2 && DigitsValue(Pad2(n)) == n
  {
    var r := Pad2(n);
    if n < 10 {
      assert r == ['0', DigitChar(n)];
      TwoDigitsValue(r);
    } else {
      assert r == NatToDecimal(n / 10) + [DigitChar(n % 10)];
      assert NatToDecimal(n / 10) == [DigitChar(n / 10)];
      DecimalThenDigits(n);
    }
  }

  // ---------------------------------------------------------------- whitespace

  /**
   * ECMAScript WhiteSpace and LineTerminator code points: what `trim()`
   * strips and what the regular-expression class `\s` matches.
   */
  predicate IsJsWhitespace(c: char) {
    || c == '\t' || c == '\n' || c == '\U{B}' || c == '\U{C}' || c == '\r'
    || c == ' ' || c == '\U{A0}' || c == '\U{1680}'
    || ('\U{2000}' <= c <= '\U{200A}')
    || c == '\U{2028}' || c == '\U{2029}' || c == '\U{202F}' || c == '\U{205F}'
    || c == '\U{3000}' || c == '\U{FEFF}'
  }

  /** `s` without its leading whitespace. */
  function TrimStart(s: string): (r: string)
    ensures |r| <= |s|
    ensures |r| > 0 ==> !IsJsWhitespace(r[0])
  {
    if |s| > 0 && IsJsWhitespace(s[0]) then TrimStart(s[1..]) else s
  }

  /** `s` without its trailing whitespace. */
  function TrimEnd(s: string): (r: string)
    ensures |r| <= |s|
    ensures |r| > 0 ==> !IsJsWhitespace(r[|r| - 1])
  {
    if |s| > 0 && IsJsWhitespace(s[|s| - 1]) then TrimEnd(s[..|s| - 1]) else s
  }

  /** What `TrimStart` drops is a prefix of whitespace. */
  lemma {:induction false} TrimStartIsSuffix(s: string)
    ensures TrimStart(s) == s[|s| - |TrimStart(s)|..]
    ensures forall i :: 0 <= i < |s| - |TrimStart(s)| ==> IsJsWhitespace(s[i])
    decreases |s|
  {
    if |s| > 0 && IsJsWhitespace(s[0]) {
      TrimStartIsSuffix(s[1..]);
      forall i | 1 <= i < |s| - |TrimStart(s)|
        ensures IsJsWhitespace(s[i])
      {
        assert s[i] == s[1..][i - 1];
      }
    }
  }

  /** What `TrimEnd` drops is a suffix of whitespace. */
  lemma {:induction false} TrimEndIsPrefix(s: string)
    ensures TrimEnd(s) == s[..|TrimEnd(s)|]
    ensures forall i :: |TrimEnd(s)| <= i < |s| ==> IsJsWhitespace(s[i])
    decreases |s|
  {
    if |s| > 0 && IsJsWhitespace(s[|s| - 1]) {
      var p := s[..|s| - 1];
      TrimEndIsPrefix(p);
      assert TrimEnd(p)== p[..|TrimEnd(p)|];
      forall i | |TrimEnd(s)| <= i < |s| - 1
        ensures IsJsWhitespace(s[i])
      {
        assert s[i] == p[i];
      }
    }
  }

  /** Number of whitespace characters `trim` removes from the front. */
  function TrimOffset(s: string): (k: nat)
    ensures k <= |s|
  {
    |s| - |TrimStart(s)|
  }

  /**
   * `String.prototype.trim`: `s` without its leading and trailing
   * whitespace (`TrimIsInfix` says which part of `s` that is).
   */
  function Trim(s: string): (r: string)
    ensures |r| <= |s|
    ensures |r| > 0 ==> !IsJsWhitespace(r[0]) && !IsJsWhitespace(r[|r| - 1])
  {
    TrimEndIsPrefix(TrimStart(s));
    TrimEnd(TrimStart(s))
  }

  /** The trimmed string is the infix of `s` that starts after the leading
    * whitespace, and only whitespace lies outside it. */
  lemma TrimIsInfix(s: string)
    ensures TrimOffset(s) + |Trim(s)| <= |s|
    ensures Trim(s) == s[TrimOffset(s)..TrimOffset(s) + |Trim(s)|]
    ensures forall i :: 0 <= i < TrimOffset(s) ==> IsJsWhitespace(s[i])
    ensures forall i :: TrimOffset(s) + |Trim(s)| <= i < |s| ==> IsJsWhitespace(s[i])
  {
    var a := TrimStart(s);
    var k := TrimOffset(s);
    var r := TrimEnd(a);
    TrimStartIsSuffix(s);
    TrimEndIsPrefix(a);
    assert a == s[k..];
    assert r == a[..|r|];
    assert r == s[k..k + |r|];
    forall i | k + |r| <= i < |s|
      ensures IsJsWhitespace(s[i])
    {
      assert s[i] == a[i - k];
    }
  }

  /** `trim` gives "" exactly for strings of whitespace. */
  lemma TrimEmptyIff(s: string)
    ensures Trim(s) == "" <==> forall i :: 0 <= i < |s| ==> IsJsWhitespace(s[i])
  {
    TrimIsInfix(s);
    if forall i :: 0 <= i < |s| ==> IsJsWhitespace(s[i]) {
      WhitespaceTrimStart(s);
    }
  }

  lemma {:induction false} WhitespaceTrimStart(s: string)
    requires forall i :: 0 <= i < |s| ==> IsJsWhitespace(s[i])
    ensures TrimStart(s) == ""
    decreases |s|
  {
    if |s| > 0 {
      assert forall i :: 0 <= i < |s[1..]| ==> s[1..][i] == s[i + 1];
      WhitespaceTrimStart(s[1..]);
    }
  }

  /** A string with no surrounding whitespace is its own trim. */
  lemma TrimIdentity(s: string)
    requires |s| > 0 ==> !IsJsWhitespace(s[0]) && !IsJsWhitespace(s[|s| - 1])
    ensures Trim(s) == s
  {
  }

  /** `s.replace(/\s+/g, "")`: every whitespace character removed. */
  function RemoveWhitespace(s: string): (r: string)
    ensures forall i :: 0 <= i < |r| ==> !IsJsWhitespace(r[i])
    ensures |r| <= |s|
  {
    if |s| == 0 then ""
    else if IsJsWhitespace(s[0]) then RemoveWhitespace(s[1..])
    else [s[0]] + RemoveWhitespace(s[1..])
  }

  // ---------------------------------------------------------------- searching

  function Count(s: string, c: char): nat {
    if |s| == 0 then 0 else (if s[0] == c then 1 else 0) + Count(s[1..], c)
  }

  /** Index of the first `c` in `s`, or `|s|` when there is none. */
  function IndexOf(s: string, c: char): (i: nat)
    ensures i <= |s|
    ensures i < |s| ==> s[i] == c
    ensures forall j :: 0 <= j < i ==> s[j] != c
  {
    if |s| == 0 then 0 else if s[0] == c then 0 else 1 + IndexOf(s[1..], c)
  }

  /** `String.prototype.lastIndexOf` for one character: -1 when absent. */
  function LastIndexOf(s: string, c: char): (i: int)
    ensures -1 <= i < |s|
    ensures i >= 0 ==> s[i] == c
    ensures forall j :: i < j < |s| ==> s[j] != c
  {
    if |s| == 0 then -1
    else if s[|s| - 1] == c then |s| - 1
    else LastIndexOf(s[..|s| - 1], c)
  }

  lemma {:induction false} CountZeroIff(s: string, c: char)
    ensures Count(s, c) == 0 <==> IndexOf(s, c) == |s|
  {
    if |s| > 0 && s[0] != c {
      CountZeroIff(s[1..], c);
    }
  }

  // ---------------------------------------------------------------- rewriting

  /** `s.replace(/x/g, "")`: every occurrence of `c` deleted. */
  function DeleteAll(s: string, c: char): (r: string)
    ensures Count(r, c) == 0
    ensures |r| == |s| - Count(s, c)
  {
    if |s| == 0 then "" else if s[0] == c then DeleteAll(s[1..], c) else [s[0]] + DeleteAll(s[1..], c)
  }

  /** `s.replace(/x/g, y)` for single characters. */
  function ReplaceAll(s: string, from: char, to: char): (r: string)
    ensures |r| == |s|
    ensures forall i :: 0 <= i < |s| ==> r[i] == (if s[i] == from then to else s[i])
  {
    if |s| == 0 then "" else [if s[0] == from then to else s[0]] + ReplaceAll(s[1..], from, to)
  }

  /** `s.replace("x", y)`: a string pattern replaces only the first occurrence. */
  function ReplaceFirst(s: string, from: char, to: char): (r: string)
    ensures |r| == |s|
    ensures var k := IndexOf(s, from);
            forall i :: 0 <= i < |s| ==> r[i] == (if i == k then to else s[i])
  {
    var k := IndexOf(s, from);
    if k == |s| then s else s[..k] + [to] + s[k + 1..]
  }

  // ---------------------------------------------------------------- split / join

  /** `s.split(sep)` for a one-character separator: the maximal separator-free pieces. */
  function Split(s: string, sep: char): (parts: seq<string>)
    ensures |parts| == Count(s, sep) + 1
  {
    if |s| == 0 then [""]
    else
      var rest := Split(s[1..], sep);
      if s[0] == sep then [""] + rest else [[s[0]] + rest[0]] + rest[1..]
  }

  /** No piece of a split holds the separator. */
  lemma {:induction false} SplitPiecesLackSep(s: string, sep: char)
    ensures forall i :: 0 <= i < |Split(s, sep)| ==> Count(Split(s, sep)[i], sep) == 0
    decreases |s|
  {
    if |s| > 0 {
      SplitPiecesLackSep(s[1..], sep);
      var rest := Split(s[1..], sep);
      if s[0] != sep {
        assert Count([s[0]] + rest[0], sep) == Count(rest[0], sep) by {
          assert ([s[0]] + rest[0])[1..] == rest[0];
        }
      }
    }
  }

  /** `parts.join(sep)`. */
  function Join(parts: seq<string>, sep: char): string {
    if |parts| == 0 then ""
    else if |parts| == 1 then parts[0]
    else parts[0] + [sep] + Join(parts[1..], sep)
  }

  /** Joining the pieces of a split with the same separator gives back the string. */
  lemma {:induction false} JoinSplit(s: string, sep: char)
    ensures Join(Split(s, sep), sep) == s
  {
    if |s| > 0 {
      JoinSplit(s[1..], sep);
      var rest := Split(s[1..], sep);
      if s[0] == sep {
        assert Split(s, sep) == [""] + rest;
      } else {
        var parts := Split(s, sep);
        if |rest| == 1 {
          assert parts == [[s[0]] + rest[0]];
        } else {
          assert parts[1..] == rest[1..];
          assert Join(rest, sep) == rest[0] + [sep] + Join(rest[1..], sep);
        }
      }
    }
  }

  /** Three separator-free pieces joined by the separator split back into those pieces. */
  lemma {:induction false} SplitThree(a: string, b: string, c: string, sep: char)
    requires Count(a, sep) == 0 && Count(b, sep) == 0 && Count(c, sep) == 0
    ensures Split(a + [sep] + b + [sep] + c, sep) == [a, b, c]
  {
    var x := b + [sep] + c;
    SplitTwo(b, c, sep);
    SplitLeadingSep(x, sep);
    var sx := [sep] + x;
    var r := Split(sx, sep);
    assert r == [""] + [b, c];
    SplitPrefix(a, sx, sep);
    assert Split(a + sx, sep) == [a + r[0]] + r[1..];
    assert a + r[0] == a;
    assert r[1..] == [b, c];
    assert a + [sep] + b + [sep] + c == a + sx by {
      ConcatAssoc(a, sep, x);
      assert a + [sep] + b + [sep] + c == (a + [sep]) + x;
    }
  }

  lemma ConcatAssoc(a: string, sep: char, x: string)
    ensures a + [sep] + x == a + ([sep] + x)
  {
  }

  lemma {:induction false} SplitTwo(b: string, c: string, sep: char)
    requires Count(b, sep) == 0 && Count(c, sep) == 0
    ensures Split(b + [sep] + c, sep) == [b, c]
  {
    var sc := [sep] + c;
    SplitNoSep(c, sep);
    SplitLeadingSep(c, sep);
    var r := Split(sc, sep);
    assert r == ["", c];
    SplitPrefix(b, sc, sep);
    assert b + r[0] == b;
    assert r[1..] == [c];
    ConcatAssoc(b, sep, c);
  }

  lemma {:induction false} SplitLeadingSep(s: string, sep: char)
    ensures Split([sep] + s, sep) == [""] + Split(s, sep)
  {
    assert ([sep] + s)[1..] == s;
  }

  lemma {:induction false} SplitNoSep(s: string, sep: char)
    requires Count(s, sep) == 0
    ensures Split(s, sep) == [s]
  {
    if |s| > 0 {
      SplitNoSep(s[1..], sep);
      assert s[0] != sep;
      assert [s[0]] + s[1..] == s;
    }
  }

  /** A separator-free prefix is glued onto the first piece of what follows it. */
  lemma {:induction false} SplitPrefix(a: string, t: string, sep: char)
    requires Count(a, sep) == 0
    ensures Split(a + t, sep) == [a + Split(t, sep)[0]] + Split(t, sep)[1..]
    decreases |a|
  {
    var rt := Split(t, sep);
    if |a| == 0 {
      assert a + t == t;
      assert a + rt[0] == rt[0];
      assert rt == [rt[0]] + rt[1..];
    } else {
      var a' := a[1..];
      SplitPrefix(a', t, sep);
      var rest := Split(a' + t, sep);
      assert rest == [a' + rt[0]] + rt[1..];
      var at := a + t;
      assert at[1..] == a' + t;
      assert at[0] == a[0];
      assert a[0] != sep;
      SplitCons(at, sep);
      assert Split(at, sep) == [[a[0]] + rest[0]] + rest[1..];
      assert rest[0] == a' + rt[0];
      assert rest[1..] == rt[1..];
      assert [a[0]] + (a' + rt[0]) == a + rt[0];
    }
  }

  lemma {:induction false} SplitCons(s: string, sep: char)
    requires |s| > 0 && s[0] != sep
    ensures Split(s, sep) == [[s[0]] + Split(s[1..], sep)[0]] + Split(s[1..], sep)[1..]
  {
  }

  // ---------------------------------------------------------------- case mapping

  // The simple case mappings of the letters whose image is ASCII: the ASCII
  // letters, plus the long s and the dotless i upward and the Kelvin sign
  // downward. Every other letter keeps its case here; JavaScript maps it to
  // another non-ASCII letter, which changes no comparison with an ASCII word.

  const LongS: char := '\U{017F}'
  const DotlessI: char := '\U{0131}'
  const KelvinSign: char := '\U{212A}'

  function LowerChar(c: char): char {
    if 'A' <= c <= 'Z' then (c as int + 32) as char
    else if c == KelvinSign then 'k'
    else c
  }

  function UpperChar(c: char): char {
    if 'a' <= c <= 'z' then (c as int - 32) as char
    else if c == LongS then 'S'
    else if c == DotlessI then 'I'
    else c
  }

  /** `toLowerCase()` on the letters above. */
  function ToLower(s: string): (r: string)
    ensures |r| == |s|
    ensures forall i :: 0 <= i < |s| ==> r[i] == LowerChar(s[i])
  {
    if |s| == 0 then "" else [LowerChar(s[0])] + ToLower(s[1..])
  }

  /** `toUpperCase()` on the letters above. */
  function ToUpper(s: string): (r: string)
    ensures |r| == |s|
    ensures forall i :: 0 <= i < |s| ==> r[i] == UpperChar(s[i])
  {
    if |s| == 0 then "" else [UpperChar(s[0])] + ToUpper(s[1..])
  }

  /** A lower-case ASCII word without s or i: the long s and the dotless i
    * upper-case into letters it does not hold. */
  predicate PlainWord(w: string) {
    forall j :: 0 <= j < |w| ==> 'a' <= w[j] <= 'z' && w[j] != 's' && w[j] != 'i'
  }

  /** Lower-casing ignores the case a plain word was typed in. */
  lemma {:induction false} ToLowerCaseInsensitive(s: string, w: string)
    requires PlainWord(w)
    ensures ToLower(ToUpper(s)) == w <==> ToLower(s) == w
  {
    var a := ToLower(ToUpper(s));
    var b := ToLower(s);
    if a == w {
      forall i | 0 <= i < |s| ensures b[i] == a[i] {
        assert 'a' <= a[i] <= 'z' && a[i] != 's' && a[i] != 'i';
      }
    }
    if b == w {
      forall i | 0 <= i < |s| ensures a[i] == b[i] {
        assert 'a' <= b[i] <= 'z';
      }
    }
  }
}
