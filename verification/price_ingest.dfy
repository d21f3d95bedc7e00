// The last-price updater (`runUpdateLastPrices`): for each fund it reads a
// price and a date from two sources, keeps the candidates dated within the
// last fourteen days, picks the newest and records it when it is strictly
// newer than the fund's last stored price and its (ticker, day) is free.
// Fetching and scraping are left out: each source's raw strings, or its
// absence, are inputs.

module PriceIngest {
  import opened Wrappers
  import opened Text
  import opened JsNumber
  import opened Calendar
  import opened Tables
  import opened PriceTable

  // ---------------------------------------------------------------- numbers

  /** No occurrence of `c` in `s`. */
  predicate Lacks(s: string, c: char) {
    forall i :: 0 <= i < |s| ==> s[i] != c
  }

  predicate NoWhitespace(s: string) {
    forall i :: 0 <= i < |s| ==> !IsJsWhitespace(s[i])
  }

  /** `String(text).trim()`, no-break spaces made spaces, then every run of
    * whitespace removed. */
  function Compact(s: string): (r: string)
    ensures NoWhitespace(r)
  {
    RemoveWhitespace(ReplaceAll(Trim(s), '\U{A0}', ' '))
  }

  /** `parts.join("")`. */
  function Concat(parts: seq<string>): string {
    if |parts| == 0 then "" else parts[0] + Concat(parts[1..])
  }

  /** The separator rewriting: with both separators the later one is the
    * decimal point and the other is deleted everywhere; with commas only,
    * dots are deleted and the first comma becomes the point; with dots only
    * and more than one of them, the last dot is the point and the others go. */
  function Normalise(s: string): string {
    var lastComma := LastIndexOf(s, ',');
    var lastDot := LastIndexOf(s, '.');
    if lastComma != -1 && lastDot != -1 then
      var dec := if lastComma > lastDot then ',' else '.';
      var thou := if dec == ',' then '.' else ',';
      ReplaceFirst(DeleteAll(s, thou), dec, '.')
    else if lastComma != -1 then
      ReplaceFirst(DeleteAll(s, '.'), ',', '.')
    else
      var parts := Split(s, '.');
      if |parts| > 2 then Concat(parts[..|parts| - 1]) + "." + parts[|parts| - 1] else s
  }

  /** `parseLocaleNumber(text)`: None for null and for a result that is not
    * a finite number; a blank text reads as 0. */
  function ParseLocaleNumber(text: Option<string>): (r: Option<real>)
    ensures text.None? ==> r.None?
    ensures text.Some? && Compact(text.value) == "" ==> r == Some(0.0)
  {
    if text.None? then None else NumberOf(Normalise(Compact(text.value)))
  }

  lemma {:induction false} RemoveWhitespaceClean(s: string)
    requires NoWhitespace(s)
    ensures RemoveWhitespace(s) == s
    decreases |s|
  {
    if |s| > 0 {
      RemoveWhitespaceClean(s[1..]);
      assert [s[0]] + s[1..] == s;
    }
  }

  /** A string without whitespace is already compact. */
  lemma CompactClean(s: string)
    requires NoWhitespace(s)
    ensures Compact(s) == s
  {
    TrimIdentity(s);
    var r := ReplaceAll(s, '\U{A0}', ' ');
    assert IsJsWhitespace('\U{A0}');
    assert forall i :: 0 <= i < |s| ==> r[i] == s[i];
    assert r == s;
    RemoveWhitespaceClean(s);
  }

  /** Whitespace anywhere in the text, no-break spaces included, is ignored. */
  lemma SpacesIgnored(s: string)
    ensures ParseLocaleNumber(Some(s)) == ParseLocaleNumber(Some(Compact(s)))
  {
    CompactClean(Compact(s));
  }

  lemma CleanParse(w: string)
    requires NoWhitespace(w)
    ensures ParseLocaleNumber(Some(w)) == NumberOf(Normalise(w))
  {
    CompactClean(w);
  }

  /** The last separator is a comma: dots go, the first comma is the point. */
  lemma {:induction false} NormaliseCommaLast(w: string)
    requires LastIndexOf(w, ',') > LastIndexOf(w, '.')
    ensures Normalise(w) == ReplaceFirst(DeleteAll(w, '.'), ',', '.')
  {
  }

  /** The last separator is a dot and a comma precedes it: commas go. */
  lemma {:induction false} NormaliseDotLast(w: string)
    requires -1 < LastIndexOf(w, ',') < LastIndexOf(w, '.')
    ensures Normalise(w) == ReplaceFirst(DeleteAll(w, ','), '.', '.')
  {
  }

  /** No comma: the dots are rewritten by splitting. */
  lemma {:induction false} NormaliseNoComma(w: string)
    requires LastIndexOf(w, ',') == -1
    ensures var parts := Split(w, '.');
            Normalise(w) == if |parts| > 2 then Concat(parts[..|parts| - 1]) + "." + parts[|parts| - 1] else w
  {
  }

  lemma {:induction false} DeleteAllAppend(a: string, b: string, c: char)
    ensures DeleteAll(a + b, c) == DeleteAll(a, c) + DeleteAll(b, c)
    decreases |a|
  {
    if |a| > 0 {
      assert (a + b)[1..] == a[1..] + b;
      DeleteAllAppend(a[1..], b, c);
    } else {
      assert a + b == b;
    }
  }

  lemma {:induction false} DeleteAllAbsent(s: string, c: char)
    requires Lacks(s, c)
    ensures DeleteAll(s, c) == s
    decreases |s|
  {
    if |s| > 0 {
      DeleteAllAbsent(s[1..], c);
      assert [s[0]] + s[1..] == s;
    }
  }

  lemma {:induction false} DeleteAllKeepsLack(s: string, c: char, d: char)
    requires Lacks(s, d)
    ensures Lacks(DeleteAll(s, c), d)
    decreases |s|
  {
    if |s| > 0 {
      DeleteAllKeepsLack(s[1..], c, d);
    }
  }

  /** Deleting `d` around a separator that is not `d`, from a tail without `d`. */
  lemma {:induction false} DeleteAround(x: string, sep: char, c: string, d: char)
    requires sep != d && Lacks(c, d)
    ensures DeleteAll(x + [sep] + c, d) == DeleteAll(x, d) + [sep] + c
  {
    assert x + [sep] + c == x + ([sep] + c);
    DeleteAllAppend(x, [sep] + c, d);
    DeleteAllAbsent([sep] + c, d);
  }

  /** In `x`, the separator, then `c` without it: the separator is the last. */
  lemma {:induction false} LastIndexAt(x: string, sep: char, c: string)
    requires Lacks(c, sep)
    ensures LastIndexOf(x + [sep] + c, sep) == |x|
  {
    var w := x + [sep] + c;
    assert w[|x|] == sep;
    TailAfter(x, sep, c);
    LastIndexIs(w, sep, |x|);
  }

  /** After the separator only `c` follows, which lacks it. */
  lemma TailAfter(x: string, sep: char, c: string)
    requires Lacks(c, sep)
    ensures forall j :: |x| < j < |x + [sep] + c| ==> (x + [sep] + c)[j] != sep
  {
    var w := x + [sep] + c;
    forall j | |x| < j < |w| ensures w[j] != sep {
      assert w[j] == c[j - |x| - 1];
    }
  }

  /** The occurrence with none after it is the last. */
  lemma {:induction false} LastIndexIs(w: string, ch: char, k: nat)
    requires k < |w| && w[k] == ch && forall j :: k < j < |w| ==> w[j] != ch
    ensures LastIndexOf(w, ch) == k
  {
  }

  /** No `ch` from index `k` on: the last `ch`, if any, is before `k`. */
  lemma {:induction false} LastIndexBound(w: string, ch: char, k: nat)
    requires k <= |w| && forall j :: k <= j < |w| ==> w[j] != ch
    ensures LastIndexOf(w, ch) < k
  {
  }

  lemma TailLacks(x: string, sep: char, c: string, other: char)
    requires Lacks(c, other) && sep != other
    ensures forall j :: |x| <= j < |x| + 1 + |c| ==> (x + [sep] + c)[j] != other
  {
    var w := x + [sep] + c;
    forall j | |x| <= j < |w| ensures w[j] != other {
      if j > |x| {
        assert w[j] == c[j - |x| - 1];
      }
    }
  }

  /** A character missing from the tail occurs, if at all, before the separator. */
  lemma {:induction false} LastIndexBefore(x: string, sep: char, c: string, other: char)
    requires Lacks(c, other) && sep != other
    ensures LastIndexOf(x + [sep] + c, other) < |x|
  {
    TailLacks(x, sep, c, other);
    LastIndexBound(x + [sep] + c, other, |x|);
  }

  lemma {:induction false} LastIndexPresent(x: string, c: char)
    requires !Lacks(x, c)
    ensures LastIndexOf(x, c) >= 0
  {
  }

  lemma {:induction false} LastIndexAbsent(x: string, c: char)
    requires Lacks(x, c)
    ensures LastIndexOf(x, c) == -1
  {
  }

  /** The first `from` is right after `x`: it becomes the point. */
  lemma ReplaceFirstAt(x: string, from: char, c: string)
    requires Lacks(x, from)
    ensures ReplaceFirst(x + [from] + c, from, '.') == x + "." + c
  {
    var w := x + [from] + c;
    HeadBefore(x, from, c);
    IndexIs(w, from, |x|);
    ReplacedJoin(x, from, c, ReplaceFirst(w, from, '.'));
  }

  /** Before the separator only `x` comes, which lacks it. */
  lemma HeadBefore(x: string, sep: char, c: string)
    requires Lacks(x, sep)
    ensures (x + [sep] + c)[|x|] == sep
    ensures forall j :: 0 <= j < |x| ==> (x + [sep] + c)[j] != sep
  {
    var w := x + [sep] + c;
    forall j | 0 <= j < |x| ensures w[j] != sep {
      assert w[j] == x[j];
    }
  }

  /** The occurrence with none before it is the first. */
  lemma {:induction false} IndexIs(w: string, ch: char, k: nat)
    requires k < |w| && w[k] == ch && forall j :: 0 <= j < k ==> w[j] != ch
    ensures IndexOf(w, ch) == k
  {
  }

  /** `x`, the separator, then `c`, with the separator's place overwritten by a point. */
  lemma ReplacedJoin(x: string, sep: char, c: string, r: string)
    requires |r| == |x| + 1 + |c|
    requires forall i :: 0 <= i < |r| ==> r[i] == (if i == |x| then '.' else (x + [sep] + c)[i])
    ensures r == x + "." + c
  {
    var w := x + [sep] + c;
    forall i | 0 <= i < |r| ensures r[i] == (x + "." + c)[i] {
      if i < |x| {
        assert r[i] == w[i] == x[i];
      } else if i > |x| {
        assert r[i] == w[i] == c[i - |x| - 1];
      }
    }
  }

  lemma CleanJoin(x: string, sep: char, c: string)
    requires NoWhitespace(x) && NoWhitespace(c) && !IsJsWhitespace(sep)
    ensures NoWhitespace(x + [sep] + c)
  {
  }

  lemma PresentJoin(x: string, sep: char, c: string, d: char)
    requires !Lacks(x, d)
    ensures !Lacks(x + [sep] + c, d)
  {
    var k :| 0 <= k < |x| && x[k] == d;
    assert (x + [sep] + c)[k] == d;
  }

  lemma LacksJoin(x: string, sep: char, c: string, d: char)
    requires Lacks(x, d) && Lacks(c, d) && sep != d
    ensures Lacks(x + [sep] + c, d)
  {
    var w := x + [sep] + c;
    forall j | 0 <= j < |w| ensures w[j] != d {
      if j < |x| {
        assert w[j] == x[j];
      } else if j > |x| {
        assert w[j] == c[j - |x| - 1];
      }
    }
  }

  /** A comma that is the last separator is the decimal point, and every dot
    * before it is a thousands separator: "1.234,56" and "1234,56" are both
    * read with the comma as the point. */
  lemma {:induction false} CommaDecimal(x: string, c: string)
    requires NoWhitespace(x) && NoWhitespace(c)
    requires Lacks(x, ',') && Lacks(c, ',') && Lacks(c, '.')
    ensures ParseLocaleNumber(Some(x + "," + c)) == NumberOf(DeleteAll(x, '.') + "." + c)
  {
    var w := x + [','] + c;
    CleanJoin(x, ',', c);
    CleanParse(w);
    LastIndexAt(x, ',', c);
    LastIndexBefore(x, ',', c, '.');
    NormaliseCommaLast(w);
    DeleteAround(x, ',', c, '.');
    DeleteAllKeepsLack(x, '.', ',');
    ReplaceFirstAt(DeleteAll(x, '.'), ',', c);
  }

  /** A dot that is the last separator after commas is the decimal point and
    * the commas are thousands separators: "1,234.56". */
  lemma {:induction false} DotDecimal(x: string, c: string)
    requires NoWhitespace(x) && NoWhitespace(c)
    requires Lacks(x, '.') && !Lacks(x, ',') && Lacks(c, ',') && Lacks(c, '.')
    ensures ParseLocaleNumber(Some(x + "." + c)) == NumberOf(DeleteAll(x, ',') + "." + c)
  {
    var w := x + ['.'] + c;
    CleanJoin(x, '.', c);
    CleanParse(w);
    LastIndexAt(x, '.', c);
    LastIndexBefore(x, '.', c, ',');
    PresentJoin(x, '.', c, ',');
    LastIndexPresent(w, ',');
    NormaliseDotLast(w);
    DeleteAround(x, '.', c, ',');
    DeleteAllKeepsLack(x, ',', '.');
    ReplaceFirstAt(DeleteAll(x, ','), '.', c);
  }

  lemma {:induction false} CountLacking(s: string, c: char)
    requires Lacks(s, c)
    ensures Count(s, c) == 0
    decreases |s|
  {
    if |s| > 0 {
      CountLacking(s[1..], c);
    }
  }

  lemma {:induction false} SplitSuffix(x: string, sep: char, c: string)
    requires Lacks(c, sep)
    ensures Split(x + [sep] + c, sep) == Split(x, sep) + [c]
    decreases |x|
  {
    CountLacking(c, sep);
    if |x| == 0 {
      assert x + [sep] + c == [sep] + c;
      SplitLeadingSep(c, sep);
      SplitNoSep(c, sep);
    } else {
      var w := x + [sep] + c;
      assert w[1..] == x[1..] + [sep] + c;
      SplitSuffix(x[1..], sep, c);
    }
  }

  lemma {:induction false} ConcatSplit(x: string, sep: char)
    ensures Concat(Split(x, sep)) == DeleteAll(x, sep)
    decreases |x|
  {
    if |x| > 0 {
      ConcatSplit(x[1..], sep);
      var rest := Split(x[1..], sep);
      var parts := Split(x, sep);
      if x[0] == sep {
        assert parts == [""] + rest;
        assert parts[1..] == rest;
      } else {
        assert parts == [[x[0]] + rest[0]] + rest[1..];
        assert Concat(rest) == rest[0] + Concat(rest[1..]);
        assert Concat(parts) == [x[0]] + rest[0] + Concat(rest[1..]);
      }
    }
  }

  lemma {:induction false} SplitOneLacks(x: string, sep: char)
    requires |Split(x, sep)| == 1
    ensures Lacks(x, sep)
  {
    CountZeroIff(x, sep);
  }

  /** The dots-only rewrite of `x.c`, with no dot in `c`: the dots of `x`
    * are dropped and the last dot stays. */
  lemma {:induction false} DotsRewrite(x: string, c: string)
    requires Lacks(c, '.')
    ensures var parts := Split(x + ['.'] + c, '.');
            (if |parts| > 2 then Concat(parts[..|parts| - 1]) + "." + parts[|parts| - 1] else x + ['.'] + c) ==
            DeleteAll(x, '.') + "." + c
  {
    SplitSuffix(x, '.', c);
    var parts := Split(x + ['.'] + c, '.');
    assert parts[..|parts| - 1] == Split(x, '.');
    assert parts[|parts| - 1] == c;
    ConcatSplit(x, '.');
    if |parts| <= 2 {
      SplitOneLacks(x, '.');
      DeleteAllAbsent(x, '.');
    }
  }

  /** Without commas, the last dot is the decimal point and earlier dots are
    * dropped: "1.234.567" reads as 1234.567, "12.5" as 12.5. */
  lemma {:induction false} DotOnlyDecimal(x: string, c: string)
    requires NoWhitespace(x) && NoWhitespace(c)
    requires Lacks(x, ',') && Lacks(c, ',') && Lacks(c, '.')
    ensures ParseLocaleNumber(Some(x + "." + c)) == NumberOf(DeleteAll(x, '.') + "." + c)
  {
    var w := x + ['.'] + c;
    CleanJoin(x, '.', c);
    CleanParse(w);
    LacksJoin(x, '.', c, ',');
    LastIndexAbsent(w, ',');
    NormaliseNoComma(w);
    DotsRewrite(x, c);
  }

  lemma DigitsLack(s: string)
    requires AllDigits(s)
    ensures NoWhitespace(s) && Lacks(s, ',') && Lacks(s, '.') && Lacks(s, 'e') && Lacks(s, 'E')
  {
  }

  /** With commas only, dots are deleted (none here) and the first comma
    * becomes the point. */
  lemma CommaFirst(a: string, b: string, c: string)
    requires AllDigits(a) && AllDigits(b) && AllDigits(c)
    ensures ParseLocaleNumber(Some(a + "," + b + "," + c)) == NumberOf(a + "." + b + "," + c)
  {
    DigitsLack(a);
    DigitsLack(b);
    DigitsLack(c);
    var tail := b + "," + c;
    var w := a + [','] + tail;
    assert w == a + "," + b + "," + c;
    assert a + "." + tail == a + "." + b + "," + c;
    CleanJoin(b, ',', c);
    CleanJoin(a, ',', tail);
    CleanParse(w);
    LacksJoin(b, ',', c, '.');
    LacksJoin(a, ',', tail, '.');
    LastIndexAbsent(w, '.');
    assert w[|a|] == ',';
    LastIndexPresent(w, ',');
    NormaliseCommaLast(w);
    DeleteAllAbsent(w, '.');
    ReplaceFirstAt(a, ',', tail);
  }

  /** Digits, a point, then a fraction: read as a plain mantissa. */
  lemma PointedIsMantissa(a: string, fp: string)
    requires |a| > 0 && |fp| > 0 && AllDigits(a) && IsDigit(fp[|fp| - 1])
    requires Lacks(fp, 'e') && Lacks(fp, 'E')
    ensures NumberOf(a + ['.'] + fp) == ParseMantissa(a + ['.'] + fp)
  {
    var t := a + ['.'] + fp;
    DigitsLack(a);
    LacksJoin(a, '.', fp, 'e');
    LacksJoin(a, '.', fp, 'E');
    assert t[0] == a[0] && t[|t| - 1] == fp[|fp| - 1];
    assert |t| >= 2 ==> t[1] == '.' || t[1] == a[1];
    NumberOfUnsigned(t);
    UnsignedWithoutExponent(t);
  }

  /** `ip.fp` where the fraction holds a comma is not a number. */
  lemma UnreadableMantissa(a: string, b: string, c: string)
    requires |a| > 0 && |c| > 0 && AllDigits(a) && AllDigits(b) && AllDigits(c)
    ensures NumberOf(a + "." + b + "," + c) == None
  {
    var fp := b + "," + c;
    var t := a + ['.'] + fp;
    assert t == a + "." + b + "," + c;
    DigitsLack(b);
    DigitsLack(c);
    LacksJoin(b, ',', c, 'e');
    LacksJoin(b, ',', c, 'E');
    assert fp[|fp| - 1] == c[|c| - 1];
    PointedIsMantissa(a, fp);
    DigitsLack(a);
    IndexOfAt(t, '.', |a|);
    assert t[|a| + 1..] == fp;
    assert fp[|b|] == ',';
  }

  /** Two commas and no dot: the first comma becomes the point and the second
    * makes the number unreadable. */
  lemma TwoCommasRejected(a: string, b: string, c: string)
    requires |a| > 0 && |c| > 0 && AllDigits(a) && AllDigits(b) && AllDigits(c)
    ensures ParseLocaleNumber(Some(a + "," + b + "," + c)) == None
  {
    CommaFirst(a, b, c);
    UnreadableMantissa(a, b, c);
  }

  lemma {:induction false} DeleteSeparator(a: string, sep: char, b: string)
    requires Lacks(a, sep) && Lacks(b, sep)
    ensures DeleteAll(a + [sep] + b, sep) == a + b
  {
    assert a + [sep] + b == a + ([sep] + b);
    DeleteAllAppend(a, [sep] + b, sep);
    DeleteAllAbsent(a, sep);
    DeleteAllAbsent(b, sep);
  }

  /** The two grouping conventions agree: "1.234,56" and "1,234.56" are the
    * same number, the digits read with the last separator as the point. */
  lemma GroupingConventionsAgree(a: string, b: string, c: string)
    requires AllDigits(a) && AllDigits(b) && AllDigits(c) && |a| + |b| + |c| > 0
    ensures ParseLocaleNumber(Some(a + "." + b + "," + c)) == Some(PointedValue(a + b, c))
    ensures ParseLocaleNumber(Some(a + "," + b + "." + c)) == Some(PointedValue(a + b, c))
  {
    DigitsLack(a);
    DigitsLack(b);
    DigitsLack(c);
    EuropeanGrouping(a, b, c);
    EnglishGrouping(a, b, c);
  }

  /** "1.234,56": the dot groups thousands and the comma is the point. */
  lemma EuropeanGrouping(a: string, b: string, c: string)
    requires AllDigits(a) && AllDigits(b) && AllDigits(c) && |a| + |b| + |c| > 0
    requires Lacks(a, '.') && Lacks(a, ',') && Lacks(b, '.') && Lacks(b, ',') && Lacks(c, '.') && Lacks(c, ',')
    ensures ParseLocaleNumber(Some(a + "." + b + "," + c)) == Some(PointedValue(a + b, c))
  {
    var european := a + ['.'] + b;
    assert european + "," + c == a + "." + b + "," + c;
    CleanJoin(a, '.', b);
    LacksJoin(a, '.', b, ',');
    CommaDecimal(european, c);
    DeleteSeparator(a, '.', b);
    NumberOfPointed(a + b, c);
  }

  /** "1,234.56": the comma groups thousands and the dot is the point. */
  lemma EnglishGrouping(a: string, b: string, c: string)
    requires AllDigits(a) && AllDigits(b) && AllDigits(c) && |a| + |b| + |c| > 0
    requires Lacks(a, '.') && Lacks(a, ',') && Lacks(b, '.') && Lacks(b, ',') && Lacks(c, '.') && Lacks(c, ',')
    ensures ParseLocaleNumber(Some(a + "," + b + "." + c)) == Some(PointedValue(a + b, c))
  {
    var english := a + [','] + b;
    assert english + "." + c == a + "," + b + "." + c;
    CleanJoin(a, ',', b);
    LacksJoin(a, ',', b, '.');
    assert english[|a|] == ',';
    DotDecimal(english, c);
    DeleteSeparator(a, ',', b);
    NumberOfPointed(a + b, c);
  }

  /** `parseFT`'s price: every dot becomes a comma before the number is read. */
  function FtPrice(raw: Option<string>): (r: Option<real>)
    ensures raw.None? ==> r.None?
  {
    match raw
    case None => None
    case Some(s) => ParseLocaleNumber(Some(ReplaceAll(s, '.', ',')))
  }

  /** A plain decimal quote keeps its value: its dot turns into a comma, read
    * as the point. */
  lemma FtPlainDecimal(a: string, c: string)
    requires AllDigits(a) && AllDigits(c) && |a| + |c| > 0
    ensures FtPrice(Some(a + "." + c)) == Some(PointedValue(a, c))
  {
    DigitsLack(a);
    DigitsLack(c);
    var s := a + "." + c;
    var r := ReplaceAll(s, '.', ',');
    assert forall i :: 0 <= i < |s| ==> r[i] == (a + "," + c)[i];
    assert r == a + "," + c;
    CommaDecimal(a, c);
    DeleteAllAbsent(a, '.');
    NumberOfPointed(a, c);
  }

  /** A quote with a thousands comma and a decimal dot becomes two commas
    * and is rejected. */
  lemma FtGroupedRejected(a: string, b: string, c: string)
    requires |a| > 0 && |c| > 0 && AllDigits(a) && AllDigits(b) && AllDigits(c)
    ensures FtPrice(Some(a + "," + b + "." + c)) == None
  {
    var s := a + "," + b + "." + c;
    var r := ReplaceAll(s, '.', ',');
    assert forall i :: 0 <= i < |s| ==> r[i] == (a + "," + b + "," + c)[i];
    assert r == a + "," + b + "," + c;
    TwoCommasRejected(a, b, c);
  }

  // ---------------------------------------------------------------- dates

  /** The `^(\d{1,2})\/(\d{1,2})\/(\d{4})$` shape, split on '/'. */
  predicate DmyShape(parts: seq<string>) {
    |parts| == 3
    && 1 <= |parts[0]| <= 2 && AllDigits(parts[0])
    && 1 <= |parts[1]| <= 2 && AllDigits(parts[1])
    && |parts[2]| == 4 && AllDigits(parts[2])
  }

  /**
   * `parseDateFlex(s)`: null for a falsy string; a d/m/yyyy string is
   * `new Date(y, m - 1, d)`, which rolls out-of-range days and months over.
   * Any other string goes to JavaScript's free-text date parser, whose
   * reading is the parameter `freeText`.
   */
  function ParseDateFlex(s: Option<string>, freeText: Option<Day>): (r: Option<Day>)
    ensures !Truthy(s) ==> r.None?
  {
    if !Truthy(s) then None
    else
      var parts := Split(s.value, '/');
      if DmyShape(parts) then
        MakeDate(DigitsValue(parts[2]) as real, (DigitsValue(parts[1]) - 1) as real,
                 DigitsValue(parts[0]) as real)
      else freeText
  }

  /** A d/m/yyyy string is handed to the date constructor, month first
    * made an index from 0. */
  lemma {:induction false} DmyRead(dd: string, mm: string, yyyy: string, freeText: Option<Day>)
    requires 1 <= |dd| <= 2 && 1 <= |mm| <= 2 && |yyyy| == 4
    requires AllDigits(dd) && AllDigits(mm) && AllDigits(yyyy)
    ensures ParseDateFlex(Some(dd + "/" + mm + "/" + yyyy), freeText) ==
            MakeDate(DigitsValue(yyyy) as real, (DigitsValue(mm) - 1) as real, DigitsValue(dd) as real)
  {
    DmySplit(dd, mm, yyyy);
  }

  /** A valid d/m/yyyy date from year 100 on is read as that calendar day. */
  lemma {:induction false} DmyValid(dd: string, mm: string, yyyy: string, freeText: Option<Day>)
    requires 1 <= |dd| <= 2 && 1 <= |mm| <= 2 && |yyyy| == 4
    requires AllDigits(dd) && AllDigits(mm) && AllDigits(yyyy)
    requires ValidDate(Date(DigitsValue(yyyy), DigitsValue(mm), DigitsValue(dd))) && DigitsValue(yyyy) >= 100
    ensures ParseDateFlex(Some(dd + "/" + mm + "/" + yyyy), freeText) ==
            Some(DayNumber(Date(DigitsValue(yyyy), DigitsValue(mm), DigitsValue(dd))))
  {
    var y, m, d := DigitsValue(yyyy), DigitsValue(mm), DigitsValue(dd);
    DmyRead(dd, mm, yyyy, freeText);
    FourDigitsBelow(yyyy);
    FourDigitYearFits(Date(y, m, d));
    ConstructedValid(ParseDateFlex(Some(dd + "/" + mm + "/" + yyyy), freeText), y, m, d);
  }

  /** A year written 00yy is read as 19yy. */
  lemma {:induction false} DmyCenturyQuirk(dd: string, mm: string, yy: string, freeText: Option<Day>)
    requires 1 <= |dd| <= 2 && 1 <= |mm| <= 2 && |yy| == 2
    requires AllDigits(dd) && AllDigits(mm) && AllDigits(yy)
    ensures ParseDateFlex(Some(dd + "/" + mm + "/" + ("00" + yy)), freeText) ==
            ParseDateFlex(Some(dd + "/" + mm + "/" + ("19" + yy)), freeText)
  {
    var y, m, d := DigitsValue(yy), DigitsValue(mm), DigitsValue(dd);
    ReadZeroCentury(dd, mm, yy, freeText, y, m, d);
    ReadNineteenHundreds(dd, mm, yy, freeText, y, m, d);
    SameConstruction(ParseDateFlex(Some(dd + "/" + mm + "/" + ("00" + yy)), freeText),
                     ParseDateFlex(Some(dd + "/" + mm + "/" + ("19" + yy)), freeText), y, m, d);
  }

  lemma {:induction false} ReadZeroCentury(dd: string, mm: string, yy: string, freeText: Option<Day>, y: nat, m: nat, d: nat)
    requires 1 <= |dd| <= 2 && 1 <= |mm| <= 2 && |yy| == 2
    requires AllDigits(dd) && AllDigits(mm) && AllDigits(yy)
    requires DigitsValue(yy) == y && DigitsValue(mm) == m && DigitsValue(dd) == d
    ensures y <= 99
    ensures ParseDateFlex(Some(dd + "/" + mm + "/" + ("00" + yy)), freeText) == MakeDate(y as real, (m - 1) as real, d as real)
  {
    CenturyDigits(yy);
    ReadAsYear(dd, mm, "00" + yy, freeText, y, m, d);
  }

  lemma {:induction false} ReadNineteenHundreds(dd: string, mm: string, yy: string, freeText: Option<Day>, y: nat, m: nat, d: nat)
    requires 1 <= |dd| <= 2 && 1 <= |mm| <= 2 && |yy| == 2
    requires AllDigits(dd) && AllDigits(mm) && AllDigits(yy)
    requires DigitsValue(yy) == y && DigitsValue(mm) == m && DigitsValue(dd) == d
    ensures ParseDateFlex(Some(dd + "/" + mm + "/" + ("19" + yy)), freeText) == MakeDate((1900 + y) as real, (m - 1) as real, d as real)
  {
    CenturyDigits(yy);
    ReadAsYear(dd, mm, "19" + yy, freeText, 1900 + y, m, d);
  }

  /** Two dates read with years `y` and `1900 + y`, `y` below 100, agree. */
  lemma SameConstruction(early: Option<Day>, late: Option<Day>, y: nat, m: int, d: int)
    requires y <= 99
    requires early == MakeDate(y as real, (m - 1) as real, d as real)
    requires late == MakeDate((1900 + y) as real, (m - 1) as real, d as real)
    ensures early == late
  {
    TwoDigitYear(y, m, d);
  }

  /** A d/m/yyyy string whose pieces read as `d`, `m` and `y`. */
  lemma {:induction false} ReadAsYear(dd: string, mm: string, yyyy: string, freeText: Option<Day>, y: nat, m: nat, d: nat)
    requires 1 <= |dd| <= 2 && 1 <= |mm| <= 2 && |yyyy| == 4
    requires AllDigits(dd) && AllDigits(mm) && AllDigits(yyyy)
    requires DigitsValue(yyyy) == y && DigitsValue(mm) == m && DigitsValue(dd) == d
    ensures ParseDateFlex(Some(dd + "/" + mm + "/" + yyyy), freeText) ==
            MakeDate(y as real, (m - 1) as real, d as real)
  {
    DmyRead(dd, mm, yyyy, freeText);
  }

  lemma {:induction false} CenturyDigits(yy: string)
    requires |yy| == 2 && AllDigits(yy)
    ensures DigitsValue("00" + yy) == DigitsValue(yy)
    ensures DigitsValue("19" + yy) == 1900 + DigitsValue(yy)
    ensures DigitsValue(yy) <= 99
    ensures |"00" + yy| == 4 && AllDigits("00" + yy) && |"19" + yy| == 4 && AllDigits("19" + yy)
  {
    TwoDigitsValue(yy);
    FourDigits("00" + yy);
    FourDigits("19" + yy);
    assert ("00" + yy)[..2] == "00" && ("00" + yy)[2..] == yy;
    assert ("19" + yy)[..2] == "19" && ("19" + yy)[2..] == yy;
    assert DigitsValue("00") == 0 && DigitsValue("19") == 19;
  }

  lemma {:induction false} FourDigits(s: string)
    requires |s| == 4 && AllDigits(s)
    ensures DigitsValue(s) == DigitsValue(s[..2]) * 100 + DigitsValue(s[2..])
  {
    assert s[..3] == s[..|s| - 1] && s[..3][..2] == s[..2];
    assert DigitsValue(s) == DigitsValue(s[..3]) * 10 + DigitValue(s[3]);
    assert DigitsValue(s[..3]) == DigitsValue(s[..2]) * 10 + DigitValue(s[2]);
    TwoDigitsValue(s[2..]);
  }

  /** `new Date(y, …)` with `y` below 100 is `new Date(1900 + y, …)`. */
  lemma TwoDigitYear(y: nat, m: int, d: int)
    requires y <= 99
    ensures MakeDate(y as real, (m - 1) as real, d as real) == MakeDate((1900 + y) as real, (m - 1) as real, d as real)
  {
    assert Trunc(y as real) == y;
    assert Trunc((1900 + y) as real) == 1900 + y;
  }

  lemma {:induction false} DmySplit(dd: string, mm: string, yyyy: string)
    requires 1 <= |dd| <= 2 && 1 <= |mm| <= 2 && |yyyy| == 4
    requires AllDigits(dd) && AllDigits(mm) && AllDigits(yyyy)
    ensures Split(dd + "/" + mm + "/" + yyyy, '/') == [dd, mm, yyyy]
    ensures DmyShape([dd, mm, yyyy])
  {
    DigitsHaveNoSlash(dd);
    DigitsHaveNoSlash(mm);
    DigitsHaveNoSlash(yyyy);
    SplitThree(dd, mm, yyyy, '/');
    assert dd + "/" + mm + "/" + yyyy == dd + ['/'] + mm + ['/'] + yyyy;
  }

  lemma {:induction false} DigitsHaveNoSlash(s: string)
    requires AllDigits(s)
    ensures Count(s, '/') == 0
  {
    assert Lacks(s, '/');
    CountLacking(s, '/');
  }

  // ---------------------------------------------------------------- choice

  /** What one source yielded: its price and date, each possibly missing. */
  datatype Scraped = Scraped(price: Option<real>, date: Option<Day>)

  datatype Candidate = Candidate(date: Day, price: real)

  /** `TOLERANCE_DAYS_BACK`. */
  const ToleranceDays := 14

  /** Inside [today − 13, today]. */
  predicate InWindow(d: Day, today: Day) {
    today - (ToleranceDays - 1) <= d <= today
  }

  /** The sources that answered with a price and a date inside the window,
    * in source order. An absent source (a failed fetch) is None. */
  function Usable(sources: seq<Option<Scraped>>, today: Day): (cs: seq<Candidate>)
    ensures forall c :: c in cs <==>
              exists i :: 0 <= i < |sources| && sources[i].Some? && sources[i].value.price.Some? &&
                          sources[i].value.date.Some? && InWindow(sources[i].value.date.value, today) &&
                          c == Candidate(sources[i].value.date.value, sources[i].value.price.value)
  {
    if |sources| == 0 then []
    else
      var rest := Usable(sources[1..], today);
      var s := sources[0];
      var keep := s.Some? && s.value.price.Some? && s.value.date.Some? && InWindow(s.value.date.value, today);
      UsableStep(sources, today, rest);
      if keep then [Candidate(s.value.date.value, s.value.price.value)] + rest else rest
  }

  predicate Admits(src: Option<Scraped>, today: Day, c: Candidate) {
    src.Some? && src.value.price.Some? && src.value.date.Some? && InWindow(src.value.date.value, today) &&
    c == Candidate(src.value.date.value, src.value.price.value)
  }

  lemma UsableStep(sources: seq<Option<Scraped>>, today: Day, rest: seq<Candidate>)
    requires |sources| > 0
    requires forall c :: c in rest <==> exists i :: 0 <= i < |sources| - 1 && Admits(sources[1..][i], today, c)
    ensures forall c :: (exists i :: 0 <= i < |sources| && Admits(sources[i], today, c)) <==>
              Admits(sources[0], today, c) || c in rest
  {
    forall c | exists i :: 0 <= i < |sources| && Admits(sources[i], today, c)
      ensures Admits(sources[0], today, c) || c in rest
    {
      var i :| 0 <= i < |sources| && Admits(sources[i], today, c);
      if i > 0 {
        assert sources[1..][i - 1] == sources[i];
      }
    }
    forall c | c in rest ensures exists i :: 0 <= i < |sources| && Admits(sources[i], today, c) {
      var i :| 0 <= i < |sources| - 1 && Admits(sources[1..][i], today, c);
      assert sources[i + 1] == sources[1..][i];
    }
  }

  /** `candidates.sort(newest first)[0]`: the sort is stable, so among the
    * newest candidates the first in source order wins. */
  function NewestIndex(cs: seq<Candidate>): (k: nat)
    requires |cs| > 0
    ensures k < |cs|
    ensures forall j :: 0 <= j < |cs| ==> cs[j].date <= cs[k].date
    ensures forall j :: 0 <= j < k ==> cs[j].date < cs[k].date
  {
    if |cs| == 1 then 0
    else
      var r := 1 + NewestIndex(cs[1..]);
      if cs[0].date >= cs[r].date then 0 else r
  }

  /** A regex capture as the parsers keep it: absent when the pattern did
    * not match or captured "", otherwise trimmed. */
  function Captured(raw: Option<string>): (r: Option<string>)
    ensures r.Some? <==> Truthy(raw)
    ensures r.Some? ==> r.value == Trim(raw.value)
  {
    if Truthy(raw) then Some(Trim(raw.value)) else None
  }

  /** `parseQuefondos` once its two regexes have run. */
  function FromQuefondos(rawPrice: Option<string>, rawDate: Option<string>, freeText: Option<Day>): (s: Scraped)
    ensures !Truthy(rawPrice) ==> s.price.None?
    ensures !Truthy(rawDate) ==> s.date.None?
  {
    Scraped(ParseLocaleNumber(Captured(rawPrice)), ParseDateFlex(Captured(rawDate), freeText))
  }

  /** `parseFT` once its two regexes have run: the captured price has its
    * dots made commas. */
  function FromFt(rawPrice: Option<string>, rawDate: Option<string>, freeText: Option<Day>): (s: Scraped)
    ensures !Truthy(rawPrice) ==> s.price.None?
    ensures !Truthy(rawDate) ==> s.date.None?
  {
    Scraped(FtPrice(Captured(rawPrice)), ParseDateFlex(Captured(rawDate), freeText))
  }

  /** A captured price of only spaces is trimmed to "" and read as 0, which
    * is a price: the candidate is not dropped. */
  lemma BlankCaptureIsZero(n: nat, rawDate: Option<string>, freeText: Option<Day>)
    requires n > 0
    ensures FromQuefondos(Some(seq(n, _ => ' ')), rawDate, freeText).price == Some(0.0)
  {
    var sp: string := seq(n, _ => ' ');
    assert forall i :: 0 <= i < |sp| ==> IsJsWhitespace(sp[i]);
    TrimEmptyIff(sp);
    assert Compact("") == "";
  }

  /** The decision for one fund. */
  datatype Verdict = Insert(day: Day, price: real) | Skip

  /** The per-fund rule: no usable candidate, a choice not strictly newer
    * than the last stored date, or a (ticker, day) already priced, skips;
    * otherwise the newest candidate is inserted. */
  function Decide(sources: seq<Option<Scraped>>, today: Day, lastDate: Option<Day>,
                  prices: seq<PriceRow>, isin: string): (v: Verdict)
    ensures v.Insert? ==>
              Candidate(v.day, v.price) in Usable(sources, today) &&
              InWindow(v.day, today) &&
              (forall c :: c in Usable(sources, today) ==> c.date <= v.day) &&
              (lastDate.None? || lastDate.value < v.day) &&
              !HasKey(prices, isin, v.day)
    ensures Usable(sources, today) == [] ==> v == Skip
    ensures var cs := Usable(sources, today);
            |cs| > 0 ==>
              var chosen := cs[NewestIndex(cs)];
              (v == Skip <==> (lastDate.Some? && chosen.date <= lastDate.value) || HasKey(prices, isin, chosen.date))
  {
    var cs := Usable(sources, today);
    if |cs| == 0 then Skip
    else
      var chosen := cs[NewestIndex(cs)];
      assert chosen in cs;
      if lastDate.Some? && chosen.date <= lastDate.value then Skip
      else if HasKey(prices, isin, chosen.date) then Skip
      else
        forall c | c in cs ensures c.date <= chosen.date {
          var j :| 0 <= j < |cs| && cs[j] == c;
        }
        Insert(chosen.date, chosen.price)
  }

  /** Two sources dated the same day: the first source's price is taken. */
  lemma TieKeepsFirstSource(d: Day, p1: real, p2: real, today: Day, prices: seq<PriceRow>, isin: string)
    requires InWindow(d, today) && !HasKey(prices, isin, d)
    ensures Decide([Some(Scraped(Some(p1), Some(d))), Some(Scraped(Some(p2), Some(d)))], today, None, prices, isin) ==
            Insert(d, p1)
  {
    var sources := [Some(Scraped(Some(p1), Some(d))), Some(Scraped(Some(p2), Some(d)))];
    var cs := Usable(sources, today);
    assert Usable(sources[1..], today) == [Candidate(d, p2)] by {
      assert sources[1..][1..] == [];
    }
    assert cs == [Candidate(d, p1), Candidate(d, p2)];
    assert NewestIndex(cs) == 0 by {
      assert cs[1..] == [Candidate(d, p2)];
    }
  }

  // ---------------------------------------------------------------- the run

  /** A fund to check: its ticker and `MAX(date)` of its prices. */
  datatype Fund = Fund(ticker: string, lastDate: Option<Day>)

  /** The run's counters (`errors` stays empty: database failures are not
    * modelled). */
  datatype Report = Report(checked: nat, updated: nat, skipped: nat)

  /** `MAX(date)` of a ticker's price rows; None (NULL) when it has none. */
  function LastPriceDate(prices: seq<PriceRow>, t: string): (r: Option<Day>)
    ensures r.None? <==> forall p :: p in prices ==> p.ticker != t
    ensures r.Some? ==> (exists p :: p in prices && p.ticker == t && p.date == r.value) &&
                        forall p :: p in prices && p.ticker == t ==> p.date <= r.value
  {
    if |prices| == 0 then None
    else
      var rest := LastPriceDate(prices[1..], t);
      assert forall p :: p in prices <==> p == prices[0] || p in prices[1..];
      if prices[0].ticker != t then rest
      else if rest.None? || rest.value <= prices[0].date then Some(prices[0].date)
      else rest
  }

  /**
   * The funds to check. With a ticker: the fund positions on that ticker,
   * whatever their last price. Without: every fund position whose last price
   * is missing or older than today. The `ORDER BY ticker` is not modelled:
   * the positions are in table order.
   */
  function SelectFunds(positions: seq<Position>, prices: seq<PriceRow>, ticker: string, today: Day)
    : (fs: seq<Fund>)
    ensures forall f :: f in fs ==> f.lastDate == LastPriceDate(prices, f.ticker)
    ensures forall f :: f in fs <==>
              (exists p :: p in positions && p.assetType == "fund" && p.ticker == f.ticker &&
                 (if ticker != "" then p.ticker == ticker
                  else LastPriceDate(prices, p.ticker).None? || LastPriceDate(prices, p.ticker).value < today)) &&
              f.lastDate == LastPriceDate(prices, f.ticker)
  {
    if |positions| == 0 then []
    else
      var p := positions[0];
      var rest := SelectFunds(positions[1..], prices, ticker, today);
      var last := LastPriceDate(prices, p.ticker);
      var pick := p.assetType == "fund" &&
                  (if ticker != "" then p.ticker == ticker else last.None? || last.value < today);
      assert forall q :: q in positions <==> q == p || q in positions[1..];
      if pick then [Fund(p.ticker, last)] + rest else rest
  }

  /** The loop over the selected funds: each is counted as checked and as
    * exactly one of updated and skipped; inserted rows are appended. */
  function RunFunds(funds: seq<Fund>, scrape: string -> seq<Option<Scraped>>, today: Day, prices: seq<PriceRow>)
    : (r: (Report, seq<PriceRow>))
    ensures r.0.checked == |funds| && r.0.updated + r.0.skipped == r.0.checked
    ensures |r.1| == |prices| + r.0.updated && r.1[..|prices|] == prices
    decreases |funds|
  {
    if |funds| == 0 then (Report(0, 0, 0), prices)
    else
      var f := funds[0];
      var isin := Trim(f.ticker);
      match Decide(scrape(isin), today, f.lastDate, prices, isin)
      case Skip =>
        var (rep, out) := RunFunds(funds[1..], scrape, today, prices);
        (Report(rep.checked + 1, rep.updated, rep.skipped + 1), out)
      case Insert(d, p) =>
        var next := prices + [PriceRow(isin, d, p)];
        var (rep, out) := RunFunds(funds[1..], scrape, today, next);
        assert out[..|prices|] == next[..|prices|];
        (Report(rep.checked + 1, rep.updated + 1, rep.skipped), out)
  }

  /** Every row the run adds carries the trimmed ticker of a fund it checked. */
  lemma {:induction false} RunRowsFromFunds(funds: seq<Fund>, scrape: string -> seq<Option<Scraped>>, today: Day,
                                            prices: seq<PriceRow>, k: nat)
    requires |prices| <= k < |RunFunds(funds, scrape, today, prices).1|
    ensures exists f :: f in funds && RunFunds(funds, scrape, today, prices).1[k].ticker == Trim(f.ticker)
    decreases |funds|
  {
    var f := funds[0];
    var isin := Trim(f.ticker);
    match Decide(scrape(isin), today, f.lastDate, prices, isin)
    case Skip =>
      RunRowsFromFunds(funds[1..], scrape, today, prices, k);
      var g :| g in funds[1..] && RunFunds(funds[1..], scrape, today, prices).1[k].ticker == Trim(g.ticker);
      assert g in funds;
    case Insert(d, p) =>
      var next := prices + [PriceRow(isin, d, p)];
      var out := RunFunds(funds[1..], scrape, today, next).1;
      assert out[..|next|] == next;
      if k == |prices| {
        assert out[k] == next[k];
        assert f in funds;
      } else {
        RunRowsFromFunds(funds[1..], scrape, today, next, k);
        var g :| g in funds[1..] && out[k].ticker == Trim(g.ticker);
        assert g in funds;
      }
  }

  /** Every row the run adds is the first price for its (ticker, day). */
  lemma {:induction false} RunAddsFreshKeys(funds: seq<Fund>, scrape: string -> seq<Option<Scraped>>, today: Day,
                                            prices: seq<PriceRow>, k: nat)
    requires |prices| <= k < |RunFunds(funds, scrape, today, prices).1|
    ensures var out := RunFunds(funds, scrape, today, prices).1;
            InWindow(out[k].date, today) && !HasKey(out[..k], out[k].ticker, out[k].date)
    decreases |funds|
  {
    var f := funds[0];
    var isin := Trim(f.ticker);
    match Decide(scrape(isin), today, f.lastDate, prices, isin)
    case Skip =>
      RunAddsFreshKeys(funds[1..], scrape, today, prices, k);
    case Insert(d, p) =>
      var next := prices + [PriceRow(isin, d, p)];
      var out := RunFunds(funds[1..], scrape, today, next).1;
      assert out[..|next|] == next;
      if k == |prices| {
        assert out[..k] == prices;
        assert out[k] == next[k];
      } else {
        RunAddsFreshKeys(funds[1..], scrape, today, next, k);
      }
  }

  /** Every row the run adds is the verdict `Decide` gives its fund on the
    * prices as they stood when that fund's turn came: the newest usable
    * candidate, strictly newer than the fund's last date. */
  lemma {:induction false} RunRowsDecided(funds: seq<Fund>, scrape: string -> seq<Option<Scraped>>, today: Day,
                                          prices: seq<PriceRow>, k: nat)
    requires |prices| <= k < |RunFunds(funds, scrape, today, prices).1|
    ensures var out := RunFunds(funds, scrape, today, prices).1;
            exists f :: f in funds && out[k].ticker == Trim(f.ticker) &&
              Decide(scrape(Trim(f.ticker)), today, f.lastDate, out[..k], Trim(f.ticker)) ==
              Insert(out[k].date, out[k].closingPrice)
    decreases |funds|
  {
    var f := funds[0];
    var isin := Trim(f.ticker);
    match Decide(scrape(isin), today, f.lastDate, prices, isin)
    case Skip =>
      RunRowsDecided(funds[1..], scrape, today, prices, k);
      var out := RunFunds(funds, scrape, today, prices).1;
      var g :| g in funds[1..] && out[k].ticker == Trim(g.ticker) &&
               Decide(scrape(Trim(g.ticker)), today, g.lastDate, out[..k], Trim(g.ticker)) ==
               Insert(out[k].date, out[k].closingPrice);
      assert g in funds;
    case Insert(d, p) =>
      var next := prices + [PriceRow(isin, d, p)];
      var out := RunFunds(funds[1..], scrape, today, next).1;
      assert out[..|next|] == next;
      if k == |prices| {
        assert out[..k] == prices;
        assert out[k] == next[k];
        assert f in funds;
      } else {
        RunRowsDecided(funds[1..], scrape, today, next, k);
        var g :| g in funds[1..] && out[k].ticker == Trim(g.ticker) &&
                 Decide(scrape(Trim(g.ticker)), today, g.lastDate, out[..k], Trim(g.ticker)) ==
                 Insert(out[k].date, out[k].closingPrice);
        assert g in funds;
      }
  }

  /** The counters of two runs, one after the other. */
  function Plus(a: Report, b: Report): (r: Report)
    ensures r.checked == a.checked + b.checked && r.updated == a.updated + b.updated
    ensures r.skipped == a.skipped + b.skipped
  {
    Report(a.checked + b.checked, a.updated + b.updated, a.skipped + b.skipped)
  }

  /** Running two lists of funds in turn is running their concatenation. */
  lemma {:induction false} RunFundsSplit(a: seq<Fund>, b: seq<Fund>, scrape: string -> seq<Option<Scraped>>,
                                         today: Day, prices: seq<PriceRow>)
    ensures var mid := RunFunds(a, scrape, today, prices).1;
            RunFunds(a + b, scrape, today, prices).1 == RunFunds(b, scrape, today, mid).1
    ensures var mid := RunFunds(a, scrape, today, prices).1;
            RunFunds(a + b, scrape, today, prices).0 ==
            Plus(RunFunds(a, scrape, today, prices).0, RunFunds(b, scrape, today, mid).0)
    decreases |a|
  {
    if |a| == 0 {
      assert a + b == b;
    } else {
      var c := a + b;
      assert c[0] == a[0];
      assert c[1..] == a[1..] + b;
      var isin := Trim(a[0].ticker);
      var next := match Decide(scrape(isin), today, a[0].lastDate, prices, isin)
                  case Skip => prices
                  case Insert(d, p) => prices + [PriceRow(isin, d, p)];
      RunFundsSplit(a[1..], b, scrape, today, next);
      RunFundsStep(a, scrape, today, prices);
      RunFundsStep(c, scrape, today, prices);
    }
  }

  /** One turn of the loop: the first fund's verdict, then the rest. */
  lemma RunFundsStep(funds: seq<Fund>, scrape: string -> seq<Option<Scraped>>, today: Day, prices: seq<PriceRow>)
    requires |funds| > 0
    ensures var isin := Trim(funds[0].ticker);
            var v := Decide(scrape(isin), today, funds[0].lastDate, prices, isin);
            var next := if v.Insert? then prices + [PriceRow(isin, v.day, v.price)] else prices;
            var rest := RunFunds(funds[1..], scrape, today, next);
            RunFunds(funds, scrape, today, prices) ==
            (Plus(Report(1, if v.Insert? then 1 else 0, if v.Insert? then 0 else 1), rest.0), rest.1)
  {
  }

  /** Each fund's verdict, on the prices the funds before it left, decides
    * exactly what its turn appends: its row when the verdict is Insert,
    * nothing when it is Skip. */
  lemma FundVerdictStored(funds: seq<Fund>, scrape: string -> seq<Option<Scraped>>, today: Day,
                          prices: seq<PriceRow>, i: nat)
    requires i < |funds|
    ensures var before := RunFunds(funds[..i], scrape, today, prices).1;
            var after := RunFunds(funds[..i + 1], scrape, today, prices).1;
            var out := RunFunds(funds, scrape, today, prices).1;
            var isin := Trim(funds[i].ticker);
            |before| <= |after| <= |out| && out[..|after|] == after && after[..|before|] == before &&
            match Decide(scrape(isin), today, funds[i].lastDate, before, isin)
            case Insert(d, p) => after == before + [PriceRow(isin, d, p)]
            case Skip => after == before
  {
    var before := RunFunds(funds[..i], scrape, today, prices).1;
    assert funds[..i + 1] == funds[..i] + [funds[i]];
    assert funds == funds[..i + 1] + funds[i + 1..];
    RunFundsSplit(funds[..i], [funds[i]], scrape, today, prices);
    RunFundsSplit(funds[..i + 1], funds[i + 1..], scrape, today, prices);
    var isin := Trim(funds[i].ticker);
    assert [funds[i]][1..] == [];
    match Decide(scrape(isin), today, funds[i].lastDate, before, isin)
    case Insert(d, p) =>
      assert RunFunds([funds[i]], scrape, today, before).1 == before + [PriceRow(isin, d, p)];
    case Skip =>
      assert RunFunds([funds[i]], scrape, today, before).1 == before;
  }

  /** The service's argument: nothing, an options object with an optional
    * `ticker`, or a bare string (which has no `ticker` property). */
  datatype Arg = NoArg | Options(ticker: Option<string>) | Bare(text: string)

  /** `{ ticker = "" } = arg`. */
  function TickerOf(arg: Arg): (t: string)
    ensures arg.Options? && arg.ticker.Some? ==> t == arg.ticker.value
    ensures arg.NoArg? || arg.Bare? ==> t == ""
  {
    match arg
    case Options(Some(t)) => t
    case _ => ""
  }

  /** `runUpdateLastPrices(arg)` over the tables and the scraped sources:
    * every selected fund is checked, and a row is added only for a fund
    * position, and only for the named one when a ticker is given. */
  function RunUpdateLastPrices(db: Db, arg: Arg, scrape: string -> seq<Option<Scraped>>, today: Day)
    : (r: (Report, Db))
    ensures r.1.operations == db.operations && r.1.currentAssets == db.currentAssets
    ensures r.0.checked == |SelectFunds(db.currentAssets, db.prices, TickerOf(arg), today)|
    ensures r.0.updated + r.0.skipped == r.0.checked
    ensures |r.1.prices| == |db.prices| + r.0.updated && r.1.prices[..|db.prices|] == db.prices
    ensures forall k :: |db.prices| <= k < |r.1.prices| ==>
              exists p :: p in db.currentAssets && p.assetType == "fund" && r.1.prices[k].ticker == Trim(p.ticker) &&
                          (TickerOf(arg) != "" ==> p.ticker == TickerOf(arg))
  {
    var funds := SelectFunds(db.currentAssets, db.prices, TickerOf(arg), today);
    var (rep, prices) := RunFunds(funds, scrape, today, db.prices);
    forall k | |db.prices| <= k < |prices|
      ensures exists p :: p in db.currentAssets && p.assetType == "fund" && prices[k].ticker == Trim(p.ticker) &&
                          (TickerOf(arg) != "" ==> p.ticker == TickerOf(arg))
    {
      RunRowsFromFunds(funds, scrape, today, db.prices, k);
      var f :| f in funds && prices[k].ticker == Trim(f.ticker);
      var p :| p in db.currentAssets && p.assetType == "fund" && p.ticker == f.ticker &&
               (if TickerOf(arg) != "" then p.ticker == TickerOf(arg)
                else LastPriceDate(db.prices, p.ticker).None? || LastPriceDate(db.prices, p.ticker).value < today);
    }
    (rep, db.(prices := prices))
  }

  /** The updater stores what its loop decides: every added row is the
    * verdict of a selected fund on the prices its turn found, and each
    * selected fund's Insert verdict is appended in its turn. */
  lemma UpdateStoresVerdicts(db: Db, arg: Arg, scrape: string -> seq<Option<Scraped>>, today: Day, i: nat)
    requires i < |SelectFunds(db.currentAssets, db.prices, TickerOf(arg), today)|
    ensures var funds := SelectFunds(db.currentAssets, db.prices, TickerOf(arg), today);
            var before := RunFunds(funds[..i], scrape, today, db.prices).1;
            var out := RunUpdateLastPrices(db, arg, scrape, today).1.prices;
            var isin := Trim(funds[i].ticker);
            var v := Decide(scrape(isin), today, funds[i].lastDate, before, isin);
            |before| <= |out| && out[..|before|] == before &&
            (v.Insert? ==> |out| > |before| && out[|before|] == PriceRow(isin, v.day, v.price))
  {
    var funds := SelectFunds(db.currentAssets, db.prices, TickerOf(arg), today);
    var before := RunFunds(funds[..i], scrape, today, db.prices).1;
    var after := RunFunds(funds[..i + 1], scrape, today, db.prices).1;
    var out := RunUpdateLastPrices(db, arg, scrape, today).1.prices;
    UpdateIsLoop(db, arg, scrape, today);
    assert out == RunFunds(funds, scrape, today, db.prices).1;
    FundVerdictStored(funds, scrape, today, db.prices, i);
    assert out[..|after|] == after && after[..|before|] == before;
    assert out[..|before|] == before;
    var isin := Trim(funds[i].ticker);
    var v := Decide(scrape(isin), today, funds[i].lastDate, before, isin);
    if v.Insert? {
      assert after == before + [PriceRow(isin, v.day, v.price)];
      assert out[|before|] == after[|before|];
    }
  }

  /** The updater's prices are its loop's over the selected funds. */
  lemma UpdateIsLoop(db: Db, arg: Arg, scrape: string -> seq<Option<Scraped>>, today: Day)
    ensures RunUpdateLastPrices(db, arg, scrape, today).1.prices ==
            RunFunds(SelectFunds(db.currentAssets, db.prices, TickerOf(arg), today), scrape, today, db.prices).1
  {
  }
}
