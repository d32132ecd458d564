/**
 * Price text of one listing: the currency prefix cut off when the listing is
 * scraped, the German separators rewritten, and the text parsed into a number
 * the way `clean_price` does with Python's `re` (data.py).
 */
module Price {
  import opened Options
  import opened Text
  import Stats

  // ---------------------------------------------------------------------------
  // Currency prefix and separators
  // ---------------------------------------------------------------------------

  /** Python's `text[4:]`: drops the first four characters ("EUR "), or everything when shorter. */
  function StripCurrencyPrefix(t: seq<char>): (r: seq<char>)
    ensures |t| >= 4 ==> t == t[..4] + r
    ensures |t| < 4 ==> r == []
  {
    if |t| >= 4 then t[4..] else []
  }

  lemma StripEurPrefix(amount: seq<char>)
    ensures StripCurrencyPrefix("EUR " + amount) == amount
  {
    assert ("EUR " + amount)[4..] == amount;
  }

  /** `str.replace('.', '')`: every point is deleted. */
  function RemoveDots(s: seq<char>): (r: seq<char>)
    ensures forall i :: 0 <= i < |r| ==> r[i] != '.'
  {
    if s == [] then [] else (if s[0] == '.' then [] else [s[0]]) + RemoveDots(s[1..])
  }

  /** Deleting the points keeps every other character, as often as it occurs. */
  lemma {:induction false} RemoveDotsCounts(s: seq<char>)
    ensures multiset(RemoveDots(s))['.'] == 0
    ensures forall c :: c != '.' ==> multiset(RemoveDots(s))[c] == multiset(s)[c]
    ensures |RemoveDots(s)| == |s| - multiset(s)['.']
  {
    if s != [] {
      var head: seq<char> := if s[0] == '.' then [] else [s[0]];
      RemoveDotsCounts(s[1..]);
      assert multiset(s) == multiset([s[0]]) + multiset(s[1..]) by {
        assert s == [s[0]] + s[1..];
      }
      assert multiset(RemoveDots(s)) == multiset(head) + multiset(RemoveDots(s[1..]));
    }
  }

  /** `str.replace(',', '.')`: every comma becomes a point, position by position. */
  function CommasToDots(s: seq<char>): (r: seq<char>)
    ensures |r| == |s|
    ensures forall i :: 0 <= i < |s| ==> r[i] == if s[i] == ',' then '.' else s[i]
  {
    if s == [] then [] else [if s[0] == ',' then '.' else s[0]] + CommasToDots(s[1..])
  }

  /** Both replacements of data.py:117, in the source's order. */
  function NormalizeSeparators(s: seq<char>): (r: seq<char>)
    ensures |r| == |RemoveDots(s)|
    ensures forall i :: 0 <= i < |r| ==> r[i] != ','
    ensures forall i :: 0 <= i < |r| ==> (r[i] == '.' <==> RemoveDots(s)[i] == ',')
  {
    CommasToDots(RemoveDots(s))
  }

  lemma {:induction false} CommasToDotsCounts(s: seq<char>)
    ensures multiset(CommasToDots(s))[','] == 0
    ensures multiset(CommasToDots(s))['.'] == multiset(s)['.'] + multiset(s)[',']
    ensures forall c :: c != '.' && c != ',' ==> multiset(CommasToDots(s))[c] == multiset(s)[c]
  {
    if s != [] {
      var r := CommasToDots(s);
      var h := if s[0] == ',' then '.' else s[0];
      CommasToDotsCounts(s[1..]);
      assert multiset(s) == multiset([s[0]]) + multiset(s[1..]) by {
        assert s == [s[0]] + s[1..];
      }
      assert multiset(r) == multiset([h]) + multiset(CommasToDots(s[1..])) by {
        assert r == [h] + CommasToDots(s[1..]);
      }
    }
  }

  /**
   * After normalisation no comma is left, each point stands for exactly one
   * comma of the input, every other character is kept, and the text is shorter
   * by the number of points the input had.
   */
  lemma NormalizeSeparatorsCounts(s: seq<char>)
    ensures multiset(NormalizeSeparators(s))[','] == 0
    ensures multiset(NormalizeSeparators(s))['.'] == multiset(s)[',']
    ensures forall c :: c != '.' && c != ',' ==> multiset(NormalizeSeparators(s))[c] == multiset(s)[c]
    ensures |NormalizeSeparators(s)| == |s| - multiset(s)['.']
  {
    RemoveDotsCounts(s);
    CommasToDotsCounts(RemoveDots(s));
  }

  /** A text has no digit exactly when no digit has a positive count in it. */
  lemma NoDigitByCount(s: seq<char>)
    ensures NoDigit(s) <==> forall c :: IsDigit(c) ==> multiset(s)[c] == 0
  {
    if !NoDigit(s) {
      var i :| 0 <= i < |s| && IsDigit(s[i]);
      assert s[i] in multiset(s);
    }
  }

  /** Separator normalisation neither removes nor adds a digit. */
  lemma NormalizeSeparatorsKeepsDigits(s: seq<char>)
    ensures NoDigit(NormalizeSeparators(s)) <==> NoDigit(s)
  {
    NormalizeSeparatorsCounts(s);
    NoDigitByCount(s);
    NoDigitByCount(NormalizeSeparators(s));
  }

  lemma {:induction false} RemoveDotsWithoutDots(s: seq<char>)
    requires '.' !in s
    ensures RemoveDots(s) == s
  {
    if s != [] {
      assert '.' !in s[1..];
      RemoveDotsWithoutDots(s[1..]);
    }
  }

  lemma {:induction false} RemoveDotsConcat(a: seq<char>, b: seq<char>)
    ensures RemoveDots(a + b) == RemoveDots(a) + RemoveDots(b)
  {
    if a != [] {
      var head: seq<char> := if a[0] == '.' then [] else [a[0]];
      calc {
        RemoveDots(a + b);
      == { assert (a + b)[0] == a[0]; assert (a + b)[1..] == a[1..] + b; }
        head + RemoveDots(a[1..] + b);
      == { RemoveDotsConcat(a[1..], b); }
        head + (RemoveDots(a[1..]) + RemoveDots(b));
      ==
        (head + RemoveDots(a[1..])) + RemoveDots(b);
      ==
        RemoveDots(a) + RemoveDots(b);
      }
    } else {
      assert a + b == b;
    }
  }

  /** The two separator examples: "1.234,56" becomes "1234.56" and "29,95" becomes "29.95". */
  lemma SeparatorExamples(thousands: seq<char>, plain: seq<char>)
    requires thousands == "1.234,56" && plain == "29,95"
    ensures NormalizeSeparators(thousands) == "1234.56"
    ensures NormalizeSeparators(plain) == "29.95"
  {
    ThousandsSeparators(thousands);
    CommaSeparator(plain);
  }

  lemma ThousandsSeparators(thousands: seq<char>)
    requires thousands == "1.234,56"
    ensures NormalizeSeparators(thousands) == "1234.56"
  {
    ThousandsRemoveDots(thousands);
    CommasToDotsExample("1234,56", "1234.56");
  }

  lemma CommaSeparator(plain: seq<char>)
    requires plain == "29,95"
    ensures NormalizeSeparators(plain) == "29.95"
  {
    RemoveDotsWithoutDots(plain);
    CommasToDotsExample(plain, "29.95");
  }


  lemma ThousandsRemoveDots(thousands: seq<char>)
    requires thousands == "1.234,56"
    ensures RemoveDots(thousands) == "1234,56"
  {
    var tail: seq<char> := "234,56";
    assert thousands == ['1', '.'] + tail;
    assert '.' !in tail;
    RemoveDotsAfterDigit('1', tail);
  }

  /** A point after the first character is deleted; a tail without points is kept. */
  lemma RemoveDotsAfterDigit(d: char, tail: seq<char>)
    requires d != '.' && '.' !in tail
    ensures RemoveDots([d, '.'] + tail) == [d] + tail
  {
    var s := [d, '.'] + tail;
    var rest := ['.'] + tail;
    assert s[0] == d && s[1..] == rest;
    assert rest[0] == '.' && rest[1..] == tail;
    assert RemoveDots(rest) == RemoveDots(tail);
    assert RemoveDots(s) == [d] + RemoveDots(rest);
    RemoveDotsWithoutDots(tail);
  }

  /** CommasToDots checked position by position against an expected text. */
  lemma CommasToDotsExample(s: seq<char>, t: seq<char>)
    requires |s| == |t|
    requires forall i :: 0 <= i < |s| ==> t[i] == if s[i] == ',' then '.' else s[i]
    ensures CommasToDots(s) == t
  {
  }

  // ---------------------------------------------------------------------------
  // Numerals and their values (Python's float() on an exact real)
  // ---------------------------------------------------------------------------

  /** Index of the first '.' in `t`, or |t| when there is none. */
  function DotIndex(t: seq<char>): (k: nat)
    ensures k <= |t|
    ensures k < |t| ==> t[k] == '.'
    ensures forall j :: 0 <= j < k ==> t[j] != '.'
  {
    if t == [] then 0 else if t[0] == '.' then 0 else 1 + DotIndex(t[1..])
  }

  /** Text of the shape `\d+\.\d+`. */
  predicate IsDecimalToken(t: seq<char>) {
    var k := DotIndex(t);
    0 < k < |t| - 1 && AllDigits(t[..k]) && AllDigits(t[k + 1..])
  }

  /** Text of the shape `\d+`. */
  predicate IsIntegerToken(t: seq<char>) {
    |t| > 0 && AllDigits(t)
  }

  predicate IsNumeral(t: seq<char>) {
    IsIntegerToken(t) || IsDecimalToken(t)
  }

  /** A text of digits, a point and digits, with its point at index k, is a decimal token. */
  lemma DecimalShape(t: seq<char>, k: nat)
    requires 0 < k < |t| - 1 && t[k] == '.'
    requires AllDigits(t[..k]) && AllDigits(t[k + 1..])
    ensures DotIndex(t) == k && IsDecimalToken(t)
  {
    assert forall j :: 0 <= j < k ==> t[j] != '.' by {
      forall j | 0 <= j < k ensures t[j] != '.' {
        assert t[..k][j] == t[j];
      }
    }
  }

  function Pow10(n: nat): (p: nat)
    ensures p >= 1
  {
    if n == 0 then 1 else 10 * Pow10(n - 1)
  }

  function DigitValue(c: char): nat
    requires IsDigit(c)
  {
    (c as int - '0' as int) as nat
  }

  /** The value of a decimal digit string, most significant digit first. */
  function DigitsValue(ds: seq<char>): nat
    requires AllDigits(ds)
  {
    if ds == [] then 0
    else
      assert AllDigits(ds[..|ds| - 1]) by {
        assert forall i :: 0 <= i < |ds| - 1 ==> ds[..|ds| - 1][i] == ds[i];
      }
      10 * DigitsValue(ds[..|ds| - 1]) + DigitValue(ds[|ds| - 1])
  }

  lemma {:induction false} DigitsValueBelowPow10(ds: seq<char>)
    requires AllDigits(ds)
    ensures DigitsValue(ds) < Pow10(|ds|)
  {
    if ds != [] {
      var init := ds[..|ds| - 1];
      assert forall i :: 0 <= i < |init| ==> init[i] == ds[i];
      DigitsValueBelowPow10(init);
    }
  }

  /** Digits after the point: their value over a power of ten, a fraction in [0, 1). */
  function FractionValue(ds: seq<char>): (f: real)
    requires AllDigits(ds)
    ensures 0.0 <= f < 1.0
  {
    DigitsValueBelowPow10(ds);
    FractionBelowOne(DigitsValue(ds) as real, Pow10(|ds|) as real);
    DigitsValue(ds) as real / Pow10(|ds|) as real
  }

  lemma FractionBelowOne(a: real, p: real)
    requires 0.0 <= a < p
    ensures 0.0 <= a / p < 1.0
  {
    assert a / p * p == a;
  }

  /** Python's `float(t)` on a numeral, as an exact real. */
  function ParseFloat(t: seq<char>): (v: real)
    requires IsNumeral(t)
    ensures v >= 0.0
  {
    var k := DotIndex(t);
    assert AllDigits(t[..k]) by {
      if IsIntegerToken(t) {
        assert forall j :: 0 <= j < |t| ==> t[j] != '.';
        assert k == |t| && t[..k] == t;
      }
    }
    DigitsValue(t[..k]) as real + if k < |t| then FractionValue(t[k + 1..]) else 0.0
  }

  /** The integer part of the parsed value is the number written before the point. */
  lemma ParseFloatWholePart(t: seq<char>)
    requires IsNumeral(t)
    ensures AllDigits(t[..DotIndex(t)])
    ensures DigitsValue(t[..DotIndex(t)]) as real <= ParseFloat(t) < DigitsValue(t[..DotIndex(t)]) as real + 1.0
  {
    var k := DotIndex(t);
    if IsIntegerToken(t) {
      assert forall j :: 0 <= j < |t| ==> t[j] != '.';
      assert t[..k] == t;
    }
  }

  /** Appending a digit multiplies the value by ten and adds that digit. */
  lemma DigitsValueSnoc(ds: seq<char>, c: char)
    requires AllDigits(ds) && IsDigit(c)
    ensures AllDigits(ds + [c])
    ensures DigitsValue(ds + [c]) == 10 * DigitsValue(ds) + DigitValue(c)
  {
    assert (ds + [c])[..|ds|] == ds;
  }

  /** A numeral without a point is worth the number its digits write. */
  lemma ParseFloatInteger(t: seq<char>)
    requires IsIntegerToken(t)
    ensures ParseFloat(t) == DigitsValue(t) as real
  {
    assert forall j :: 0 <= j < |t| ==> t[j] != '.';
    assert t[..DotIndex(t)] == t;
  }

  /** A numeral with a point at k: the whole part plus the digits after it over 10^(their count). */
  lemma ParseFloatDecimal(t: seq<char>, k: nat)
    requires 0 < k < |t| - 1 && t[k] == '.'
    requires AllDigits(t[..k]) && AllDigits(t[k + 1..])
    ensures IsDecimalToken(t)
    ensures ParseFloat(t) == DigitsValue(t[..k]) as real + DigitsValue(t[k + 1..]) as real / Pow10(|t| - k - 1) as real
  {
    DecimalShape(t, k);
    var frac := t[k + 1..];
    assert |frac| == |t| - k - 1;
    assert FractionValue(frac) == DigitsValue(frac) as real / Pow10(|frac|) as real;
    assert ParseFloat(t) == DigitsValue(t[..k]) as real + FractionValue(frac);
  }

  // ---------------------------------------------------------------------------
  // The regular expressions of clean_price
  // ---------------------------------------------------------------------------

  /** A match: the text s[start..end]. */
  datatype Span = Span(start: nat, end: nat)

  /** End of the longest run of digits that starts at i. */
  function DigitRunEnd(s: seq<char>, i: nat): (j: nat)
    requires i <= |s|
    ensures i <= j <= |s|
    ensures AllDigits(s[i..j])
    ensures j == |s| || !IsDigit(s[j])
    decreases |s| - i
  {
    if i < |s| && IsDigit(s[i]) then
      var j := DigitRunEnd(s, i + 1);
      assert s[i..j] == [s[i]] + s[i + 1..j];
      j
    else i
  }

  /** Any run of digits from i that ends at a non-digit ends where DigitRunEnd says. */
  lemma DigitRunEndUnique(s: seq<char>, i: nat, j: nat)
    requires i <= j <= |s|
    requires AllDigits(s[i..j])
    requires j == |s| || !IsDigit(s[j])
    ensures DigitRunEnd(s, i) == j
  {
    var e := DigitRunEnd(s, i);
    assert forall q :: i <= q < j ==> IsDigit(s[q]) by {
      forall q | i <= q < j ensures IsDigit(s[q]) {
        assert s[i..j][q - i] == s[q];
      }
    }
    assert forall q :: i <= q < e ==> IsDigit(s[q]) by {
      forall q | i <= q < e ensures IsDigit(s[q]) {
        assert s[i..e][q - i] == s[q];
      }
    }
  }

  /**
   * `\d+\.\d+` anchored at position i: the end of the match, or None. Both
   * `\d+` are greedy; backtracking cannot help, since a shorter first run is
   * followed by a digit and never by the point.
   */
  function DecimalMatchAt(s: seq<char>, i: nat): (r: Option<nat>)
    requires i <= |s|
    ensures r.Some? ==> i < r.value <= |s| && IsDecimalToken(s[i..r.value])
    ensures r.Some? ==> r.value == |s| || !IsDigit(s[r.value])
    ensures r.None? ==> forall e :: i <= e <= |s| ==> !IsDecimalToken(s[i..e])
  {
    var j := DigitRunEnd(s, i);
    if i < j && j + 1 < |s| && s[j] == '.' && IsDigit(s[j + 1]) then
      var e := DigitRunEnd(s, j + 1);
      DecimalMatchShape(s, i, j, e);
      Some(e)
    else
      NoDecimalMatch(s, i, j);
      None
  }

  lemma DecimalMatchShape(s: seq<char>, i: nat, j: nat, e: nat)
    requires i < j && j + 1 < |s| && s[j] == '.' && IsDigit(s[j + 1])
    requires j + 1 <= e <= |s|
    requires AllDigits(s[i..j]) && AllDigits(s[j + 1..e])
    requires e == |s| || !IsDigit(s[e])
    ensures IsDecimalToken(s[i..e])
  {
    assert e > j + 1;
    var t := s[i..e];
    assert t[..j - i] == s[i..j];
    assert t[j - i + 1..] == s[j + 1..e];
    DecimalShape(t, j - i);
  }

  lemma NoDecimalMatch(s: seq<char>, i: nat, j: nat)
    requires i <= j <= |s| && j == DigitRunEnd(s, i)
    requires !(i < j && j + 1 < |s| && s[j] == '.' && IsDigit(s[j + 1]))
    ensures forall e :: i <= e <= |s| ==> !IsDecimalToken(s[i..e])
  {
    forall e | i <= e <= |s|
      ensures !IsDecimalToken(s[i..e])
    {
      DecimalTokenAtRunEnd(s, i, e);
    }
  }

  /** A decimal token from i has its point where the run of digits from i ends. */
  lemma DecimalTokenAtRunEnd(s: seq<char>, i: nat, e: nat)
    requires i <= e <= |s|
    ensures IsDecimalToken(s[i..e]) ==>
      var j := DigitRunEnd(s, i); i < j && j + 1 < |s| && s[j] == '.' && IsDigit(s[j + 1])
  {
    var t := s[i..e];
    if IsDecimalToken(t) {
      var k := DotIndex(t);
      assert s[i..i + k] == t[..k];
      assert s[i + k] == t[k];
      DigitRunEndUnique(s, i, i + k);
      assert t[k + 1..][0] == s[i + k + 1];
    }
  }

  /** `re.findall(r"\d+\.\d+", s[i..])`: leftmost matches, left to right, never overlapping. */
  function FindAllDecimals(s: seq<char>, i: nat): (r: seq<Span>)
    requires i <= |s|
    ensures forall k :: 0 <= k < |r| ==>
      i <= r[k].start < r[k].end <= |s| && IsDecimalToken(s[r[k].start..r[k].end])
    ensures forall k :: 0 <= k < |r| ==> DecimalMatchAt(s, r[k].start) == Some(r[k].end)
    ensures forall k :: 0 <= k < |r| - 1 ==> r[k].end <= r[k + 1].start
    decreases |s| - i
  {
    if i == |s| then []
    else match DecimalMatchAt(s, i)
      case Some(e) =>
        [Span(i, e)] + FindAllDecimals(s, e)
      case None => FindAllDecimals(s, i + 1)
  }

  /** Position q lies inside one of the matches. */
  predicate Covered(ms: seq<Span>, q: nat) {
    exists k :: 0 <= k < |ms| && ms[k].start <= q < ms[k].end
  }

  /**
   * findall skips no match: every position from i on where the pattern
   * matches lies inside one of the matches findall returns.
   */
  lemma {:induction false} FindAllDecimalsComplete(s: seq<char>, i: nat, q: nat)
    requires i <= q < |s|
    ensures DecimalMatchAt(s, q).Some? ==> Covered(FindAllDecimals(s, i), q)
    decreases |s| - i
  {
    var r := FindAllDecimals(s, i);
    match DecimalMatchAt(s, i)
    case Some(e) =>
      if q < e {
        assert r[0].start <= q < r[0].end;
      } else {
        var rest := FindAllDecimals(s, e);
        assert r == [Span(i, e)] + rest;
        FindAllDecimalsComplete(s, e, q);
        if DecimalMatchAt(s, q).Some? {
          var k :| 0 <= k < |rest| && rest[k].start <= q < rest[k].end;
          assert r[k + 1] == rest[k];
        }
      }
    case None =>
      if q > i {
        FindAllDecimalsComplete(s, i + 1, q);
      }
  }

  /** findall finds nothing exactly when no decimal token occurs anywhere from i on. */
  lemma {:induction false} FindAllDecimalsEmptyIff(s: seq<char>, i: nat)
    requires i <= |s|
    ensures FindAllDecimals(s, i) == [] <==>
      forall a, b :: i <= a <= b <= |s| ==> !IsDecimalToken(s[a..b])
    decreases |s| - i
  {
    if i < |s| {
      match DecimalMatchAt(s, i)
      case Some(e) =>
        assert FindAllDecimals(s, i) != [];
        assert IsDecimalToken(s[i..e]);
      case None =>
        FindAllDecimalsEmptyIff(s, i + 1);
        assert FindAllDecimals(s, i) == FindAllDecimals(s, i + 1);
        forall a, b | i <= a <= b <= |s| && FindAllDecimals(s, i) == []
          ensures !IsDecimalToken(s[a..b])
        {
          if a > i {
            assert i + 1 <= a;
          }
        }
    } else {
      forall a, b | i <= a <= b <= |s| ensures !IsDecimalToken(s[a..b]) {
        assert |s[a..b]| == 0;
      }
    }
  }

  /** The text of a match. */
  function Matched(s: seq<char>, m: Span): seq<char>
    requires m.start <= m.end <= |s|
  {
    s[m.start..m.end]
  }

  /** Python's `list(map(float, prices))` on the findall result. */
  function DecimalValues(s: seq<char>, ms: seq<Span>): (vs: seq<real>)
    requires forall k :: 0 <= k < |ms| ==>
      ms[k].start <= ms[k].end <= |s| && IsDecimalToken(s[ms[k].start..ms[k].end])
    ensures |vs| == |ms|
    ensures forall k :: 0 <= k < |ms| ==> vs[k] == ParseFloat(Matched(s, ms[k]))
  {
    seq(|ms|, k requires 0 <= k < |ms| => ParseFloat(Matched(s, ms[k])))
  }

  /**
   * `re.search(r"\d+\.\d+|\d+", s[i..])`: the match starts at the leftmost
   * digit; there the decimal alternative wins when it can match at all, and
   * otherwise the whole run of digits is taken.
   */
  function SearchNumber(s: seq<char>, i: nat): (r: Option<Span>)
    requires i <= |s|
    ensures r.None? <==> forall q :: i <= q < |s| ==> !IsDigit(s[q])
    ensures r.Some? ==> i <= r.value.start < r.value.end <= |s|
    ensures r.Some? ==> IsDigit(s[r.value.start])
    ensures r.Some? ==> forall q :: i <= q < r.value.start ==> !IsDigit(s[q])
    ensures r.Some? ==> IsNumeral(s[r.value.start..r.value.end])
    ensures r.Some? ==> r.value.end == |s| || !IsDigit(s[r.value.end])
    ensures r.Some? && (exists e :: r.value.start <= e <= |s| && IsDecimalToken(s[r.value.start..e])) ==>
      IsDecimalToken(s[r.value.start..r.value.end])
    decreases |s| - i
  {
    if i == |s| then None
    else if IsDigit(s[i]) then
      match DecimalMatchAt(s, i)
      case Some(e) => Some(Span(i, e))
      case None =>
        var e := DigitRunEnd(s, i);
        assert s[i..e][0] == s[i];
        Some(Span(i, e))
    else SearchNumber(s, i + 1)
  }

  // ---------------------------------------------------------------------------
  // clean_price
  // ---------------------------------------------------------------------------

  /** True when the text is a range such as "29.95 bis EUR 32.95". */
  predicate IsRange(price: seq<char>): (r: bool)
    ensures r <==> exists q :: OccursAt(price, q, "bis")
  {
    Contains(price, "bis")
  }

  /**
   * data.py `clean_price`: the mean of all decimal tokens of a range when it
   * has any, and otherwise the value of the first number, or None.
   */
  function CleanPrice(price: seq<char>): (r: Option<real>)
    ensures r.None? <==> NoDigit(price)
    ensures !IsRange(price) || FindAllDecimals(price, 0) == [] ==> r == FirstNumberValue(price)
    ensures IsRange(price) && FindAllDecimals(price, 0) != [] ==>
      var vs := DecimalValues(price, FindAllDecimals(price, 0));
      r == Some(Stats.Mean(vs)) && Stats.Min(vs) <= r.value <= Stats.Max(vs)
    ensures r.Some? ==> r.value >= 0.0
  {
    var ms := FindAllDecimals(price, 0);
    if IsRange(price) && ms != [] then
      var vs := DecimalValues(price, ms);
      RangeHasDigit(price);
      Stats.MeanBetweenMinMax(vs);
      Stats.MeanBounds(vs, 0.0, Stats.Max(vs));
      Some(Stats.Mean(vs))
    else
      FirstNumberValue(price)
  }

  /** A text in which findall finds a decimal token has a digit. */
  lemma RangeHasDigit(price: seq<char>)
    requires FindAllDecimals(price, 0) != []
    ensures !NoDigit(price)
  {
    var ms := FindAllDecimals(price, 0);
    var t := Matched(price, ms[0]);
    assert DotIndex(t) > 0;
    assert t[..DotIndex(t)][0] == t[0] == price[ms[0].start];
  }

  /** The value of the first number of the text (the second regex of clean_price). */
  function FirstNumberValue(price: seq<char>): (r: Option<real>)
    ensures r.None? <==> NoDigit(price)
  {
    match SearchNumber(price, 0)
    case None => None
    case Some(m) => Some(ParseFloat(Matched(price, m)))
  }

  /** A range without any decimal token falls back to the first number. */
  lemma CleanPriceOfIntegerRange(price: seq<char>)
    requires forall a, b :: 0 <= a <= b <= |price| ==> !IsDecimalToken(price[a..b])
    ensures CleanPrice(price) == FirstNumberValue(price)
  {
    FindAllDecimalsEmptyIff(price, 0);
  }

  /** Without a point in the text there is no decimal token to find. */
  lemma FindAllWithoutPoint(s: seq<char>)
    requires '.' !in s
    ensures FindAllDecimals(s, 0) == []
  {
    forall a, b | 0 <= a <= b <= |s| ensures !IsDecimalToken(s[a..b]) {
      var t := s[a..b];
      assert forall k :: 0 <= k < |t| ==> t[k] == s[a + k];
    }
    FindAllDecimalsEmptyIff(s, 0);
  }

  /** Where digits, a point and digits stand at i, findall and search match exactly them. */
  lemma DecimalMatchOf(s: seq<char>, i: nat, j: nat, e: nat)
    requires i < j && j + 1 < e <= |s|
    requires AllDigits(s[i..j]) && s[j] == '.' && AllDigits(s[j + 1..e])
    requires e == |s| || !IsDigit(s[e])
    ensures DecimalMatchAt(s, i) == Some(e)
    ensures FindAllDecimals(s, i) == [Span(i, e)] + FindAllDecimals(s, e)
    ensures SearchNumber(s, i) == Some(Span(i, e))
  {
    DecimalMatchAtOf(s, i, j, e);
    assert s[i..j][0] == s[i];
  }

  lemma DecimalMatchAtOf(s: seq<char>, i: nat, j: nat, e: nat)
    requires i < j && j + 1 < e <= |s|
    requires AllDigits(s[i..j]) && s[j] == '.' && AllDigits(s[j + 1..e])
    requires e == |s| || !IsDigit(s[e])
    ensures DecimalMatchAt(s, i) == Some(e)
  {
    DigitRunEndUnique(s, i, j);
    assert s[j + 1..e][0] == s[j + 1];
    DigitRunEndUnique(s, j + 1, e);
  }


  /** findall passes over characters that are not digits. */
  lemma {:induction false} FindAllSkipsNonDigits(s: seq<char>, i: nat, j: nat)
    requires i <= j <= |s|
    requires forall q :: i <= q < j ==> !IsDigit(s[q])
    ensures FindAllDecimals(s, i) == FindAllDecimals(s, j)
    decreases j - i
  {
    if i < j {
      assert DigitRunEnd(s, i) == i;
      FindAllSkipsNonDigits(s, i + 1, j);
    }
  }

  /** The value of a two-digit numeral. */
  lemma TwoDigitsValue(ds: seq<char>)
    requires |ds| == 2 && AllDigits(ds)
    ensures DigitsValue(ds) == 10 * DigitValue(ds[0]) + DigitValue(ds[1])
  {
    DigitsValueSnoc([], ds[0]);
    assert [] + [ds[0]] == ds[..1];
    DigitsValueSnoc(ds[..1], ds[1]);
    assert ds[..1] + [ds[1]] == ds;
  }

  /** "1234.56" is worth 1234.56. */
  lemma ThousandsValue(a: seq<char>)
    requires a == "1234.56"
    ensures IsDecimalToken(a) && ParseFloat(a) == 1234.56
  {
    TwoDigitsValue(a[..4][..2]);
    DigitsValueSnoc(a[..4][..2], '3');
    assert a[..4][..2] + ['3'] == a[..4][..3];
    DigitsValueSnoc(a[..4][..3], '4');
    assert a[..4][..3] + ['4'] == a[..4];
    TwoDigitsValue(a[5..]);
    ParseFloatDecimal(a, 4);
  }

  /** A numeral of two digits, a point and two digits, such as "29.95". */
  lemma CentsValue(t: seq<char>)
    requires |t| == 5 && t[2] == '.' && IsDigit(t[0]) && IsDigit(t[1]) && IsDigit(t[3]) && IsDigit(t[4])
    ensures IsDecimalToken(t)
    ensures ParseFloat(t) == (10 * DigitValue(t[0]) + DigitValue(t[1])) as real
      + (10 * DigitValue(t[3]) + DigitValue(t[4])) as real / 100.0
  {
    assert AllDigits(t[..2]) && AllDigits(t[3..]);
    TwoDigitsValue(t[..2]);
    TwoDigitsValue(t[3..]);
    ParseFloatDecimal(t, 2);
  }

  /** "EUR 1.234,56" is scraped as "1.234,56", which costs 1234.56. */
  lemma ThousandsPriceExample(raw: seq<char>, thousands: seq<char>)
    requires raw == "EUR 1.234,56" && thousands == "1.234,56"
    ensures StripCurrencyPrefix(raw) == thousands
    ensures CleanPrice(NormalizeSeparators(thousands)) == Some(1234.56)
  {
    StripEurPrefix(thousands);
    ThousandsNormalized(thousands);
    FirstDecimalExample(NormalizeSeparators(thousands), 4);
  }

  /** "1.234,56" normalises to a single decimal numeral worth 1234.56. */
  lemma ThousandsNormalized(thousands: seq<char>)
    requires thousands == "1.234,56"
    ensures var a := NormalizeSeparators(thousands);
      |a| == 7 && a[4] == '.' && AllDigits(a[..4]) && AllDigits(a[5..]) && 'b' !in a && ParseFloat(a) == 1234.56
  {
    ThousandsSeparators(thousands);
    ThousandsValue(NormalizeSeparators(thousands));
  }

  /** A decimal comma: "29,95" costs 29.95. */
  lemma DecimalCommaExample(plain: seq<char>)
    requires plain == "29,95"
    ensures CleanPrice(NormalizeSeparators(plain)) == Some(29.95)
  {
    CommaNormalized(plain);
    FirstDecimalExample(NormalizeSeparators(plain), 2);
  }

  /** "29,95" normalises to a single decimal numeral worth 29.95. */
  lemma CommaNormalized(plain: seq<char>)
    requires plain == "29,95"
    ensures var b := NormalizeSeparators(plain);
      |b| == 5 && b[2] == '.' && AllDigits(b[..2]) && AllDigits(b[3..]) && 'b' !in b && ParseFloat(b) == 29.95
  {
    CommaSeparator(plain);
    var b := NormalizeSeparators(plain);
    CentsValue(b);
    assert AllDigits(b[..2]) && AllDigits(b[3..]);
  }

  /** A text that is one decimal numeral, with no "bis": its price is its value. */
  lemma FirstDecimalExample(t: seq<char>, k: nat)
    requires 0 < k < |t| - 1 && t[k] == '.'
    requires AllDigits(t[..k]) && AllDigits(t[k + 1..])
    requires 'b' !in t
    ensures IsDecimalToken(t)
    ensures CleanPrice(t) == Some(ParseFloat(t))
  {
    DecimalShape(t, k);
    AbsentFirstChar(t, "bis");
    assert t[..|t|] == t;
    assert AllDigits(t[0..k]) && AllDigits(t[k + 1..|t|]);
    DecimalMatchOf(t, 0, k, |t|);
  }

  /** A range with exactly two decimal tokens costs their midpoint. */
  lemma CleanPriceOfTwoTokens(s: seq<char>, vs: seq<real>)
    requires IsRange(s) && |FindAllDecimals(s, 0)| == 2
    requires vs == DecimalValues(s, FindAllDecimals(s, 0))
    ensures CleanPrice(s) == Some((vs[0] + vs[1]) / 2.0)
  {
    RangePriceIsMean(s, vs);
    MeanOfPair(CleanPrice(s), vs);
  }

  lemma MeanOfPair(p: Option<real>, vs: seq<real>)
    requires |vs| == 2 && p == Some(Stats.Mean(vs))
    ensures p == Some((vs[0] + vs[1]) / 2.0)
  {
    Stats.MeanOfTwo(vs);
  }

  lemma RangePriceIsMean(s: seq<char>, vs: seq<real>)
    requires IsRange(s) && |FindAllDecimals(s, 0)| == 2
    requires vs == DecimalValues(s, FindAllDecimals(s, 0))
    ensures CleanPrice(s) == Some(Stats.Mean(vs))
  {
  }

  /** The range "29.95 bis EUR 32.95" costs the mean of its two decimals, 31.45. */
  lemma DecimalRangeExample(s: seq<char>)
    requires s == "29.95 bis EUR 32.95"
    ensures CleanPrice(s) == Some(31.45)
  {
    RangeIsRange(s);
    RangeTokens(s);
    RangeValues(s);
    CleanPriceOfTwoTokens(s, DecimalValues(s, FindAllDecimals(s, 0)));
  }

  lemma RangeIsRange(s: seq<char>)
    requires s == "29.95 bis EUR 32.95"
    ensures IsRange(s)
  {
    var w := s[6..9];
    assert w[0] == 'b' && w[1] == 'i' && w[2] == 's';
    assert w == "bis";
    assert OccursAt(s, 6, "bis");
  }

  lemma RangeValues(s: seq<char>)
    requires s == "29.95 bis EUR 32.95"
    ensures IsNumeral(s[0..5]) && ParseFloat(s[0..5]) == 29.95
    ensures IsNumeral(s[14..19]) && ParseFloat(s[14..19]) == 32.95
  {
    var lo, hi := s[0..5], s[14..19];
    assert lo == "29.95" && hi == "32.95";
    assert lo[2] == '.' && IsDigit(lo[0]) && IsDigit(lo[1]) && IsDigit(lo[3]) && IsDigit(lo[4]);
    CentsValue(lo);
    assert hi[2] == '.' && IsDigit(hi[0]) && IsDigit(hi[1]) && IsDigit(hi[3]) && IsDigit(hi[4]);
    CentsValue(hi);
  }

  lemma RangeTokens(s: seq<char>)
    requires s == "29.95 bis EUR 32.95"
    ensures FindAllDecimals(s, 0) == [Span(0, 5), Span(14, 19)]
  {
    RangeTailTokens(s);
    assert AllDigits(s[0..2]) && AllDigits(s[3..5]);
    DecimalMatchOf(s, 0, 2, 5);
  }

  /** After the first token, "29.95 bis EUR 32.95" holds only the token 32.95. */
  lemma RangeTailTokens(s: seq<char>)
    requires s == "29.95 bis EUR 32.95"
    ensures FindAllDecimals(s, 5) == [Span(14, 19)]
  {
    assert AllDigits(s[14..16]) && AllDigits(s[17..19]);
    DecimalMatchOf(s, 14, 16, 19);
    assert FindAllDecimals(s, 19) == [];
    FindAllSkipsNonDigits(s, 5, 14);
  }

  /** "10 bis 20 EUR" has no decimal token, so the first number wins: 10, not 15. */
  lemma IntegerRangeExample(s: seq<char>)
    requires s == "10 bis 20 EUR"
    ensures CleanPrice(s) == Some(10.0)
  {
    FindAllWithoutPoint(s);
    TenFirst(s);
  }

  /** The first number of "10 bis 20 EUR" is 10. */
  lemma TenFirst(s: seq<char>)
    requires s == "10 bis 20 EUR"
    ensures FirstNumberValue(s) == Some(10.0)
  {
    DigitRunEndUnique(s, 0, 2);
    assert SearchNumber(s, 0) == Some(Span(0, 2));
    TenValue(s[0..2]);
  }

  lemma TenValue(ten: seq<char>)
    requires ten == ['1'] + ['0']
    ensures IsIntegerToken(ten) && ParseFloat(ten) == 10.0
  {
    DigitsValueSnoc([], '1');
    assert [] + ['1'] == ['1'];
    DigitsValueSnoc(['1'], '0');
    ParseFloatInteger(ten);
  }

  lemma NoDigitExample(s: seq<char>)
    requires s == "Preis auf Anfrage"
    ensures CleanPrice(s) == None
  {
    assert NoDigit(s) by {
      forall i | 0 <= i < |s| ensures !IsDigit(s[i]) {
        assert s[i] in "Preis auf Anfrage";
      }
    }
  }
}
