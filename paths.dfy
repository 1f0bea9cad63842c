/** Numbers as text, and the search-result URLs the collector visits:
    `"" + n` and `+s` for non-negative integers, `urlify` (src/main.ts:405-407),
    `interval` (src/main.ts:36-38) and the two path builders at
    src/main.ts:46-49 and src/main.ts:196-198. */
module Paths {
  import opened Text
  import opened Common

  // ---------------------------------------------------------------------
  // Decimal numerals

  function DigitChar(d: nat): (c: char)
    requires d < 10
    ensures IsDigit(c) && c as int - '0' as int == d
  {
    ('0' as int + d) as char
  }

  /** The decimal numeral JavaScript prints for a non-negative integer. */
  function DecimalString(n: nat): (s: string)
    ensures |s| > 0 && AllDigits(s)
    ensures s[0] == '0' ==> n == 0
  {
    if n < 10 then [DigitChar(n)] else DecimalString(n / 10) + [DigitChar(n % 10)]
  }

  predicate AllDigits(s: string) {
    forall i :: 0 <= i < |s| ==> IsDigit(s[i])
  }

  /** The value of a numeral, as JavaScript's `+s` reads a string of decimal
      digits (leading zeros ignored, the empty string read as 0). */
  function DigitsValue(s: string): (n: nat)
    requires AllDigits(s)
  {
    if s == [] then 0 else DigitsValue(s[..|s| - 1]) * 10 + (s[|s| - 1] as int - '0' as int)
  }

  lemma {:induction false} DecimalRoundTrip(n: nat)
    ensures DigitsValue(DecimalString(n)) == n
  {
    var s := DecimalString(n);
    if n >= 10 {
      DecimalRoundTrip(n / 10);
      assert s[..|s| - 1] == DecimalString(n / 10);
    }
  }

  /** Distinct numbers print differently. */
  lemma DecimalInjective(m: nat, n: nat)
    requires DecimalString(m) == DecimalString(n)
    ensures m == n
  {
    DecimalRoundTrip(m);
    DecimalRoundTrip(n);
  }

  // ---------------------------------------------------------------------
  // The price

  /** The characters `[\d.]+` captures after the euro sign. */
  predicate PriceText(s: string) {
    forall i :: 0 <= i < |s| ==> IsDigit(s[i]) || s[i] == '.'
  }

  function RemoveDots(s: string): (r: string)
    ensures |r| <= |s|
    ensures forall i :: 0 <= i < |r| ==> r[i] != '.'
  {
    if s == [] then [] else RemoveDots(s[..|s| - 1]) + (if s[|s| - 1] == '.' then [] else [s[|s| - 1]])
  }

  lemma {:induction false} RemoveDotsDigits(s: string)
    requires PriceText(s)
    ensures AllDigits(RemoveDots(s))
  {
    if s != [] {
      RemoveDotsDigits(s[..|s| - 1]);
    }
  }

  lemma {:induction false} RemoveDotsAppend(a: string, b: string)
    ensures RemoveDots(a + b) == RemoveDots(a) + RemoveDots(b)
    decreases |b|
  {
    if b == [] {
      assert a + b == a;
    } else {
      assert (a + b)[..|a + b| - 1] == a + b[..|b| - 1];
      RemoveDotsAppend(a, b[..|b| - 1]);
    }
  }

  /** `+String(priceS).replace(/\./g, '')` (src/main.ts:290): the dots that
      group thousands are dropped and the digits read as one number. */
  function ParsePrice(s: string): (n: nat)
    requires PriceText(s)
  {
    RemoveDotsDigits(s);
    DigitsValue(RemoveDots(s))
  }

  /** A grouping dot anywhere does not change the price, and a price with no
      dots is its plain numeral: `ParsePrice("1.250") == ParsePrice("1250")`. */
  lemma DotIgnored(a: string, b: string)
    requires PriceText(a) && PriceText(b)
    ensures PriceText(a + "." + b) && PriceText(a + b)
    ensures ParsePrice(a + "." + b) == ParsePrice(a + b)
  {
    assert PriceText(a + "." + b) && PriceText(a + b) by {
      assert forall i :: 0 <= i < |a| ==> (a + "." + b)[i] == a[i] && (a + b)[i] == a[i];
      assert forall i :: 0 <= i < |b| ==> (a + "." + b)[|a| + 1 + i] == b[i] && (a + b)[|a| + i] == b[i];
    }
    assert RemoveDots(a + ".") == RemoveDots(a) by {
      RemoveDotsAppend(a, ".");
      assert "."[..0] == [];
      assert RemoveDots(".") == [];
    }
    assert RemoveDots(a + "." + b) == RemoveDots(a) + RemoveDots(b) by {
      RemoveDotsAppend(a + ".", b);
    }
    assert RemoveDots(a + b) == RemoveDots(a) + RemoveDots(b) by {
      RemoveDotsAppend(a, b);
    }
  }

  lemma PriceOfNumeral(n: nat)
    ensures PriceText(DecimalString(n)) && ParsePrice(DecimalString(n)) == n
  {
    NoDotsUnchanged(DecimalString(n));
    DecimalRoundTrip(n);
  }

  lemma {:induction false} NoDotsUnchanged(s: string)
    requires AllDigits(s)
    ensures RemoveDots(s) == s
  {
    if s != [] {
      NoDotsUnchanged(s[..|s| - 1]);
    }
  }

  /** A text of dots alone, which the capture allows, reads as 0. */
  lemma {:induction false} OnlyDotsIsZero(s: string)
    requires forall i :: 0 <= i < |s| ==> s[i] == '.'
    ensures PriceText(s) && RemoveDots(s) == [] && ParsePrice(s) == 0
  {
    if s != [] {
      OnlyDotsIsZero(s[..|s| - 1]);
      assert RemoveDots(s) == RemoveDots(s[..|s| - 1]);
    }
  }

  // ---------------------------------------------------------------------
  // urlify

  /** `s.replace(/\s/g, '-').toLowerCase()` (src/main.ts:405-407), with
      ASCII case folding. */
  function Urlify(s: string): (r: string)
    ensures |r| == |s|
    ensures forall i :: 0 <= i < |s| ==> r[i] == (if IsJsWhitespace(s[i]) then '-' else LowerChar(s[i]))
  {
    if s == [] then [] else Urlify(s[..|s| - 1]) + [if IsJsWhitespace(s[|s| - 1]) then '-' else LowerChar(s[|s| - 1])]
  }

  /** The result holds no whitespace and no upper-case letter, and urlifying
      again changes nothing. */
  lemma UrlifyNormal(s: string)
    ensures forall i :: 0 <= i < |Urlify(s)| ==> !IsJsWhitespace(Urlify(s)[i]) && !IsAsciiUpper(Urlify(s)[i])
    ensures Urlify(Urlify(s)) == Urlify(s)
  {
    var r := Urlify(s);
    forall i | 0 <= i < |r| ensures !IsJsWhitespace(r[i]) && !IsAsciiUpper(r[i]) {
      if !IsJsWhitespace(s[i]) {
        LowerKeepsNonWhitespace(s[i]);
      }
    }
  }

  lemma LowerKeepsNonWhitespace(c: char)
    requires !IsJsWhitespace(c)
    ensures !IsJsWhitespace(LowerChar(c))
  {
  }

  /** A city name that is already lower case and has no whitespace is its own
      path segment. */
  lemma UrlifyFixed(s: string)
    requires forall i :: 0 <= i < |s| ==> !IsJsWhitespace(s[i]) && !IsAsciiUpper(s[i])
    ensures Urlify(s) == s
  {
  }

  // ---------------------------------------------------------------------
  // interval

  /** `interval(start, end)`: `Array(end - start)` throws a RangeError
      (None) when the length is negative; otherwise the integers from `start`
      up to but excluding `end`. */
  function Interval(start: int, end: int): (r: Option<seq<int>>)
  {
    if end < start then None else Some(seq(end - start, i => start + i))
  }

  /** What `interval` returns: defined exactly when `start <= end`, then
      `end - start` consecutive integers from `start`, so that a value is in
      it exactly when it lies in `[start, end)`. */
  lemma IntervalSpec(start: int, end: int)
    ensures Interval(start, end).Some? <==> start <= end
    ensures Interval(start, end).Some? ==>
      var s := Interval(start, end).value;
      |s| == end - start &&
      (forall i :: 0 <= i < |s| ==> s[i] == start + i) &&
      (forall x :: x in s <==> start <= x < end)
  {
    if start <= end {
      var s := Interval(start, end).value;
      forall x | start <= x < end ensures x in s {
        assert s[x - start] == x;
      }
    }
  }

  /** The assertions at src/main.ts:30-34. */
  lemma IntervalCases()
    ensures Interval(0, 0) == Some([])
    ensures Interval(0, 1) == Some([0])
    ensures Interval(1, 2) == Some([1])
    ensures Interval(2, 2) == Some([])
    ensures Interval(1, 5) == Some([1, 2, 3, 4])
  {
    assert Interval(0, 0).value == [];
    assert Interval(0, 1).value == [0];
    assert Interval(1, 2).value == [1];
    assert Interval(2, 2).value == [];
    assert Interval(1, 5).value == [1, 2, 3, 4];
  }

  // ---------------------------------------------------------------------
  // The search paths

  const Site: string := "https://huurstunt.nl"

  /** The tier page of a city at a distance (src/main.ts:196-198): radius 0
      has no `+<d>km/` segment. */
  function TierUrl(city: string, distance: nat): string {
    Site + "/huren/" + Urlify(city) + "/" + (if distance != 0 then "+" + DecimalString(distance) + "km/" else "")
  }

  /** The URL `scanLinks` opens for result page `pageNum` of a tier when it
      has no page of its own (src/main.ts:46-49). */
  function PageUrl(city: string, distance: nat, pageNum: nat): string {
    Site + "/huren/" + Urlify(city) + "/" +
    (if distance != 0 then "+" + DecimalString(distance) + "km/" else "") +
    "p" + DecimalString(pageNum) + "/"
  }

  /** The two builders agree: a result page lives under its tier's path. */
  lemma PageUnderTier(city: string, distance: nat, pageNum: nat)
    ensures PageUrl(city, distance, pageNum) == TierUrl(city, distance) + "p" + DecimalString(pageNum) + "/"
    ensures |TierUrl(city, distance)| < |PageUrl(city, distance, pageNum)|
  {
  }

  /** Zero radius means the plain city path; any other radius puts a
      `+<d>km/` segment after it. */
  lemma TierUrlShape(city: string, distance: nat)
    ensures distance == 0 ==> TierUrl(city, distance) == Site + "/huren/" + Urlify(city) + "/"
    ensures distance != 0 ==>
      TierUrl(city, distance) == Site + "/huren/" + Urlify(city) + "/+" + DecimalString(distance) + "km/"
  {
  }

  /** Different result pages of one tier have different URLs. */
  lemma PageUrlInjective(city: string, distance: nat, p: nat, q: nat)
    requires PageUrl(city, distance, p) == PageUrl(city, distance, q)
    ensures p == q
  {
    var t := TierUrl(city, distance);
    PageUnderTier(city, distance, p);
    PageUnderTier(city, distance, q);
    var a := t + "p" + DecimalString(p) + "/";
    var b := t + "p" + DecimalString(q) + "/";
    assert a[|t| + 1..|a| - 1] == DecimalString(p);
    assert b[|t| + 1..|b| - 1] == DecimalString(q);
    DecimalInjective(p, q);
  }
}
