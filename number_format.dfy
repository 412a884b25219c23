/**
 * formatNumber of the calculator front end:
 *   Math.abs(num).toFixed(2).replace(/\B(?=(\d{3})+(?!\d))/g, ',')
 *
 * The number is given as a whole count of cents, so that toFixed(2) is exact
 * decimal printing. The regular-expression replacement is modelled position
 * by position, as the matcher sees the string, and is proved equal to the
 * usual right-to-left grouping of the integer digits in threes.
 */
module NumberFormat {

  predicate IsDigit(c: char)
  {
    '0' <= c <= '9'
  }

  /** The class \w of JavaScript regular expressions. */
  predicate IsWordChar(c: char)
  {
    IsDigit(c) || 'a' <= c <= 'z' || 'A' <= c <= 'Z' || c == '_'
  }

  predicate AllDigits(s: string)
  {
    forall k :: 0 <= k < |s| ==> IsDigit(s[k])
  }

  function DigitChar(n: nat): (c: char)
    requires n < 10
    ensures IsDigit(c)
  {
    ('0' as int + n) as char
  }

  function DigitValue(c: char): (n: nat)
    requires IsDigit(c)
    ensures n < 10
  {
    c as int - '0' as int
  }

  function Abs(x: int): nat
  {
    if x < 0 then -x else x
  }

  // ---------------------------------------------------------------------
  // toFixed(2)
  // ---------------------------------------------------------------------

  /** The decimal numeral of n, without leading zeros. */
  function Decimal(n: nat): (s: string)
    ensures |s| >= 1 && AllDigits(s)
    ensures s[0] == '0' ==> n == 0
  {
    if n < 10 then [DigitChar(n)] else Decimal(n / 10) + [DigitChar(n % 10)]
  }

  /** The number a string of digits denotes. */
  function DecimalValue(s: string): nat
    requires AllDigits(s)
  {
    if s == [] then 0 else DecimalValue(s[..|s| - 1]) * 10 + DigitValue(s[|s| - 1])
  }

  lemma {:induction false} DecimalRoundTrip(n: nat)
    ensures DecimalValue(Decimal(n)) == n
  {
    if n >= 10 {
      DecimalRoundTrip(n / 10);
      var s := Decimal(n);
      assert s[..|s| - 1] == Decimal(n / 10);
    }
  }

  /** (cents / 100).toFixed(2) for a non-negative count of cents. */
  function ToFixed2(cents: nat): (s: string)
    ensures |s| >= 4 && s[|s| - 3] == '.'
    ensures AllDigits(s[..|s| - 3]) && IsDigit(s[|s| - 2]) && IsDigit(s[|s| - 1])
  {
    var s := Decimal(cents / 100) + "." + [DigitChar(cents % 100 / 10), DigitChar(cents % 10)];
    assert s[..|s| - 3] == Decimal(cents / 100);
    s
  }

  /** Read a toFixed(2) string back as a count of cents. */
  function FixedCents(s: string): nat
    requires |s| >= 4 && AllDigits(s[..|s| - 3]) && IsDigit(s[|s| - 2]) && IsDigit(s[|s| - 1])
  {
    DecimalValue(s[..|s| - 3]) * 100 + DigitValue(s[|s| - 2]) * 10 + DigitValue(s[|s| - 1])
  }

  /** toFixed(2) loses nothing: reading it back gives the cents again. */
  lemma {:induction false} ToFixed2RoundTrip(cents: nat)
    ensures FixedCents(ToFixed2(cents)) == cents
  {
    var s := ToFixed2(cents);
    assert s[..|s| - 3] == Decimal(cents / 100);
    DecimalRoundTrip(cents / 100);
  }

  // ---------------------------------------------------------------------
  // The replacement /\B(?=(\d{3})+(?!\d))/g -> ','
  // ---------------------------------------------------------------------

  /** \B at position p: the characters on both sides are both word characters or both not. */
  predicate NotBoundary(s: string, p: nat)
    requires p <= |s|
  {
    (0 < p && IsWordChar(s[p - 1])) == (p < |s| && IsWordChar(s[p]))
  }

  /** (?=(\d{3})+(?!\d)) at position p, as the regular expression states it. */
  ghost predicate GroupsOfThreeAhead(s: string, p: nat)
    requires p <= |s|
  {
    exists k: nat :: 1 <= k && p + 3 * k <= |s|
      && (forall j :: p <= j < p + 3 * k ==> IsDigit(s[j]))
      && (p + 3 * k == |s| || !IsDigit(s[p + 3 * k]))
  }

  /** The number of consecutive digits starting at p. */
  function DigitRun(s: string, p: nat): (n: nat)
    requires p <= |s|
    ensures p + n <= |s|
    ensures forall j :: p <= j < p + n ==> IsDigit(s[j])
    ensures p + n == |s| || !IsDigit(s[p + n])
    decreases |s| - p
  {
    if p < |s| && IsDigit(s[p]) then 1 + DigitRun(s, p + 1) else 0
  }

  /** The replacement inserts a ',' at p. */
  predicate SeparatorAt(s: string, p: nat)
    requires p <= |s|
  {
    NotBoundary(s, p) && DigitRun(s, p) > 0 && DigitRun(s, p) % 3 == 0
  }

  /** The lookahead holds exactly when the run of digits ahead is a positive multiple of three long. */
  lemma {:induction false} SeparatorAtIsRegexMatch(s: string, p: nat)
    requires p <= |s|
    ensures SeparatorAt(s, p) <==> NotBoundary(s, p) && GroupsOfThreeAhead(s, p)
  {
    var n := DigitRun(s, p);
    if n > 0 && n % 3 == 0 {
      var k := n / 3;
      assert p + 3 * k == p + n;
    }
    if GroupsOfThreeAhead(s, p) {
      var k: nat :| 1 <= k && p + 3 * k <= |s|
        && (forall j :: p <= j < p + 3 * k ==> IsDigit(s[j]))
        && (p + 3 * k == |s| || !IsDigit(s[p + 3 * k]));
      assert n >= 3 * k by {
        if p + n < |s| { assert !IsDigit(s[p + n]); }
      }
      assert n <= 3 * k by {
        if p + 3 * k < |s| { assert !IsDigit(s[p + 3 * k]); }
      }
    }
  }

  /** The replacement applied to the suffix of s from p: every position is tried in turn. */
  function InsertSeparators(s: string, p: nat): string
    requires p <= |s|
    decreases |s| - p
  {
    (if SeparatorAt(s, p) then "," else "")
    + (if p == |s| then "" else [s[p]] + InsertSeparators(s, p + 1))
  }

  function FormatNumber(cents: int): string
  {
    InsertSeparators(ToFixed2(Abs(cents)), 0)
  }

  // ---------------------------------------------------------------------
  // Reference grouping and the shape of the output
  // ---------------------------------------------------------------------

  /** Digits grouped in threes from the right, separated by commas. */
  function GroupThousands(digits: string): string
  {
    if |digits| <= 3 then digits
    else GroupThousands(digits[..|digits| - 3]) + "," + digits[|digits| - 3..]
  }

  /** The integer digits from p on, with a comma before every position a multiple of three from the end. */
  function GroupFrom(digits: string, p: nat): string
    requires p <= |digits|
    decreases |digits| - p
  {
    if p == |digits| then ""
    else (if 0 < p && (|digits| - p) % 3 == 0 then "," else "") + [digits[p]] + GroupFrom(digits, p + 1)
  }

  function RemoveCommas(s: string): string
  {
    if s == [] then "" else (if s[0] == ',' then "" else [s[0]]) + RemoveCommas(s[1..])
  }

  function CountDigits(s: string): nat
  {
    if s == [] then 0 else (if IsDigit(s[0]) then 1 else 0) + CountDigits(s[1..])
  }

  lemma {:induction false} RemoveCommasAppend(a: string, b: string)
    ensures RemoveCommas(a + b) == RemoveCommas(a) + RemoveCommas(b)
  {
    if a == [] {
      assert a + b == b;
    } else {
      assert (a + b)[0] == a[0];
      assert (a + b)[1..] == a[1..] + b;
      RemoveCommasAppend(a[1..], b);
    }
  }

  lemma {:induction false} CountDigitsAppend(a: string, b: string)
    ensures CountDigits(a + b) == CountDigits(a) + CountDigits(b)
  {
    if a == [] {
      assert a + b == b;
    } else {
      assert (a + b)[0] == a[0];
      assert (a + b)[1..] == a[1..] + b;
      CountDigitsAppend(a[1..], b);
    }
  }

  /** Inserting separators and deleting the commas again gives back a comma-free string. */
  lemma {:induction false} RemoveInsertedSeparators(s: string, p: nat)
    requires p <= |s|
    requires forall k :: 0 <= k < |s| ==> s[k] != ','
    ensures RemoveCommas(InsertSeparators(s, p)) == s[p..]
    decreases |s| - p
  {
    var sep := if SeparatorAt(s, p) then "," else "";
    assert RemoveCommas(sep) == "" by {
      if sep == "," { assert sep[1..] == ""; }
    }
    if p < |s| {
      RemoveInsertedSeparators(s, p + 1);
      assert InsertSeparators(s, p) == sep + ([s[p]] + InsertSeparators(s, p + 1));
      RemoveCommasAppend(sep, [s[p]] + InsertSeparators(s, p + 1));
      RemoveCommasAppend([s[p]], InsertSeparators(s, p + 1));
      assert [s[p]][1..] == "";
      assert s[p..] == [s[p]] + s[p + 1..];
    }
  }

  /** In i + "." + f, the run of digits from a position of i reaches to the '.'. */
  lemma {:induction false} DigitRunInIntegerPart(i: string, f: string, p: nat)
    requires AllDigits(i) && p <= |i|
    ensures DigitRun(i + "." + f, p) == |i| - p
    decreases |i| - p
  {
    if p < |i| {
      DigitRunInIntegerPart(i, f, p + 1);
    }
  }

  /** A position where no separator goes copies its character. */
  lemma {:induction false} PlainStep(s: string, p: nat)
    requires p < |s| && !SeparatorAt(s, p)
    ensures InsertSeparators(s, p) == [s[p]] + InsertSeparators(s, p + 1)
  {
  }

  /** Past the integer digits, the replacement inserts nothing. */
  lemma {:induction false} FractionUnchanged(i: string, f: string)
    requires |i| >= 1 && AllDigits(i) && |f| == 2 && AllDigits(f)
    ensures InsertSeparators(i + "." + f, |i|) == "." + f
  {
    var s := i + "." + f;
    var n := |i|;
    assert |s| == n + 3;
    assert s[n - 1] == i[n - 1] && s[n] == '.' && s[n + 1] == f[0] && s[n + 2] == f[1];
    assert InsertSeparators(s, n + 3) == "" by {
      assert !NotBoundary(s, n + 3);
    }
    assert !SeparatorAt(s, n + 2) by {
      assert DigitRun(s, n + 3) == 0;
      assert DigitRun(s, n + 2) == 1;
    }
    PlainStep(s, n + 2);
    assert !SeparatorAt(s, n + 1) by {
      assert !NotBoundary(s, n + 1);
    }
    PlainStep(s, n + 1);
    assert !SeparatorAt(s, n) by {
      assert !NotBoundary(s, n);
    }
    PlainStep(s, n);
    assert f == [f[0], f[1]];
  }

  /** On the integer digits, the replacement is GroupFrom. */
  lemma {:induction false} InsertSeparatorsIsGroupFrom(i: string, f: string, p: nat)
    requires |i| >= 1 && AllDigits(i) && |f| == 2 && AllDigits(f) && p <= |i|
    ensures InsertSeparators(i + "." + f, p) == GroupFrom(i, p) + "." + f
    decreases |i| - p
  {
    var s := i + "." + f;
    if p == |i| {
      FractionUnchanged(i, f);
    } else {
      InsertSeparatorsIsGroupFrom(i, f, p + 1);
      DigitRunInIntegerPart(i, f, p);
      assert s[p] == i[p];
      assert NotBoundary(s, p) <==> 0 < p;
      var sep := if 0 < p && (|i| - p) % 3 == 0 then "," else "";
      assert SeparatorAt(s, p) <==> sep == ",";
      assert InsertSeparators(s, p) == sep + ([i[p]] + InsertSeparators(s, p + 1));
      assert GroupFrom(i, p) == (sep + [i[p]]) + GroupFrom(i, p + 1);
      Regroup(sep + [i[p]], GroupFrom(i, p + 1), ".", f);
    }
  }

  lemma {:induction false} GroupFromShort(digits: string, p: nat)
    requires |digits| <= 3 && p <= |digits|
    ensures GroupFrom(digits, p) == digits[p..]
    decreases |digits| - p
  {
    if p < |digits| {
      GroupFromShort(digits, p + 1);
      assert digits[p..] == [digits[p]] + digits[p + 1..];
    }
  }

  lemma {:induction false} GroupFromSplit(j: string, t: string, p: nat)
    requires |j| >= 1 && |t| == 3 && p <= |j|
    ensures GroupFrom(j + t, p) == GroupFrom(j, p) + "," + t
    decreases |j| - p
  {
    var i := j + t;
    if p == |j| {
      GroupFromLastThree(j, t);
    } else {
      GroupFromSplit(j, t, p + 1);
      assert i[p] == j[p];
      assert (|i| - p) % 3 == (|j| - p) % 3;
      var a := (if 0 < p && (|j| - p) % 3 == 0 then "," else "") + [j[p]];
      assert GroupFrom(i, p) == a + GroupFrom(i, p + 1);
      assert GroupFrom(j, p) == a + GroupFrom(j, p + 1);
      Regroup(a, GroupFrom(j, p + 1), ",", t);
    }
  }

  /** Three digits after a non-empty j are written as a comma and then those digits. */
  lemma {:induction false} GroupFromLastThree(j: string, t: string)
    requires |j| >= 1 && |t| == 3
    ensures GroupFrom(j + t, |j|) == GroupFrom(j, |j|) + "," + t
  {
    var i := j + t;
    var p := |j|;
    assert GroupFrom(i, p + 3) == "";
    assert GroupFrom(i, p + 2) == [t[2]];
    assert GroupFrom(i, p + 1) == [t[1]] + [t[2]];
    assert t == [t[0]] + [t[1]] + [t[2]];
  }

  /** The position-by-position grouping agrees with grouping in threes from the right. */
  lemma {:induction false} GroupFromIsGroupThousands(digits: string)
    ensures GroupFrom(digits, 0) == GroupThousands(digits)
    decreases |digits|
  {
    if |digits| <= 3 {
      GroupFromShort(digits, 0);
    } else {
      var j, t := digits[..|digits| - 3], digits[|digits| - 3..];
      assert digits == j + t;
      GroupFromSplit(j, t, 0);
      GroupFromIsGroupThousands(j);
    }
  }

  lemma {:induction false} GroupFromCount(digits: string, p: nat)
    requires AllDigits(digits) && p <= |digits|
    ensures CountDigits(GroupFrom(digits, p)) == |digits| - p
    decreases |digits| - p
  {
    if p < |digits| {
      GroupFromCount(digits, p + 1);
      var c := if 0 < p && (|digits| - p) % 3 == 0 then "," else "";
      var rest := GroupFrom(digits, p + 1);
      assert GroupFrom(digits, p) == c + ([digits[p]] + rest);
      CountDigitsAppend(c, [digits[p]] + rest);
      CountDigitsAppend([digits[p]], rest);
      assert CountDigits([digits[p]]) == 1 by {
        assert [digits[p]][1..] == "";
      }
      assert CountDigits(c) == 0 by {
        if c == "," { assert c[1..] == ""; }
      }
    }
  }

  lemma {:induction false} GroupFromAlphabet(digits: string, p: nat)
    requires AllDigits(digits) && p <= |digits|
    ensures forall k :: 0 <= k < |GroupFrom(digits, p)| ==>
      IsDigit(GroupFrom(digits, p)[k]) || GroupFrom(digits, p)[k] == ','
    decreases |digits| - p
  {
    if p < |digits| {
      GroupFromAlphabet(digits, p + 1);
      var c := if 0 < p && (|digits| - p) % 3 == 0 then "," else "";
      var rest := GroupFrom(digits, p + 1);
      var g := GroupFrom(digits, p);
      assert g == c + ([digits[p]] + rest);
      forall k | 0 <= k < |g| ensures IsDigit(g[k]) || g[k] == ',' {
        if k < |c| {
          assert g[k] == ',';
        } else if k == |c| {
          assert g[k] == digits[p];
        } else {
          var k' := k - |c| - 1;
          assert 0 <= k' < |rest|;
          assert g[k] == rest[k'];
          assert IsDigit(rest[k']) || rest[k'] == ',';
        }
      }
    }
  }

  /** Every comma GroupFrom writes is followed by a positive multiple of three digits. */
  lemma {:induction false} GroupFromCommas(digits: string, p: nat)
    requires AllDigits(digits) && p <= |digits|
    ensures forall q :: 0 <= q < |GroupFrom(digits, p)| && GroupFrom(digits, p)[q] == ',' ==>
      CountDigits(GroupFrom(digits, p)[q + 1..]) > 0 && CountDigits(GroupFrom(digits, p)[q + 1..]) % 3 == 0
    decreases |digits| - p
  {
    if p < |digits| {
      GroupFromCommas(digits, p + 1);
      var c := if 0 < p && (|digits| - p) % 3 == 0 then "," else "";
      var a := c + [digits[p]];
      var rest := GroupFrom(digits, p + 1);
      var g := GroupFrom(digits, p);
      assert g == a + rest;
      forall q | 0 <= q < |g| && g[q] == ','
        ensures CountDigits(g[q + 1..]) > 0 && CountDigits(g[q + 1..]) % 3 == 0
      {
        if q < |a| {
          assert a[|c|] == digits[p] && IsDigit(digits[p]);
          assert q < |c|;
          LeadingComma(digits, p);
        } else {
          SuffixOfConcat(a, rest, q);
        }
      }
    }
  }

  /** A comma GroupFrom writes first is followed by the remaining digits, a multiple of three of them. */
  lemma {:induction false} LeadingComma(digits: string, p: nat)
    requires AllDigits(digits) && 0 < p < |digits| && (|digits| - p) % 3 == 0
    ensures CountDigits(GroupFrom(digits, p)[1..]) == |digits| - p
  {
    var rest := GroupFrom(digits, p + 1);
    assert GroupFrom(digits, p) == ("," + [digits[p]]) + rest;
    assert GroupFrom(digits, p)[1..] == [digits[p]] + rest;
    GroupFromCount(digits, p + 1);
    CountDigitsAppend([digits[p]], rest);
    assert CountDigits([digits[p]]) == 1 by {
      assert [digits[p]][1..] == "";
    }
  }

  lemma {:induction false} SuffixOfConcat(a: string, b: string, q: nat)
    requires |a| <= q < |a + b|
    ensures (a + b)[q] == b[q - |a|] && (a + b)[q + 1..] == b[q - |a| + 1..]
  {
  }

  lemma {:induction false} Regroup(a: string, g: string, b: string, t: string)
    ensures a + ((g + b) + t) == ((a + g) + b) + t
  {
  }

  /**
   * formatNumber's output: a single '.' followed by exactly two digits;
   * before it only digits and commas, starting with a digit; no minus sign;
   * every comma is followed by a positive multiple of three digits before
   * the '.'; and the integer part is the integer digits grouped in threes.
   */
  lemma {:induction false} FormatNumberShape(cents: int)
    ensures var t := FormatNumber(cents);
      && |t| >= 4
      && t[|t| - 3] == '.' && IsDigit(t[|t| - 2]) && IsDigit(t[|t| - 1])
      && IsDigit(t[0])
      && (forall k :: 0 <= k < |t| - 3 ==> IsDigit(t[k]) || t[k] == ',')
      && (forall k :: 0 <= k < |t| ==> t[k] != '-')
      && (forall k :: 0 <= k < |t| && t[k] == '.' ==> k == |t| - 3)
      && (forall q :: 0 <= q < |t| && t[q] == ',' ==>
            0 < q < |t| - 3 && CountDigits(t[q + 1..|t| - 3]) > 0 && CountDigits(t[q + 1..|t| - 3]) % 3 == 0)
      && t[..|t| - 3] == GroupThousands(Decimal(Abs(cents) / 100))
      && t[|t| - 2..] == ToFixed2(Abs(cents))[|ToFixed2(Abs(cents))| - 2..]
  {
    var n := Abs(cents);
    var i := Decimal(n / 100);
    var f := [DigitChar(n % 100 / 10), DigitChar(n % 10)];
    FixedParts(n);
    InsertSeparatorsIsGroupFrom(i, f, 0);
    GroupedShape(i, f);
  }

  /** The shape of GroupFrom(i, 0) + "." + f for integer digits i and two fraction digits f. */
  lemma {:induction false} GroupedShape(i: string, f: string)
    requires |i| >= 1 && AllDigits(i) && |f| == 2 && AllDigits(f)
    ensures var t := GroupFrom(i, 0) + "." + f;
      && |t| >= 4
      && t[|t| - 3] == '.' && IsDigit(t[|t| - 2]) && IsDigit(t[|t| - 1])
      && IsDigit(t[0])
      && (forall k :: 0 <= k < |t| - 3 ==> IsDigit(t[k]) || t[k] == ',')
      && (forall k :: 0 <= k < |t| ==> t[k] != '-')
      && (forall k :: 0 <= k < |t| && t[k] == '.' ==> k == |t| - 3)
      && (forall q :: 0 <= q < |t| && t[q] == ',' ==>
            0 < q < |t| - 3 && CountDigits(t[q + 1..|t| - 3]) > 0 && CountDigits(t[q + 1..|t| - 3]) % 3 == 0)
      && t[..|t| - 3] == GroupThousands(i)
      && t[|t| - 2..] == f
  {
    GroupFromIsGroupThousands(i);
    GroupFromAlphabet(i, 0);
    GroupFromCommas(i, 0);
    var g := GroupFrom(i, 0);
    assert g == [i[0]] + GroupFrom(i, 1);
    ShapeOfParts(g, f);
  }

  /** toFixed(2) is the integer numeral, a '.', and the two digits of the cents. */
  lemma {:induction false} FixedParts(n: nat)
    ensures var f := [DigitChar(n % 100 / 10), DigitChar(n % 10)];
      ToFixed2(n) == Decimal(n / 100) + "." + f && ToFixed2(n)[|ToFixed2(n)| - 2..] == f
  {
    var f := [DigitChar(n % 100 / 10), DigitChar(n % 10)];
    var s := ToFixed2(n);
    assert s == Decimal(n / 100) + "." + f;
    assert s[|s| - 2..] == f;
  }

  /** The shape of g + "." + f for a grouped integer part g and two fraction digits f. */
  lemma {:induction false} ShapeOfParts(g: string, f: string)
    requires |g| >= 1 && IsDigit(g[0]) && |f| == 2 && AllDigits(f)
    requires forall k :: 0 <= k < |g| ==> IsDigit(g[k]) || g[k] == ','
    requires forall q :: 0 <= q < |g| && g[q] == ',' ==> CountDigits(g[q + 1..]) > 0 && CountDigits(g[q + 1..]) % 3 == 0
    ensures var t := g + "." + f;
      && |t| >= 4
      && t[|t| - 3] == '.' && IsDigit(t[|t| - 2]) && IsDigit(t[|t| - 1])
      && IsDigit(t[0])
      && (forall k :: 0 <= k < |t| - 3 ==> IsDigit(t[k]) || t[k] == ',')
      && (forall k :: 0 <= k < |t| ==> t[k] != '-')
      && (forall k :: 0 <= k < |t| && t[k] == '.' ==> k == |t| - 3)
      && (forall q :: 0 <= q < |t| && t[q] == ',' ==>
            0 < q < |t| - 3 && CountDigits(t[q + 1..|t| - 3]) > 0 && CountDigits(t[q + 1..|t| - 3]) % 3 == 0)
      && t[..|t| - 3] == g
      && t[|t| - 2..] == f
  {
    var t := g + "." + f;
    assert t[..|t| - 3] == g;
    forall q | 0 <= q < |t| && t[q] == ','
      ensures 0 < q < |t| - 3 && CountDigits(t[q + 1..|t| - 3]) > 0 && CountDigits(t[q + 1..|t| - 3]) % 3 == 0
    {
      assert q < |g|;
      assert t[q + 1..|t| - 3] == g[q + 1..];
    }
  }

  /** Deleting the commas of formatNumber's output gives exactly abs(x).toFixed(2). */
  lemma {:induction false} FormatNumberWithoutCommas(cents: int)
    ensures RemoveCommas(FormatNumber(cents)) == ToFixed2(Abs(cents))
    ensures var s := RemoveCommas(FormatNumber(cents));
      |s| >= 4 && AllDigits(s[..|s| - 3]) && IsDigit(s[|s| - 2]) && IsDigit(s[|s| - 1])
      && FixedCents(s) == Abs(cents)
  {
    var s := ToFixed2(Abs(cents));
    forall k | 0 <= k < |s| ensures s[k] != ',' {
      if k < |s| - 3 { assert s[..|s| - 3][k] == s[k]; }
    }
    RemoveInsertedSeparators(s, 0);
    assert s[0..] == s;
    ToFixed2RoundTrip(Abs(cents));
  }
}
