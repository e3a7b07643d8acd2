/** The part of Python's `float()` that the run times in the result tables
    use: decimal text with an optional sign and at most one decimal point,
    surrounded by optional whitespace, read as an exact real. */
module Decimal {
  import opened Wrappers
  import opened Text

  predicate IsDigit(c: char)
  {
    '0' <= c <= '9'
  }

  predicate AllDigits(s: string)
  {
    forall i :: 0 <= i < |s| ==> IsDigit(s[i])
  }

  function DigitsValue(s: string): nat
    requires AllDigits(s)
  {
    if s == [] then 0 else 10 * DigitsValue(s[..|s| - 1]) + (s[|s| - 1] as int - '0' as int)
  }

  function Pow10(n: nat): (r: nat)
    ensures r >= 1
  {
    if n == 0 then 1 else 10 * Pow10(n - 1)
  }

  /** The text after an optional leading sign. */
  function Unsigned(t: string): (r: string)
    ensures |r| <= |t| && r == t[|t| - |r|..]
  {
    if t != [] && (t[0] == '-' || t[0] == '+') then t[1..] else t
  }

  /** The value with the sign the text starts with. */
  function Signed(t: string, v: real): real
  {
    if t != [] && t[0] == '-' then -v else v
  }

  /** `float(s)`, or None where Python raises ValueError. */
  function ParseReal(s: string): (r: Option<real>)
  {
    var t := Strip(s);
    match ParseBody(Unsigned(t))
    case None => None
    case Some(v) => Some(Signed(t, v))
  }

  /** The digits after the sign, with at most one decimal point. */
  function ParseBody(body: string): (r: Option<real>)
  {
    var parts := Split(body, '.');
    var digits := |body| - (|parts| - 1);
    if |parts| > 2 || digits <= 0 || !AllDigits(parts[0]) || (|parts| == 2 && !AllDigits(parts[1])) then None
    else
      Some(PointValue(parts[0], if |parts| == 2 then parts[1] else []))
  }

  /** The value of the digits before and after a decimal point. */
  function PointValue(whole: string, frac: string): real
    requires AllDigits(whole) && AllDigits(frac)
  {
    DigitsValue(whole) as real + DigitsValue(frac) as real / Pow10(|frac|) as real
  }

  /** The text read here: an optional sign, then ASCII digits and at most
      one decimal point, with at least one digit. */
  predicate DecimalText(t: string)
  {
    DecimalBody(Unsigned(t))
  }

  predicate DecimalBody(body: string)
  {
    && (forall i :: 0 <= i < |body| ==> IsDigit(body[i]) || body[i] == '.')
    && (forall i, j :: 0 <= i < j < |body| && body[i] == '.' ==> body[j] != '.')
    && (exists i :: 0 <= i < |body| && IsDigit(body[i]))
  }

  /** The position of the first `c` in `s`. */
  function FirstIndex(s: string, c: char): (p: nat)
    requires c in s
    ensures p < |s| && s[p] == c && forall i :: 0 <= i < p ==> s[i] != c
  {
    if s[0] == c then 0 else 1 + FirstIndex(s[1..], c)
  }

  /** A string holding the separator splits into at least two parts. */
  lemma SplitSeveral(s: string, d: char)
    requires d in s
    ensures |Split(s, d)| >= 2
  {
    JoinSplit(s, d);
  }

  /** The body splits at its first point into the digits before it and
      the rest. */
  lemma SplitAtPoint(body: string, p: nat)
    requires p < |body| && body[p] == '.' && forall i :: 0 <= i < p ==> body[i] != '.'
    ensures Split(body, '.') == [body[..p]] + Split(body[p + 1..], '.')
  {
    assert body[..p] + ['.'] + body[p + 1..] == body;
    SplitPrefix(body[..p], body[p + 1..], '.');
  }

  /** A body with one point splits into the parts before and after it. */
  lemma SplitOnePoint(body: string, p: nat)
    requires p < |body| && body[p] == '.' && forall i :: 0 <= i < |body| && i != p ==> body[i] != '.'
    ensures Split(body, '.') == [body[..p], body[p + 1..]]
  {
    SplitAtPoint(body, p);
    SplitNoSeparator(body[p + 1..], '.');
  }

  /** The body is read exactly when it is digits with at most one point
      and at least one digit. */
  lemma ParseBodyAccepts(body: string)
    ensures ParseBody(body).Some? <==> DecimalBody(body)
  {
    if '.' !in body {
      ParseBodyNoPoint(body);
    } else {
      var p := FirstIndex(body, '.');
      var rest := body[p + 1..];
      if '.' in rest {
        ParseBodyPoints(body, p, p + 1 + FirstIndex(rest, '.'));
      } else {
        assert forall i :: p < i < |body| ==> body[i] == rest[i - p - 1];
        ParseBodyOnePoint(body, p);
      }
    }
  }

  lemma ParseBodyNoPoint(body: string)
    requires '.' !in body
    ensures ParseBody(body).Some? <==> DecimalBody(body)
  {
    SplitNoSeparator(body, '.');
    assert ParseBody(body).Some? <==> |body| > 0 && AllDigits(body);
    if |body| > 0 && AllDigits(body) {
      assert IsDigit(body[0]);
    }
  }

  lemma ParseBodyPoints(body: string, p: nat, q: nat)
    requires p < q < |body| && body[p] == '.' && body[q] == '.' && forall i :: 0 <= i < p ==> body[i] != '.'
    ensures ParseBody(body).None? && !DecimalBody(body)
  {
    var rest := body[p + 1..];
    assert rest[q - p - 1] == '.';
    SplitAtPoint(body, p);
    SplitSeveral(rest, '.');
  }

  lemma ParseBodyOnePoint(body: string, p: nat)
    requires p < |body| && body[p] == '.' && forall i :: 0 <= i < |body| && i != p ==> body[i] != '.'
    ensures ParseBody(body).Some? <==> DecimalBody(body)
  {
    SplitOnePoint(body, p);
    var before, after := body[..p], body[p + 1..];
    assert ParseBody(body).Some? <==> |body| > 1 && AllDigits(before) && AllDigits(after);
    if |body| > 1 && AllDigits(before) && AllDigits(after) {
      var i := if p == 0 then 1 else 0;
      assert IsDigit(body[i]) by {
        if p == 0 { assert body[i] == after[0]; } else { assert body[i] == before[0]; }
      }
      forall k | 0 <= k < |body| ensures IsDigit(body[k]) || body[k] == '.' {
        if k < p { assert body[k] == before[k]; } else if k > p { assert body[k] == after[k - p - 1]; }
      }
    }
    if DecimalBody(body) {
      var i :| 0 <= i < |body| && IsDigit(body[i]);
      assert i != p;
      assert forall k :: 0 <= k < |before| ==> before[k] == body[k];
      assert forall k :: 0 <= k < |after| ==> after[k] == body[k + p + 1];
    }
  }

  /** `float` accepts exactly the decimal texts, after stripping. */
  lemma ParseRealAccepts(s: string)
    ensures ParseReal(s).Some? <==> DecimalText(Strip(s))
  {
    ParseBodyAccepts(Unsigned(Strip(s)));
  }

  /** Text without a point is read as its digits, with its sign. */
  lemma ParseRealWhole(s: string)
    requires DecimalText(Strip(s)) && '.' !in Unsigned(Strip(s))
    ensures ParseReal(s) == Some(Signed(Strip(s), DigitsValue(Unsigned(Strip(s))) as real))
  {
    ParseBodyWhole(Unsigned(Strip(s)));
  }

  lemma ParseBodyWhole(body: string)
    requires DecimalBody(body) && '.' !in body
    ensures AllDigits(body) && ParseBody(body) == Some(DigitsValue(body) as real)
  {
    SplitNoSeparator(body, '.');
    var i :| 0 <= i < |body| && IsDigit(body[i]);
    assert PointValue(body, []) == DigitsValue(body) as real;
  }

  /** Text with a point at `p` is read as the whole part plus the fraction
      of the digits after the point, with its sign. */
  lemma ParseRealPoint(s: string, p: nat)
    requires DecimalText(Strip(s))
    requires p < |Unsigned(Strip(s))| && Unsigned(Strip(s))[p] == '.'
    ensures var body := Unsigned(Strip(s));
            && AllDigits(body[..p]) && AllDigits(body[p + 1..])
            && ParseReal(s) == Some(Signed(Strip(s), PointValue(body[..p], body[p + 1..])))
  {
    var body := Unsigned(Strip(s));
    ParseBodyPoint(body, p);
  }

  lemma ParseBodyPoint(body: string, p: nat)
    requires DecimalBody(body) && p < |body| && body[p] == '.'
    ensures AllDigits(body[..p]) && AllDigits(body[p + 1..])
    ensures ParseBody(body) == Some(PointValue(body[..p], body[p + 1..]))
  {
    var before, after := body[..p], body[p + 1..];
    assert forall i :: 0 <= i < |body| && i != p ==> body[i] != '.';
    forall k | 0 <= k < |before|
      ensures IsDigit(before[k])
    {
      assert before[k] == body[k];
    }
    forall k | 0 <= k < |after|
      ensures IsDigit(after[k])
    {
      assert after[k] == body[k + p + 1];
    }
    var i :| 0 <= i < |body| && IsDigit(body[i]);
    assert i != p;
    SplitOnePoint(body, p);
    var parts := Split(body, '.');
    assert |parts| == 2 && parts[0] == before && parts[1] == after;
  }

  /** The decimal digits of a natural number. */
  function NatText(n: nat): (r: string)
    ensures r != [] && AllDigits(r)
  {
    var digit := ['0' + (n % 10) as char];
    if n < 10 then digit else NatText(n / 10) + digit
  }

  lemma {:induction false} NatTextValue(n: nat)
    ensures DigitsValue(NatText(n)) == n
  {
    var t := NatText(n);
    assert t[..|t| - 1] == if n < 10 then [] else NatText(n / 10);
    if n >= 10 {
      NatTextValue(n / 10);
    }
  }

  /** No ASCII digit is whitespace. */
  lemma DigitNotSpace(c: char)
    requires IsDigit(c)
    ensures !IsSpace(c)
  {
    var r := SPACE_RANGES;
    assert !InRanges(c, r[9..]);
    assert !InRanges(c, r[8..]);
    assert !InRanges(c, r[7..]);
    assert !InRanges(c, r[6..]);
    assert !InRanges(c, r[5..]);
    assert !InRanges(c, r[4..]);
    assert !InRanges(c, r[3..]);
    assert !InRanges(c, r[2..]);
    assert !InRanges(c, r[1..]);
  }

  /** The decimal text of a natural number is read as that number. */
  lemma ParseRealNat(n: nat)
    ensures ParseReal(NatText(n)) == Some(n as real)
  {
    var t := NatText(n);
    DigitNotSpace(t[0]);
    DigitNotSpace(t[|t| - 1]);
    assert TrimStart(t) == t;
    assert Strip(t) == t;
    assert Unsigned(t) == t;
    assert IsDigit(t[0]);
    assert DecimalText(t);
    NatTextValue(n);
    ParseRealWhole(t);
  }
}
