/**
 * The ECMAScript string and number conversions the components rely on:
 * `String.prototype.trim`, `Number(text)` and `Number.prototype.toFixed(1)`,
 * stated over mathematical reals.
 */
module JsText {
  import opened Wrappers

  /** The WhiteSpace and LineTerminator code points that `trim` removes and `Number` skips. */
  predicate IsWhitespace(c: char)
  {
    if c < '\U{A0}' then ('\t' <= c <= '\r') || c == ' '
    else
      || c == '\U{A0}' || c == '\U{1680}' || ('\U{2000}' <= c <= '\U{200A}')
      || c == '\U{2028}' || c == '\U{2029}' || c == '\U{202F}' || c == '\U{205F}'
      || c == '\U{3000}' || c == '\U{FEFF}'
  }

  predicate AllWhitespace(s: string)
  {
    forall k :: 0 <= k < |s| ==> IsWhitespace(s[k])
  }

  /** The index of the first non-blank character of `s` at or after `i`, or |s| when there is none. */
  function SkipBlanks(s: string, i: nat): (k: nat)
    requires i <= |s|
    ensures i <= k <= |s|
    ensures k < |s| ==> !IsWhitespace(s[k])
    decreases |s| - i
  {
    if i < |s| && IsWhitespace(s[i]) then SkipBlanks(s, i + 1) else i
  }

  /** What `SkipBlanks` passes over is whitespace. */
  lemma {:induction false} SkippedAreBlank(s: string, i: nat)
    requires i <= |s|
    ensures forall k :: i <= k < SkipBlanks(s, i) ==> IsWhitespace(s[k])
    decreases |s| - i
  {
    if i < |s| && IsWhitespace(s[i]) {
      SkippedAreBlank(s, i + 1);
    }
  }

  /** The end of `s[lo..j]` once its trailing whitespace is dropped. */
  function DropTrailingBlanks(s: string, lo: nat, j: nat): (k: nat)
    requires lo <= j <= |s|
    ensures lo <= k <= j
    ensures k > lo ==> !IsWhitespace(s[k - 1])
    decreases j
  {
    if j > lo && IsWhitespace(s[j - 1]) then DropTrailingBlanks(s, lo, j - 1) else j
  }

  /** What `DropTrailingBlanks` passes over is whitespace. */
  lemma {:induction false} DroppedAreBlank(s: string, lo: nat, j: nat)
    requires lo <= j <= |s|
    ensures forall k :: DropTrailingBlanks(s, lo, j) <= k < j ==> IsWhitespace(s[k])
    decreases j
  {
    if j > lo && IsWhitespace(s[j - 1]) {
      DroppedAreBlank(s, lo, j - 1);
    }
  }

  /** A range starting with a non-blank keeps at least that character. */
  lemma {:induction false} NonBlankKeepsEnd(s: string, lo: nat, j: nat)
    requires lo < j <= |s| && !IsWhitespace(s[lo])
    ensures DropTrailingBlanks(s, lo, j) > lo
    decreases j
  {
    if IsWhitespace(s[j - 1]) {
      NonBlankKeepsEnd(s, lo, j - 1);
    }
  }

  /** `s.trim()`: `s` without its leading and trailing whitespace. */
  function Trim(s: string): (r: string)
    ensures |r| <= |s|
    ensures r == [] || (!IsWhitespace(r[0]) && !IsWhitespace(r[|r| - 1]))
  {
    var start := SkipBlanks(s, 0);
    s[start..DropTrailingBlanks(s, start, |s|)]
  }

  /** The blank strings are exactly those whose trimmed form is empty. */
  lemma TrimEmptyIffBlank(s: string)
    ensures Trim(s) == [] <==> AllWhitespace(s)
  {
    var start := SkipBlanks(s, 0);
    SkippedAreBlank(s, 0);
    if start < |s| {
      NonBlankKeepsEnd(s, start, |s|);
    }
  }

  /** `trim` keeps a contiguous middle of the text and drops only whitespace before and after it. */
  lemma TrimDropsOnlyBlanks(s: string)
    ensures exists i, j ::
              && 0 <= i <= j <= |s| && Trim(s) == s[i..j]
              && (forall k :: 0 <= k < i ==> IsWhitespace(s[k]))
              && (forall k :: j <= k < |s| ==> IsWhitespace(s[k]))
  {
    var i := SkipBlanks(s, 0);
    var j := DropTrailingBlanks(s, i, |s|);
    SkippedAreBlank(s, 0);
    DroppedAreBlank(s, i, |s|);
    assert Trim(s) == s[i..j];
  }

  /** Text that neither starts nor ends with whitespace is left as it is by `trim`. */
  lemma TrimKeepsUnpadded(s: string)
    requires s != [] && !IsWhitespace(s[0]) && !IsWhitespace(s[|s| - 1])
    ensures Trim(s) == s
  {
  }

  /** Trimming twice is trimming once. */
  lemma TrimIdempotent(s: string)
    ensures Trim(Trim(s)) == Trim(s)
  {
    if Trim(s) != [] {
      TrimKeepsUnpadded(Trim(s));
    }
  }

  // Decimal digits

  predicate IsDigit(c: char)
  {
    '0' <= c <= '9'
  }

  /** Every character of `s[lo..hi]` is a decimal digit. */
  predicate DigitsIn(s: string, lo: nat, hi: nat)
    requires lo <= hi <= |s|
  {
    forall k :: lo <= k < hi ==> IsDigit(s[k])
  }

  predicate AllDigits(s: string)
  {
    DigitsIn(s, 0, |s|)
  }

  function DigitValue(c: char): (d: nat)
    requires IsDigit(c)
    ensures d < 10
  {
    (c as int) - ('0' as int)
  }

  function DigitChar(d: nat): (c: char)
    requires d < 10
    ensures IsDigit(c) && DigitValue(c) == d
  {
    (d + '0' as int) as char
  }

  /** The value of the digits `s[lo..hi]`, most significant first. */
  function ValueIn(s: string, lo: nat, hi: nat): nat
    requires lo <= hi <= |s| && DigitsIn(s, lo, hi)
    decreases hi - lo
  {
    if hi == lo then 0 else ValueIn(s, lo, hi - 1) * 10 + DigitValue(s[hi - 1])
  }

  /** The value of a run of decimal digits. */
  function DigitsValue(s: string): nat
    requires AllDigits(s)
  {
    ValueIn(s, 0, |s|)
  }

  /** Digits at the front of `a + b` have the value they have in `a`. */
  lemma {:induction false} ValueOfPrefix(a: string, b: string, hi: nat)
    requires hi <= |a| && DigitsIn(a, 0, hi)
    ensures DigitsIn(a + b, 0, hi) && ValueIn(a + b, 0, hi) == ValueIn(a, 0, hi)
    decreases hi
  {
    assert forall k :: 0 <= k < hi ==> (a + b)[k] == a[k];
    if hi > 0 {
      ValueOfPrefix(a, b, hi - 1);
    }
  }

  /** The shortest decimal numeral of `n`. */
  function NatDigits(n: nat): (r: string)
    ensures r != [] && AllDigits(r)
  {
    if n < 10 then [DigitChar(n)] else NatDigits(n / 10) + [DigitChar(n % 10)]
  }

  /** Reading back the numeral of `n` gives `n`. */
  lemma {:induction false} NatDigitsRoundTrip(n: nat)
    ensures DigitsValue(NatDigits(n)) == n
  {
    var r := NatDigits(n);
    if n >= 10 {
      var front := NatDigits(n / 10);
      ValueOfPrefix(front, [DigitChar(n % 10)], |front|);
      NatDigitsRoundTrip(n / 10);
      assert r[|r| - 1] == DigitChar(n % 10);
      assert ValueIn(r, 0, |r|) == ValueIn(r, 0, |front|) * 10 + n % 10;
    }
  }

  /** `x * 10^e` for a whole exponent `e`, one factor of ten at a time. */
  function ScaleByTen(x: real, e: int): real
    decreases if e < 0 then -e else e
  {
    if e == 0 then x
    else if e > 0 then ScaleByTen(x, e - 1) * 10.0
    else ScaleByTen(x, e + 1) / 10.0
  }

  // Number(text)

  /** The index of the first character of `s[i..hi]` in `targets`, or `hi` when there is none. */
  function IndexOfAny(s: string, targets: set<char>, i: nat, hi: nat): (k: nat)
    requires i <= hi <= |s|
    ensures i <= k <= hi
    ensures k < hi ==> s[k] in targets
    ensures forall j :: i <= j < k ==> s[j] !in targets
    decreases hi - i
  {
    if i == hi then i
    else if s[i] in targets then i
    else IndexOfAny(s, targets, i + 1, hi)
  }

  /** The value of the decimal mantissa `s[lo..hi]`: `digits [. digits]` or `. digits`; nothing when it is not one. */
  function Mantissa(s: string, lo: nat, hi: nat): Option<real>
    requires lo <= hi <= |s|
  {
    var dot := IndexOfAny(s, {'.'}, lo, hi);
    var fraction := if dot < hi then dot + 1 else hi;
    if DigitsIn(s, lo, dot) && DigitsIn(s, fraction, hi) && (dot - lo) + (hi - fraction) > 0 then
      Some(ValueIn(s, lo, dot) as real + ScaleByTen(ValueIn(s, fraction, hi) as real, -(hi - fraction)))
    else None
  }

  /** The exponent of the exponent part `s[lo..hi]`: `[+|-] digits`; nothing when it is not one. */
  function Exponent(s: string, lo: nat, hi: nat): Option<int>
    requires lo <= hi <= |s|
  {
    if lo < hi && (s[lo] == '+' || s[lo] == '-') then
      if lo + 1 < hi && DigitsIn(s, lo + 1, hi) then
        Some(if s[lo] == '-' then -(ValueIn(s, lo + 1, hi) as int) else ValueIn(s, lo + 1, hi))
      else None
    else if lo < hi && DigitsIn(s, lo, hi) then Some(ValueIn(s, lo, hi))
    else None
  }

  /** An unsigned decimal literal: a mantissa with an optional `e`/`E` exponent part. */
  function UnsignedDecimal(t: string): Option<real>
  {
    var e := IndexOfAny(t, {'e', 'E'}, 0, |t|);
    match Mantissa(t, 0, e)
    case None => None
    case Some(m) =>
      if e == |t| then Some(m)
      else
        match Exponent(t, e + 1, |t|)
        case None => None
        case Some(x) => Some(ScaleByTen(m, x))
  }

  /**
   * `Number(s)` for decimal text, with `None` standing for NaN: surrounding whitespace
   * is ignored, blank text is 0, and anything that is not a signed decimal literal is NaN.
   */
  function ToNumber(s: string): Option<real>
  {
    SignedDecimal(Trim(s))
  }

  /** Blank text, the empty string included, reads as 0. */
  lemma BlankReadsZero(s: string)
    requires AllWhitespace(s)
    ensures ToNumber(s) == Some(0.0)
  {
    TrimEmptyIffBlank(s);
  }

  /** Trimmed text as `Number` reads it: empty is 0, then an optional sign and an unsigned decimal. */
  function SignedDecimal(t: string): Option<real>
  {
    if t == [] then Some(0.0)
    else if t[0] == '-' then
      match UnsignedDecimal(t[1..])
      case None => None
      case Some(v) => Some(-v)
    else if t[0] == '+' then UnsignedDecimal(t[1..])
    else UnsignedDecimal(t)
  }

  // x.toFixed(1)

  /** The number of tenths in `a`, rounded to nearest with ties away from zero. */
  function Tenths(a: real): (n: nat)
    requires a >= 0.0
    ensures n as real - 0.5 <= a * 10.0 < n as real + 0.5
  {
    (a * 10.0 + 0.5).Floor
  }

  /** The unsigned part of `toFixed(1)` for `n` tenths. */
  function FixedBody(n: nat): (body: string)
    ensures body != [] && IsDigit(body[0]) && IsDigit(body[|body| - 1])
  {
    NatDigits(n / 10) + "." + [DigitChar(n % 10)]
  }

  /**
   * `x.toFixed(1)`: the sign when x is negative, then the whole tenths and one
   * decimal digit. The whole part is padded to at least one digit ("0.5").
   */
  function ToFixed1(x: real): (r: string)
    ensures r != [] && IsDigit(r[|r| - 1])
    ensures !IsWhitespace(r[0])
  {
    (if x < 0.0 then "-" else "") + FixedBody(Tenths(if x < 0.0 then -x else x))
  }

  /** The value `x.toFixed(1)` shows: x rounded to one decimal, ties away from zero. */
  function RoundTenth(x: real): real
  {
    var n := Tenths(if x < 0.0 then -x else x);
    if x < 0.0 then -(n as real / 10.0) else n as real / 10.0
  }

  /** Rounding to one decimal moves a value by at most half a tenth. */
  lemma RoundTenthIsClose(x: real)
    ensures -0.05 <= RoundTenth(x) - x <= 0.05
  {
  }

  predicate IsWholeTenths(x: real)
  {
    (x * 10.0).Floor as real == x * 10.0
  }

  /** Rounding a whole number of tenths to the nearest tenth leaves it as it is. */
  lemma TenthsOfWhole(a: real, k: nat)
    requires a >= 0.0 && a * 10.0 == k as real
    ensures Tenths(a) == k
  {
    assert a * 10.0 + 0.5 == k as real + 0.5;
  }

  /** A value with at most one decimal is unchanged by rounding to one decimal. */
  lemma RoundTenthKeepsTenths(x: real)
    requires IsWholeTenths(x)
    ensures RoundTenth(x) == x
  {
    var k := (x * 10.0).Floor;
    if x < 0.0 {
      assert (-x) * 10.0 == (-k) as real;
      TenthsOfWhole(-x, -k);
    } else {
      TenthsOfWhole(x, k);
    }
  }

  /** The first member of `targets` in `a + [c] + b` is `c` when `a` holds none of them. */
  lemma IndexOfAnyAfter(a: string, c: char, b: string, targets: set<char>)
    requires c in targets
    requires forall k :: 0 <= k < |a| ==> a[k] !in targets
    ensures IndexOfAny(a + [c] + b, targets, 0, |a + [c] + b|) == |a|
  {
    var s := a + [c] + b;
    assert s[|a|] == c;
    assert forall k :: 0 <= k < |a| ==> s[k] == a[k];
  }

  /** A string holding none of the targets has its search index at its end. */
  lemma IndexOfAnyAbsent(s: string, targets: set<char>)
    requires forall k :: 0 <= k < |s| ==> s[k] !in targets
    ensures IndexOfAny(s, targets, 0, |s|) == |s|
  {
  }

  /** A mantissa whose first point is at `dot` reads the digits before it and the digits after it. */
  lemma MantissaAt(m: string, dot: nat)
    requires dot < |m| && IndexOfAny(m, {'.'}, 0, |m|) == dot
    requires DigitsIn(m, 0, dot) && DigitsIn(m, dot + 1, |m|) && 0 < |m| - 1
    ensures Mantissa(m, 0, |m|) == Some(ValueIn(m, 0, dot) as real + ScaleByTen(ValueIn(m, dot + 1, |m|) as real, -(|m| - (dot + 1))))
  {
  }

  /** Digits, a point and one digit read back as a mantissa. */
  lemma MantissaOfPoint(whole: string, d: nat)
    requires whole != [] && AllDigits(whole) && d < 10
    ensures Mantissa(whole + "." + [DigitChar(d)], 0, |whole| + 2) == Some(DigitsValue(whole) as real + d as real / 10.0)
  {
    var c := DigitChar(d);
    var m := whole + "." + [c];
    var w := |whole|;
    IndexOfAnyAfter(whole, '.', [c], {'.'});
    assert m == whole + ("." + [c]);
    ValueOfPrefix(whole, "." + [c], w);
    assert m[w + 1] == c;
    assert ValueIn(m, w + 1, w + 2) == d by {
      assert ValueIn(m, w + 1, w + 1) == 0;
    }
    assert ScaleByTen(d as real, -1) == d as real / 10.0;
    MantissaAt(m, w);
  }

  /** A literal without an exponent part is just its mantissa. */
  lemma WithoutExponent(t: string, m: real)
    requires IndexOfAny(t, {'e', 'E'}, 0, |t|) == |t| && Mantissa(t, 0, |t|) == Some(m)
    ensures UnsignedDecimal(t) == Some(m)
  {
  }

  /** Digits, a point and one digit, without an exponent, read back as that decimal. */
  lemma UnsignedOfPoint(whole: string, d: nat)
    requires whole != [] && AllDigits(whole) && d < 10
    ensures UnsignedDecimal(whole + "." + [DigitChar(d)]) == Some(DigitsValue(whole) as real + d as real / 10.0)
  {
    var t := whole + "." + [DigitChar(d)];
    MantissaOfPoint(whole, d);
    assert forall k :: 0 <= k < |t| ==> t[k] == '.' || IsDigit(t[k]);
    IndexOfAnyAbsent(t, {'e', 'E'});
    WithoutExponent(t, DigitsValue(whole) as real + d as real / 10.0);
  }

  /** Whole tenths and the tenths digit add back to the count of tenths. */
  lemma SplitTenths(n: nat)
    ensures (n / 10) as real + (n % 10) as real / 10.0 == n as real / 10.0
  {
    var q, r := n / 10, n % 10;
    assert n == q * 10 + r;
    assert n as real == q as real * 10.0 + r as real;
  }

  /** The unsigned text of `toFixed(1)` reads back as its number of tenths over ten. */
  lemma UnsignedOfFixed(n: nat)
    ensures UnsignedDecimal(FixedBody(n)) == Some(n as real / 10.0)
  {
    UnsignedOfPoint(NatDigits(n / 10), n % 10);
    NatDigitsRoundTrip(n / 10);
    SplitTenths(n);
  }

  /** Text without surrounding whitespace is read without trimming. */
  lemma ReadsUnpadded(t: string)
    requires t != [] && !IsWhitespace(t[0]) && !IsWhitespace(t[|t| - 1])
    ensures ToNumber(t) == SignedDecimal(t)
  {
    TrimKeepsUnpadded(t);
  }

  /** Unpadded text starting with a digit is read as an unsigned decimal. */
  lemma ReadsUnsigned(body: string)
    requires body != [] && IsDigit(body[0]) && IsDigit(body[|body| - 1])
    ensures ToNumber(body) == UnsignedDecimal(body)
  {
    ReadsUnpadded(body);
  }

  /** A run of digits is a mantissa without a fraction. */
  lemma MantissaOfDigits(s: string)
    requires s != [] && AllDigits(s)
    ensures Mantissa(s, 0, |s|) == Some(DigitsValue(s) as real)
  {
    IndexOfAnyAbsent(s, {'.'});
    assert ValueIn(s, |s|, |s|) == 0;
  }

  /** Text made only of decimal digits reads as the number they spell. */
  lemma ReadsDigits(s: string)
    requires s != [] && AllDigits(s)
    ensures ToNumber(s) == Some(DigitsValue(s) as real)
  {
    ReadsUnsigned(s);
    IndexOfAnyAbsent(s, {'e', 'E'});
    MantissaOfDigits(s);
    WithoutExponent(s, DigitsValue(s) as real);
  }

  /** A leading minus negates the unsigned decimal after it. */
  lemma SignedNegative(t: string, v: real)
    requires t != [] && t[0] == '-' && UnsignedDecimal(t[1..]) == Some(v)
    ensures SignedDecimal(t) == Some(-v)
  {
  }

  /** A minus sign in front of an unsigned decimal negates it. */
  lemma ReadsNegated(body: string, v: real)
    requires body != [] && IsDigit(body[0]) && IsDigit(body[|body| - 1])
    requires UnsignedDecimal(body) == Some(v)
    ensures ToNumber("-" + body) == Some(-v)
  {
    var s := "-" + body;
    assert s[0] == '-' && s[|s| - 1] == body[|body| - 1];
    ReadsUnpadded(s);
    assert s[1..] == body;
    SignedNegative(s, v);
  }

  /** `toFixed(1)` is the sign of a negative value followed by the text of its tenths. */
  lemma ToFixed1Shape(x: real)
    ensures x < 0.0 ==> ToFixed1(x) == "-" + FixedBody(Tenths(-x))
    ensures x >= 0.0 ==> ToFixed1(x) == FixedBody(Tenths(x))
  {
  }

  /** The rounded value is the signed count of tenths over ten. */
  lemma RoundTenthShape(x: real)
    ensures x < 0.0 ==> RoundTenth(x) == -(Tenths(-x) as real / 10.0)
    ensures x >= 0.0 ==> RoundTenth(x) == Tenths(x) as real / 10.0
  {
  }

  /** The text of `n` tenths reads back as `n / 10`. */
  lemma FixedBodyReads(n: nat)
    ensures ToNumber(FixedBody(n)) == Some(n as real / 10.0)
  {
    UnsignedOfFixed(n);
    ReadsUnsigned(FixedBody(n));
  }

  /** The text of `n` tenths after a minus sign reads back as `-(n / 10)`. */
  lemma NegatedFixedBodyReads(n: nat)
    ensures ToNumber("-" + FixedBody(n)) == Some(-(n as real / 10.0))
  {
    UnsignedOfFixed(n);
    ReadsNegated(FixedBody(n), n as real / 10.0);
  }

  /** `toFixed(1)` of a negative value reads back as minus its rounded magnitude. */
  lemma FixedReadsNegative(x: real)
    requires x < 0.0
    ensures ToNumber(ToFixed1(x)) == Some(RoundTenth(x))
  {
    ToFixed1Shape(x);
    RoundTenthShape(x);
    NegatedFixedBodyReads(Tenths(-x));
  }

  /** `toFixed(1)` of a non-negative value reads back as its rounded value. */
  lemma FixedReadsNonNegative(x: real)
    requires x >= 0.0
    ensures ToNumber(ToFixed1(x)) == Some(RoundTenth(x))
  {
    ToFixed1Shape(x);
    RoundTenthShape(x);
    FixedBodyReads(Tenths(x));
  }

  /** Reading back what `toFixed(1)` shows gives the value rounded to one decimal. */
  lemma ToFixed1RoundTrip(x: real)
    ensures ToNumber(ToFixed1(x)) == Some(RoundTenth(x))
  {
    if x < 0.0 {
      FixedReadsNegative(x);
    } else {
      FixedReadsNonNegative(x);
    }
  }
}
