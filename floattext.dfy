/**
 * Python's `float(str)` on plain decimal text (optional surrounding
 * whitespace, an optional sign, digits with an optional decimal point),
 * and the rendering of a decimal that it reads back.
 */
module FloatText {
  import opened Wrappers
  import opened Text

  predicate IsDigit(c: char)
  {
    '0' <= c <= '9'
  }

  predicate AllDigits(s: string)
  {
    forall i :: 0 <= i < |s| ==> IsDigit(s[i])
  }

  function Pow10(k: nat): (p: nat)
    ensures p >= 1
  {
    if k == 0 then 1 else 10 * Pow10(k - 1)
  }

  /** The character of the digit `d`. */
  function Digit(d: nat): (c: char)
    requires d < 10
    ensures IsDigit(c) && c as int - '0' as int == d
  {
    ('0' as int + d) as char
  }

  /** The number a digit string denotes, most significant digit first. */
  function DigitsValue(ds: string): nat
    requires AllDigits(ds)
  {
    if ds == [] then 0
    else DigitsValue(ds[..|ds| - 1]) * 10 + (ds[|ds| - 1] as int - '0' as int)
  }

  /** The position of the first `c` in `s`, or `|s|` when there is none. */
  function IndexOf(s: string, c: char): (i: nat)
    ensures i <= |s|
    ensures i < |s| ==> s[i] == c
    ensures forall j :: 0 <= j < i ==> s[j] != c
  {
    if s == [] then 0
    else if s[0] == c then 0
    else
      var i := 1 + IndexOf(s[1..], c);
      assert forall j :: 1 <= j < i ==> s[j] == s[1..][j - 1];
      i
  }

  /** The value of the digits `whole`, a point, and `places` digits spelling `frac`. */
  function Magnitude(whole: nat, frac: nat, places: nat): (x: real)
    ensures x >= 0.0
  {
    whole as real + frac as real / Pow10(places) as real
  }

  /**
   * An unsigned decimal: digits, optionally a point and more digits, with
   * at least one digit in all ("5", "5.", ".5", "5.25"). Anything else,
   * including a second point, is not a number.
   */
  function ParseUnsigned(b: string): (r: Option<real>)
    ensures r.Some? ==> r.value >= 0.0
    ensures r.Some? ==> '%' !in b
  {
    var i := IndexOf(b, '.');
    var whole := b[..i];
    var frac := if i < |b| then b[i + 1..] else [];
    if AllDigits(whole) && AllDigits(frac) && |whole| + |frac| >= 1 then
      assert '%' !in b by {
        forall j | 0 <= j < |b| ensures b[j] != '%' {
          if j < i {
            assert b[j] == whole[j];
          } else if i < j {
            assert b[j] == frac[j - i - 1];
          }
        }
      }
      Some(Magnitude(DigitsValue(whole), DigitsValue(frac), |frac|))
    else
      None
  }

  /** A decimal with an optional leading '+' or '-'. */
  function ParseSigned(t: string): (r: Option<real>)
    ensures r.Some? ==> '%' !in t
  {
    if t != [] && (t[0] == '+' || t[0] == '-') then
      assert t == [t[0]] + t[1..];
      match ParseUnsigned(t[1..])
      case None => None
      case Some(x) => Some(if t[0] == '-' then -x else x)
    else
      ParseUnsigned(t)
  }

  /**
   * `float(s)` on decimal text: whitespace around the text is ignored, and
   * a leading '+' or '-' gives the sign. A number never contains '%'.
   */
  function ParseFloat(s: string): (r: Option<real>)
    ensures r.Some? ==> '%' !in s
  {
    PercentNotStripped(s);
    ParseSigned(Strip(s))
  }

  /** Stripping whitespace never removes a '%'. */
  lemma {:induction false} PercentNotStripped(s: string)
    ensures '%' in s ==> '%' in TrimEnd(TrimStart(s))
  {
    if '%' in s {
      var i :| 0 <= i < |s| && s[i] == '%';
      var j := KeptByTrimStart(s, i);
      var l := KeptByTrimEnd(TrimStart(s), j);
      assert TrimEnd(TrimStart(s))[l] == '%';
    }
  }

  /** A non-space character survives `lstrip()`, at position `j` of the result. */
  lemma {:induction false} KeptByTrimStart(s: string, i: nat) returns (j: nat)
    requires i < |s| && !IsSpace(s[i])
    ensures j < |TrimStart(s)| && TrimStart(s)[j] == s[i]
  {
    var u := TrimStart(s);
    var k := |s| - |u|;
    assert AllSpace(s[..k]) && u == s[k..];
    assert i >= k;
    j := i - k;
    assert u[j] == s[i];
  }

  /** A non-space character survives `rstrip()`, at the same position. */
  lemma {:induction false} KeptByTrimEnd(s: string, i: nat) returns (j: nat)
    requires i < |s| && !IsSpace(s[i])
    ensures j < |TrimEnd(s)| && TrimEnd(s)[j] == s[i]
  {
    j := i;
  }

  // The dashboard never renders numbers itself: `Decimal`, `NatDigits`,
  // `PadDigits` and `Render` below describe the text a summary cell may
  // hold, and serve only to state `ParseRender`.

  /** A decimal number written with `places` digits after the point. */
  datatype Decimal = Decimal(negative: bool, whole: nat, frac: nat, places: nat)
  {
    predicate Valid()
    {
      frac < Pow10(places)
    }

    function Value(): real
    {
      if negative then -Magnitude(whole, frac, places) else Magnitude(whole, frac, places)
    }
  }

  /** The shortest digit string of `n`. */
  function NatDigits(n: nat): (ds: string)
    ensures ds != [] && AllDigits(ds) && DigitsValue(ds) == n
  {
    if n < 10 then [Digit(n)]
    else
      var ds := NatDigits(n / 10) + [Digit(n % 10)];
      assert ds[..|ds| - 1] == NatDigits(n / 10);
      ds
  }

  /** The digits of `n`, zero-padded on the left to exactly `w` digits. */
  function PadDigits(n: nat, w: nat): (ds: string)
    requires n < Pow10(w)
    ensures |ds| == w && AllDigits(ds) && DigitsValue(ds) == n
  {
    if w == 0 then []
    else
      var ds := PadDigits(n / 10, w - 1) + [Digit(n % 10)];
      assert ds[..|ds| - 1] == PadDigits(n / 10, w - 1);
      ds
  }

  /** "-12.50" style text of a decimal: a sign if negative, the whole digits, then the point and the places. */
  function Render(d: Decimal): (s: string)
    requires d.Valid()
    ensures s != [] && !IsSpace(s[0]) && IsDigit(s[|s| - 1]) && '%' !in s
  {
    var body := NatDigits(d.whole) + (if d.places == 0 then [] else ['.'] + PadDigits(d.frac, d.places));
    var s := (if d.negative then ['-'] else []) + body;
    assert forall i :: 0 <= i < |s| ==> IsDigit(s[i]) || s[i] == '.' || s[i] == '-';
    s
  }

  /** `float` reads back every rendered decimal as its value. */
  lemma {:induction false} ParseRender(d: Decimal)
    requires d.Valid()
    ensures ParseFloat(Render(d)) == Some(d.Value())
  {
    RenderStripped(d);
    RenderSigned(d);
  }

  lemma {:induction false} RenderStripped(d: Decimal)
    requires d.Valid()
    ensures Strip(Render(d)) == Render(d)
  {
    var s := Render(d);
    assert !IsSpace(s[|s| - 1]);
    assert Trimmed(s);
  }

  lemma {:induction false} RenderSigned(d: Decimal)
    requires d.Valid()
    ensures ParseSigned(Render(d)) == Some(d.Value())
  {
    var w := NatDigits(d.whole);
    var rest: string := if d.places == 0 then [] else ['.'] + PadDigits(d.frac, d.places);
    ParseBody(w, rest, d);
    if d.negative {
      RenderNegative(d, w, rest);
    } else {
      RenderNonNegative(d, w, rest);
    }
  }

  lemma {:induction false} RenderNegative(d: Decimal, w: string, rest: string)
    requires d.Valid() && d.negative && w == NatDigits(d.whole)
    requires rest == if d.places == 0 then [] else ['.'] + PadDigits(d.frac, d.places)
    requires ParseUnsigned(w + rest) == Some(Magnitude(d.whole, d.frac, d.places))
    ensures ParseSigned(Render(d)) == Some(d.Value())
  {
    var s := Render(d);
    assert s == ['-'] + (w + rest);
    assert s[1..] == w + rest;
    MinusSign(s, Magnitude(d.whole, d.frac, d.places));
  }

  lemma {:induction false} RenderNonNegative(d: Decimal, w: string, rest: string)
    requires d.Valid() && !d.negative && w == NatDigits(d.whole)
    requires rest == if d.places == 0 then [] else ['.'] + PadDigits(d.frac, d.places)
    requires ParseUnsigned(w + rest) == Some(Magnitude(d.whole, d.frac, d.places))
    ensures ParseSigned(Render(d)) == Some(d.Value())
  {
    var s := Render(d);
    assert s == w + rest;
    assert s[0] == w[0];
    Unsigned(s);
  }

  /** Text starting with a digit carries no sign. */
  lemma {:induction false} Unsigned(t: string)
    requires t != [] && IsDigit(t[0])
    ensures ParseSigned(t) == ParseUnsigned(t)
  {
  }

  lemma {:induction false} MinusSign(t: string, x: real)
    requires t != [] && t[0] == '-' && ParseUnsigned(t[1..]) == Some(x)
    ensures ParseSigned(t) == Some(-x)
  {
  }

  lemma {:induction false} ParseBody(w: string, rest: string, d: Decimal)
    requires d.Valid() && w == NatDigits(d.whole)
    requires rest == if d.places == 0 then [] else ['.'] + PadDigits(d.frac, d.places)
    ensures ParseUnsigned(w + rest) == Some(Magnitude(d.whole, d.frac, d.places))
  {
    var b := w + rest;
    var i := IndexOf(b, '.');
    var frac: string := if d.places == 0 then [] else PadDigits(d.frac, d.places);
    if rest == [] {
      assert b == w;
      assert forall j :: 0 <= j < |w| ==> w[j] != '.';
      assert i == |w|;
    } else {
      assert b[|w|] == '.';
      assert forall j :: 0 <= j < |w| ==> b[j] == w[j] && w[j] != '.';
      assert i == |w|;
      assert b[i + 1..] == frac;
    }
    assert b[..i] == w;
    assert (if i < |b| then b[i + 1..] else []) == frac;
    assert AllDigits(frac) && DigitsValue(frac) == d.frac && |frac| == d.places;
  }
}
