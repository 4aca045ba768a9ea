/** JavaScript numbers as they appear in this application: finite decimals
    written `units / 10^places`, or `NaN`. The conversions `Number(s)`,
    `parseFloat`, `parseInt` and `toString` are modelled on decimal literals
    of the form `-?D+(.D+)?`; every other string converts to `NaN`. */
module Numbers {
  import opened Wrappers

  function Pow10(n: nat): (r: nat)
    ensures r >= 1
  {
    if n == 0 then 1 else 10 * Pow10(n - 1)
  }

  function Abs(x: int): nat { if x < 0 then -x else x }

  predicate IsDigit(c: char) { '0' <= c <= '9' }

  predicate AllDigits(s: string) {
    forall i :: 0 <= i < |s| ==> IsDigit(s[i])
  }

  function DigitValue(c: char): nat
    requires IsDigit(c)
  {
    c as int - '0' as int
  }

  function DigitChar(d: nat): (c: char)
    requires d < 10
    ensures IsDigit(c) && DigitValue(c) == d
  {
    ('0' as int + d) as char
  }

  /** The value of a string of decimal digits, most significant first. */
  function DigitsValue(s: string): nat
    requires AllDigits(s)
    decreases |s|
  {
    if s == [] then 0 else DigitsValue(s[..|s| - 1]) * 10 + DigitValue(s[|s| - 1])
  }

  /** The shortest decimal text of a natural number. */
  function NatText(n: nat): (r: string)
    ensures |r| > 0 && AllDigits(r)
    decreases n
  {
    if n < 10 then [DigitChar(n)] else NatText(n / 10) + [DigitChar(n % 10)]
  }

  lemma {:induction false} NatTextValue(n: nat)
    ensures DigitsValue(NatText(n)) == n
    decreases n
  {
    if n >= 10 {
      NatTextValue(n / 10);
      var t := NatText(n);
      assert t[..|t| - 1] == NatText(n / 10);
    }
  }

  /** A number below `10^p` needs at most `p` digits. */
  lemma {:induction false} NatTextLength(n: nat, p: nat)
    requires 1 <= p && n < Pow10(p)
    ensures |NatText(n)| <= p
    decreases p
  {
    if n >= 10 {
      assert p >= 2;
      NatTextLength(n / 10, p - 1);
    }
  }

  /** `s` widened to `width` characters by leading zeros. */
  function ZeroPad(s: string, width: nat): (r: string)
    ensures |r| == if |s| < width then width else |s|
  {
    if |s| < width then seq(width - |s|, _ => '0') + s else s
  }

  lemma {:induction false} LeadingZerosValue(z: string, s: string)
    requires forall i :: 0 <= i < |z| ==> z[i] == '0'
    requires AllDigits(s)
    ensures AllDigits(z + s) && DigitsValue(z + s) == DigitsValue(s)
    decreases |s|
  {
    if s == [] {
      assert z + s == z;
      ZerosValue(z);
    } else {
      var w := z + s;
      assert w[..|w| - 1] == z + s[..|s| - 1];
      LeadingZerosValue(z, s[..|s| - 1]);
    }
  }

  lemma {:induction false} ZerosValue(z: string)
    requires forall i :: 0 <= i < |z| ==> z[i] == '0'
    ensures AllDigits(z) && DigitsValue(z) == 0
    decreases |z|
  {
    if z != [] {
      ZerosValue(z[..|z| - 1]);
    }
  }

  /** A JavaScript number. `NaN` is also the result of every failed conversion. */
  datatype Number = Dec(units: int, places: nat) | NaN {

    /** The truthiness of a number: `0` and `NaN` are falsy. */
    predicate Truthy() { Dec? && units != 0 }

    /** No trailing zero in the fractional digits: equal values are equal terms. */
    predicate Canonical() { NaN? || places == 0 || Abs(units) % 10 != 0 }

    /** `this === i` for an integer `i`. */
    predicate EqualsInt(i: int) { Dec? && units == i * Pow10(places) }

    /** `this < 0`. */
    predicate IsNegative() { Dec? && units < 0 }
  }

  function FromInt(i: int): (r: Number)
    ensures r.Canonical() && r.EqualsInt(i)
  {
    Dec(i, 0)
  }

  /** A multiple of ten is ten times its tenth, whatever its sign. */
  lemma TenthOfMultiple(u: int)
    requires Abs(u) % 10 == 0
    ensures u == (u / 10) * 10
  {
    if u < 0 {
      assert -u == ((-u) / 10) * 10;
      assert u == (-((-u) / 10)) * 10;
    }
  }

  /** Drops trailing zeros of the fraction; the value is unchanged. */
  function Normalize(n: Number): (r: Number)
    ensures r.Canonical()
    ensures n.NaN? <==> r.NaN?
    ensures n.Dec? ==> r.places <= n.places && n.units == r.units * Pow10(n.places - r.places)
    ensures n.Canonical() ==> r == n
    decreases if n.Dec? then n.places else 0
  {
    if n.Dec? && n.places > 0 && Abs(n.units) % 10 == 0 then
      var r := Normalize(Dec(n.units / 10, n.places - 1));
      TenthOfMultiple(n.units);
      ScaleByTen(n.units / 10, r.units, Pow10(n.places - 1 - r.places));
      r
    else n
  }

  lemma ScaleByTen(m: int, ru: int, x: nat)
    requires m == ru * x
    ensures m * 10 == ru * (10 * x)
  {
  }

  /** Position of the first '.', or the length when there is none. */
  function DotIndex(s: string): (k: nat)
    ensures k <= |s|
    ensures k < |s| ==> s[k] == '.'
    ensures forall i :: 0 <= i < k ==> s[i] != '.'
    decreases |s|
  {
    if s == [] then 0 else if s[0] == '.' then 0 else 1 + DotIndex(s[1..])
  }

  /** At most one character of `s` is a '.'. */
  predicate AtMostOneDot(s: string) {
    forall i, j :: 0 <= i < j < |s| && s[i] == '.' ==> s[j] != '.'
  }

  /** The text of an unsigned literal `D+` or `D+.D+`, read character by
      character: digits and at most one '.', with a digit at both ends. */
  predicate IsUnsignedLiteral(s: string) {
    && s != []
    && IsDigit(s[0])
    && IsDigit(s[|s| - 1])
    && (forall i :: 0 <= i < |s| ==> IsDigit(s[i]) || s[i] == '.')
    && AtMostOneDot(s)
  }

  /** The text of a literal `-?D+(.D+)?`. */
  predicate IsDecimalLiteral(s: string) {
    IsUnsignedLiteral(s) || (|s| > 1 && s[0] == '-' && IsUnsignedLiteral(s[1..]))
  }

  /** An unsigned literal `D+` or `D+.D+`. */
  function ParseUnsigned(s: string): (r: Option<Number>)
    ensures r.Some? ==> r.value.Dec? && r.value.units >= 0 && r.value.Canonical()
    ensures r.Some? <==> IsUnsignedLiteral(s)
  {
    var k := DotIndex(s);
    var whole := s[..k];
    var frac := if k < |s| then s[k + 1..] else "";
    UnsignedShape(s, k, whole, frac);
    if whole != [] && AllDigits(whole) && AllDigits(frac) && (k == |s| || frac != []) then
      Some(Normalize(Dec(DigitsValue(whole) * Pow10(|frac|) + DigitsValue(frac), |frac|)))
    else None
  }

  /** Splitting at the first '.' accepts exactly the unsigned literals. */
  lemma UnsignedShape(s: string, k: nat, whole: string, frac: string)
    requires k == DotIndex(s) && whole == s[..k]
    requires frac == if k < |s| then s[k + 1..] else ""
    ensures (whole != [] && AllDigits(whole) && AllDigits(frac) && (k == |s| || frac != []))
            <==> IsUnsignedLiteral(s)
  {
    if whole != [] && AllDigits(whole) && AllDigits(frac) && (k == |s| || frac != []) {
      assert s[0] == whole[0];
      if k == |s| {
        assert s[|s| - 1] == whole[k - 1];
      } else {
        assert s[|s| - 1] == frac[|frac| - 1];
      }
      forall i | 0 <= i < |s| ensures IsDigit(s[i]) || s[i] == '.' {
        if i < k {
          assert s[i] == whole[i];
        } else if i > k {
          assert s[i] == frac[i - k - 1];
        }
      }
      assert forall m :: k < m < |s| ==> s[m] == frac[m - k - 1];
      forall i, j | 0 <= i < j < |s| && s[i] == '.' ensures s[j] != '.' {
        assert i == k;
      }
    }
    if IsUnsignedLiteral(s) {
      assert k != 0;
      forall i | 0 <= i < k ensures IsDigit(whole[i]) {
        assert whole[i] == s[i];
      }
      if k < |s| {
        assert k < |s| - 1;
        forall i | 0 <= i < |frac| ensures IsDigit(frac[i]) {
          assert frac[i] == s[k + 1 + i];
        }
      }
    }
  }

  /** `Number(s)`: the empty string is `0`; an optionally negative literal is its value. */
  function NumberOf(s: string): (r: Number)
    ensures r.Canonical()
    ensures s == "" ==> r == Dec(0, 0)
    ensures s != "" && AllDigits(s) ==> r == FromInt(DigitsValue(s))
    ensures |s| > 1 && s[0] == '-' && AllDigits(s[1..]) ==> r == FromInt(-(DigitsValue(s[1..]) as int))
    ensures r.NaN? <==> s != "" && !IsDecimalLiteral(s)
  {
    if s == "" then Dec(0, 0)
    else if s[0] == '-' then
      var t := s[1..];
      DigitsParse(t);
      assert !IsDigit(s[0]);
      match ParseUnsigned(t)
      case Some(n) => Dec(-n.units, n.places)
      case None => NaN
    else
      DigitsParse(s);
      ParseUnsigned(s).GetOr(NaN)
  }

  /** `Number(w + "." + f)` for digit runs `w` and `f`: the value `w.f`,
      with the trailing zeros of `f` dropped. */
  lemma FractionValue(w: string, f: string)
    requires w != [] && f != [] && AllDigits(w) && AllDigits(f)
    ensures var r := NumberOf(w + "." + f);
      && r.Dec? && r.places <= |f|
      && DigitsValue(w) * Pow10(|f|) + DigitsValue(f) == r.units * Pow10(|f| - r.places)
  {
    var s := w + "." + f;
    var v := DigitsValue(w) * Pow10(|f|) + DigitsValue(f);
    var n := Normalize(Dec(v, |f|));
    LiteralParses(w, f);
    assert Literal(w, f) == s;
    assert s[0] == w[0] && s[0] != '-';
    NumberOfUnsigned(s);
    NormalizedValue(v, |f|);
  }

  /** `Number("-" + w + "." + f)` for digit runs `w` and `f`: the value
      `-w.f`, with the trailing zeros of `f` dropped. */
  lemma NegativeFractionValue(w: string, f: string)
    requires w != [] && f != [] && AllDigits(w) && AllDigits(f)
    ensures var r := NumberOf("-" + (w + "." + f));
      && r.Dec? && r.places <= |f|
      && -(DigitsValue(w) * Pow10(|f|) + DigitsValue(f)) == r.units * Pow10(|f| - r.places)
  {
    var s := w + "." + f;
    FractionValue(w, f);
    var t := "-" + s;
    assert t[1..] == s && s[0] == w[0];
    NumberOfNegative(t);
    NegateProduct(NumberOf(s).units, Pow10(|f| - NumberOf(s).places));
  }

  /** `Number` of a text not starting with '-' is its unsigned reading. */
  lemma NumberOfUnsigned(s: string)
    requires s != "" && s[0] != '-'
    ensures NumberOf(s) == ParseUnsigned(s).GetOr(NaN)
  {
  }

  /** `Number` of a text starting with '-' negates the reading of the rest. */
  lemma NumberOfNegative(s: string)
    requires |s| > 1 && s[0] == '-' && s[1] != '-' && NumberOf(s[1..]).Dec?
    ensures NumberOf(s) == Dec(-NumberOf(s[1..]).units, NumberOf(s[1..]).places)
  {
    assert s[1..][0] == s[1];
  }

  /** The value `Normalize` keeps, for a finite number. */
  lemma NormalizedValue(v: int, p: nat)
    ensures var r := Normalize(Dec(v, p));
      r.Dec? && r.places <= p && v == r.units * Pow10(p - r.places)
  {
  }

  lemma NegateProduct(a: int, b: int)
    ensures -(a * b) == (-a) * b
  {
  }

  /** A non-empty run of digits is an integer literal. */
  lemma DigitsParse(s: string)
    ensures s != "" && AllDigits(s) ==> ParseUnsigned(s) == Some(Dec(DigitsValue(s), 0))
  {
    if s != "" && AllDigits(s) {
      assert forall i :: 0 <= i < |s| ==> s[i] != '.';
      assert DotIndex(s) == |s|;
      assert s[..|s|] == s;
      assert Pow10(0) == 1 && DigitsValue("") == 0;
    }
  }

  /** `s ? Number(s) : null`, as the department controls convert their
      value: the empty string is absent, any other text (`'0'` included)
      is read with `Number`. */
  function NumberUnlessEmpty(s: string): (r: Option<Number>)
    ensures r.None? <==> s == ""
    ensures r.Some? ==> r.value == NumberOf(s)
  {
    if s == "" then None else Some(NumberOf(s))
  }

  /** `parseFloat(s)`: like `Number(s)` except that the empty string is `NaN`. */
  function ParseFloat(s: string): (r: Number)
    ensures r.Canonical()
    ensures s == "" ==> r.NaN?
    ensures s != "" ==> r == NumberOf(s)
  {
    if s == "" then NaN else NumberOf(s)
  }

  /** `parseInt(s, 10)`: the value `parseFloat` reads, truncated toward zero. */
  function ParseInt(s: string): (r: Number)
    ensures r.Canonical()
    ensures r.Dec? ==> r.places == 0
    ensures r.NaN? <==> ParseFloat(s).NaN?
    ensures r.Dec? ==> IsTruncation(r.units, ParseFloat(s))
  {
    var x := ParseFloat(s);
    if x.NaN? then NaN else Dec(Truncate(x.units, x.places), 0)
  }

  /** `k` is the finite number `x` truncated toward zero: the integer of the
      same sign whose magnitude is the whole part of `|x|`. */
  predicate IsTruncation(k: int, x: Number) {
    && x.Dec?
    && Abs(k) * Pow10(x.places) <= Abs(x.units) < (Abs(k) + 1) * Pow10(x.places)
    && (x.units < 0 ==> k <= 0)
    && (x.units >= 0 ==> k >= 0)
  }

  /** `u / 10^p` truncated toward zero. */
  function Truncate(u: int, p: nat): (k: int)
    ensures IsTruncation(k, Dec(u, p))
  {
    var (whole, rest) := SplitAt(Abs(u), p);
    Bracket(whole, Pow10(p), Abs(u), rest);
    var k: int := if u < 0 then -(whole as int) else whole;
    assert Abs(k) == whole;
    k
  }

  /** `w` is the whole part of `m / d` when the remainder is below `d`. */
  lemma Bracket(w: nat, d: nat, m: nat, rest: nat)
    requires w * d + rest == m && rest < d
    ensures w * d <= m < (w + 1) * d
  {
    assert (w + 1) * d == w * d + d;
  }

  /** `parseInt` reads back the decimal text of any integer. */
  lemma ParseIntRoundTrip(k: int)
    ensures ParseInt(ToString(FromInt(k))) == FromInt(k)
  {
    ToStringRoundTrip(FromInt(k));
    assert ParseFloat(ToString(FromInt(k))) == Dec(k, 0);
  }

  /** The integer part and the fraction units of `m / 10^p`. */
  function SplitAt(m: nat, p: nat): (r: (nat, nat))
    ensures r.0 * Pow10(p) + r.1 == m && r.1 < Pow10(p)
  {
    var d := Pow10(p);
    DivModFacts(m, d);
    (m / d, m % d)
  }

  lemma DivModFacts(m: nat, d: nat)
    requires d >= 1
    ensures m / d >= 0 && 0 <= m % d < d && (m / d) * d + m % d == m
  {
  }

  /** The positional text of `m / 10^p` for a natural `m`. */
  function UnsignedText(m: nat, p: nat): (r: string)
    ensures |r| > 0 && IsDigit(r[0])
  {
    var (a, b) := SplitAt(m, p);
    Literal(NatText(a), if p > 0 then ZeroPad(NatText(b), p) else "")
  }

  /** `n.toString()` in positional notation. */
  function ToString(n: Number): (r: string)
    ensures |r| > 0
    ensures n.NaN? <==> r == "NaN"
    ensures n.Dec? ==> (r[0] == '-' <==> n.units < 0)
  {
    SignKept(n);
    match Normalize(n)
    case NaN => "NaN"
    case Dec(u, p) => if u < 0 then "-" + UnsignedText(Abs(u), p) else UnsignedText(Abs(u), p)
  }

  /** Normalizing keeps the sign of the units. */
  lemma SignKept(n: Number)
    ensures n.Dec? ==> (Normalize(n).units < 0 <==> n.units < 0)
  {
    if n.Dec? {
      var r := Normalize(n);
      ProductSign(r.units, Pow10(n.places - r.places));
    }
  }

  /** Scaling by a positive factor keeps the sign. */
  lemma ProductSign(a: int, f: nat)
    requires f >= 1
    ensures a * f < 0 <==> a < 0
  {
    if a < 0 {
      assert a * f <= a * 1;
    } else {
      assert a * f >= 0;
    }
  }

  /** The literal with integer digits `w` and fraction digits `f` (no point when `f` is empty). */
  function Literal(w: string, f: string): string {
    if f == [] then w else w + "." + f
  }

  lemma LiteralParses(w: string, f: string)
    requires w != [] && AllDigits(w) && AllDigits(f)
    ensures ParseUnsigned(Literal(w, f))
      == Some(Normalize(Dec(DigitsValue(w) * Pow10(|f|) + DigitsValue(f), |f|)))
  {
    var s := Literal(w, f);
    assert forall i :: 0 <= i < |w| ==> s[i] == w[i];
    assert |w| < |s| ==> s[|w|] == '.';
    assert DotIndex(s) == |w|;
    assert s[..|w|] == w;
    if f != [] {
      assert s[|w| + 1..] == f;
    }
  }

  /** The fraction digits printed for `b < 10^p`: exactly `p` of them, worth `b`. */
  lemma FractionDigits(b: nat, p: nat)
    requires 1 <= p && b < Pow10(p)
    ensures |ZeroPad(NatText(b), p)| == p
    ensures AllDigits(ZeroPad(NatText(b), p)) && DigitsValue(ZeroPad(NatText(b), p)) == b
  {
    NatTextLength(b, p);
    NatTextValue(b);
    var t := NatText(b);
    if |t| < p {
      var z := seq(p - |t|, _ => '0');
      assert ZeroPad(t, p) == z + t;
      LeadingZerosValue(z, t);
    }
  }

  lemma UnsignedRoundTrip(m: nat, p: nat)
    requires Dec(m, p).Canonical()
    ensures ParseUnsigned(UnsignedText(m, p)) == Some(Dec(m, p))
  {
    var (a, b) := SplitAt(m, p);
    var w := NatText(a);
    NatTextValue(a);
    var f := if p > 0 then ZeroPad(NatText(b), p) else "";
    if p > 0 {
      FractionDigits(b, p);
    }
    assert |f| == p && AllDigits(f) && DigitsValue(f) == b;
    assert UnsignedText(m, p) == Literal(w, f);
    LiteralParses(w, f);
    assert DigitsValue(w) * Pow10(|f|) + DigitsValue(f) == m;
    assert Normalize(Dec(m, p)) == Dec(m, p);
  }

  /** Writing a number out and reading it back with `Number` gives the same number. */
  lemma ToStringRoundTrip(n: Number)
    requires n.Canonical()
    ensures NumberOf(ToString(n)) == n
  {
    if n.Dec? {
      var u, p := n.units, n.places;
      UnsignedRoundTrip(Abs(u), p);
      var body := UnsignedText(Abs(u), p);
      if u < 0 {
        assert ("-" + body)[1..] == body;
      }
    }
  }
}
