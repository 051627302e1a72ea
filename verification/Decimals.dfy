/** Exact decimals: digit strings, parsing, formatting, comparison and addition. */
module Decimals {
  import opened Basics

  /** Parsing and adding only build decimals whose scale is not negative. */
  datatype Decimal = Decimal(neg: bool, mag: nat, scale: nat)

  function Pow10(n: nat): nat {
    if n == 0 then 1 else 10 * Pow10(n - 1)
  }

  lemma {:induction false} Pow10Positive(n: nat)
    ensures Pow10(n) > 0
  {
    if n > 0 {
      Pow10Positive(n - 1);
    }
  }

  lemma {:induction false} Pow10Add(m: nat, n: nat)
    ensures Pow10(m + n) == Pow10(m) * Pow10(n)
  {
    if m > 0 {
      Pow10Add(m - 1, n);
      TenTimes(Pow10(m - 1), Pow10(n));
    }
  }

  lemma TenTimes(x: int, y: int)
    ensures 10 * (x * y) == (10 * x) * y
  {
  }

  function Signed(d: Decimal): int {
    if d.neg then -(d.mag as int) else d.mag
  }

  /** The rational a decimal denotes. */
  ghost function Value(d: Decimal): real {
    Pow10Positive(d.scale);
    Signed(d) as real / Pow10(d.scale) as real
  }

  // ----- digit strings

  predicate IsDigit(c: char) {
    '0' <= c <= '9'
  }

  predicate AllDigits(s: string) {
    forall i :: 0 <= i < |s| ==> IsDigit(s[i])
  }

  function DigitOf(c: char): nat
    requires IsDigit(c)
  {
    (c - '0') as nat
  }

  function CharOf(n: nat): (c: char)
    requires n < 10
    ensures IsDigit(c) && DigitOf(c) == n
  {
    '0' + n as char
  }

  /** The number a digit string writes; leading zeros do not count. */
  function NatOf(s: string): nat
    requires AllDigits(s)
  {
    if s == "" then 0 else 10 * NatOf(s[..|s| - 1]) + DigitOf(s[|s| - 1])
  }

  /** The digits of n, without leading zeros. */
  function Digits(n: nat): (s: string)
    ensures s != "" && AllDigits(s)
  {
    if n < 10 then [CharOf(n)] else Digits(n / 10) + [CharOf(n % 10)]
  }

  lemma {:induction false} NatOfDigits(n: nat)
    ensures NatOf(Digits(n)) == n
  {
    var s := Digits(n);
    if n < 10 {
      assert s[..0] == "";
    } else {
      NatOfDigits(n / 10);
      assert s[..|s| - 1] == Digits(n / 10);
    }
  }

  lemma NatOfSnoc(s: string, c: char)
    requires AllDigits(s) && IsDigit(c)
    ensures AllDigits(s + [c]) && NatOf(s + [c]) == 10 * NatOf(s) + DigitOf(c)
  {
    assert (s + [c])[..|s|] == s;
  }

  lemma {:induction false} NatOfConcat(s: string, t: string)
    requires AllDigits(s) && AllDigits(t)
    ensures AllDigits(s + t) && NatOf(s + t) == NatOf(s) * Pow10(|t|) + NatOf(t)
  {
    if t == "" {
      assert s + t == s;
    } else {
      var k := |t| - 1;
      var rest, c := t[..k], t[k];
      assert t == rest + [c] && s + t == (s + rest) + [c];
      NatOfConcat(s, rest);
      NatOfSnoc(s + rest, c);
      NatOfSnoc(rest, c);
      Regroup(NatOf(s), Pow10(k), NatOf(rest), DigitOf(c));
    }
  }

  lemma Regroup(x: int, p: int, r: int, c: int)
    ensures 10 * (x * p + r) + c == x * (10 * p) + (10 * r + c)
  {
  }

  function Zeros(n: nat): (s: string)
    ensures |s| == n && AllDigits(s)
  {
    if n == 0 then "" else Zeros(n - 1) + "0"
  }

  lemma {:induction false} NatOfZeros(n: nat)
    ensures NatOf(Zeros(n)) == 0
  {
    if n > 0 {
      NatOfZeros(n - 1);
      assert Zeros(n)[..n - 1] == Zeros(n - 1);
    }
  }

  // ----- number text

  datatype Exponent = Exponent(mark: char, sign: string, digits: string)

  /** The parts of a written number: an optional minus, a whole part, and optional fraction and exponent. */
  datatype Number = Number(neg: bool, whole: string, frac: Option<string>, exp: Option<Exponent>)

  ghost predicate GoodFrac(frac: Option<string>) {
    frac.Some? ==> frac.value != "" && AllDigits(frac.value)
  }

  ghost predicate GoodExp(e: Option<Exponent>) {
    e.Some? ==>
      && e.value.mark in {'e', 'E'} && e.value.sign in {"", "+", "-"}
      && e.value.digits != "" && AllDigits(e.value.digits)
  }

  ghost predicate WellFormed(n: Number) {
    n.whole != "" && AllDigits(n.whole) && GoodFrac(n.frac) && GoodExp(n.exp)
  }

  function FracOf(n: Number): string {
    if n.frac.Some? then n.frac.value else ""
  }

  function RenderExp(e: Option<Exponent>): string {
    if e == None then "" else [e.value.mark] + e.value.sign + e.value.digits
  }

  function RenderFrac(frac: Option<string>): string {
    if frac == None then "" else "." + frac.value
  }

  function Render(n: Number): string {
    (if n.neg then "-" else "") + n.whole + RenderFrac(n.frac) + RenderExp(n.exp)
  }

  /** The first index from i on that is not a digit. */
  function DigitsEnd(s: string, i: nat): (end: nat)
    requires i <= |s|
    ensures i <= end <= |s| && AllDigits(s[i..end]) && (end < |s| ==> !IsDigit(s[end]))
    decreases |s| - i
  {
    if i < |s| && IsDigit(s[i]) then
      var end := DigitsEnd(s, i + 1);
      assert s[i..end] == [s[i]] + s[i + 1..end];
      end
    else i
  }

  /** A run of digits that something else follows ends where it says. */
  lemma {:induction false} DigitsEndAt(s: string, i: nat, end: nat)
    requires i <= end <= |s| && AllDigits(s[i..end]) && (end < |s| ==> !IsDigit(s[end]))
    ensures DigitsEnd(s, i) == end
    decreases end - i
  {
    if i < end {
      assert s[i] == s[i..end][0];
      assert s[i + 1..end] == s[i..end][1..];
      DigitsEndAt(s, i + 1, end);
    }
  }

  /** The pattern's match: minus, digits, optional point and digits, optional exponent, and the end. */
  function Match(s: string): Option<Number> {
    var i := if s != "" && s[0] == '-' then 1 else 0;
    var j := DigitsEnd(s, i);
    var frac := MatchFrac(s, j);
    if i == j || frac == None then None
    else
      var exp := MatchExp(s, frac.value.1);
      if exp == None then None
      else Some(Number(i == 1, s[i..j], frac.value.0, exp.value))
  }

  /** The fraction at j, if there is one, and where it ends; None when a point has no digits. */
  function MatchFrac(s: string, j: nat): (r: Option<(Option<string>, nat)>)
    requires j <= |s|
    ensures r.Some? ==> j <= r.value.1 <= |s|
  {
    if j < |s| && s[j] == '.' then
      var k := DigitsEnd(s, j + 1);
      if k == j + 1 then None else Some((Some(s[j + 1..k]), k))
    else Some((None, j))
  }

  /** None when the rest from k is not an exponent running to the end; Some(None) when there is none. */
  function MatchExp(s: string, k: nat): Option<Option<Exponent>>
    requires k <= |s|
  {
    if k == |s| then Some(None)
    else if s[k] != 'e' && s[k] != 'E' then None
    else
      var signed := k + 1 < |s| && (s[k + 1] == '+' || s[k + 1] == '-');
      var d := if signed then k + 2 else k + 1;
      if d == |s| || DigitsEnd(s, d) != |s| then None
      else Some(Some(Exponent(s[k], s[k + 1..d], s[d..])))
  }

  lemma {:induction false} MatchExpRender(s: string, k: nat, e: Option<Exponent>)
    requires k <= |s| && GoodExp(e) && s[k..] == RenderExp(e)
    ensures MatchExp(s, k) == Some(e)
  {
    hide MatchExp, AllDigits;
    if e.Some? {
      var x := e.value;
      TextOfExp(x, s[k..]);
      assert s[k] == s[k..][0];
      assert s[k + 1..k + 1 + |x.sign|] == s[k..][1..1 + |x.sign|];
      assert s[k + 1 + |x.sign|..] == s[k..][1 + |x.sign|..];
      ExpAt(s, k, x);
    } else {
      NoExpAt(s, k);
    }
  }

  lemma ExpAt(s: string, k: nat, x: Exponent)
    requires GoodExp(Some(x)) && k + 1 + |x.sign| <= |s|
    requires s[k] == x.mark && s[k + 1..k + 1 + |x.sign|] == x.sign && s[k + 1 + |x.sign|..] == x.digits
    ensures MatchExp(s, k) == Some(Some(x))
  {
    hide DigitsEnd, AllDigits;
    var d := k + 1 + |x.sign|;
    FirstIsDigit(x.digits);
    assert s[d] == s[d..][0] && s[d..|s|] == s[d..];
    DigitsEndAt(s, d, |s|);
    if x.sign != "" {
      assert s[k + 1] == s[k + 1..d][0];
    }
  }

  lemma NoExpAt(s: string, k: nat)
    requires k == |s|
    ensures MatchExp(s, k) == Some(None)
  {
  }

  lemma TextOfExp(x: Exponent, text: string)
    requires text == RenderExp(Some(x))
    ensures |text| == 1 + |x.sign| + |x.digits|
    ensures text[0] == x.mark && text[1..1 + |x.sign|] == x.sign && text[1 + |x.sign|..] == x.digits
  {
  }

  lemma FirstIsDigit(digits: string)
    requires digits != "" && AllDigits(digits)
    ensures IsDigit(digits[0])
  {
  }

  lemma ExpStarts(e: Option<Exponent>)
    requires GoodExp(e)
    ensures RenderExp(e) != "" ==> !IsDigit(RenderExp(e)[0]) && RenderExp(e)[0] != '.'
  {
  }

  lemma {:induction false} MatchFracRender(s: string, j: nat, frac: Option<string>, e: Option<Exponent>)
    requires j <= |s| && GoodFrac(frac) && GoodExp(e) && s[j..] == RenderFrac(frac) + RenderExp(e)
    ensures MatchFrac(s, j) == Some((frac, j + |RenderFrac(frac)|))
    ensures s[j + |RenderFrac(frac)|..] == RenderExp(e)
    ensures j < |s| ==> !IsDigit(s[j])
  {
    hide RenderExp, DigitsEnd, AllDigits, MatchFrac;
    var k := j + |RenderFrac(frac)|;
    ExpStarts(e);
    SuffixAt(s, j, RenderFrac(frac), RenderExp(e));
    assert k < |s| ==> s[k] == s[k..][0];
    if frac.Some? {
      SuffixAt(s, j, ".", frac.value + RenderExp(e)) by {
        Regrouped(".", frac.value, RenderExp(e));
      }
      SuffixAt(s, j + 1, frac.value, RenderExp(e));
      FracAt(s, j, frac.value);
    } else {
      assert s[j..] == RenderExp(e);
      NoFracAt(s, j);
    }
  }

  /** What follows the first part of a suffix is the rest of it. */
  lemma SuffixAt(s: string, j: nat, first: string, rest: string)
    requires j <= |s| && s[j..] == first + rest
    ensures j + |first| <= |s| && s[j..j + |first|] == first && s[j + |first|..] == rest
  {
    assert |s[j..]| == |first| + |rest|;
    assert s[j..][..|first|] == first && s[j..][|first|..] == rest;
  }

  lemma FracAt(s: string, j: nat, digits: string)
    requires j + 1 + |digits| <= |s| && s[j] == '.' && s[j + 1..j + 1 + |digits|] == digits
    requires digits != "" && AllDigits(digits)
    requires j + 1 + |digits| < |s| ==> !IsDigit(s[j + 1 + |digits|])
    ensures MatchFrac(s, j) == Some((Some(digits), j + 1 + |digits|))
  {
    hide AllDigits, DigitsEnd;
    DigitsEndAt(s, j + 1, j + 1 + |digits|);
  }

  lemma NoFracAt(s: string, j: nat)
    requires j <= |s| && (j < |s| ==> s[j] != '.')
    ensures MatchFrac(s, j) == Some((None, j))
  {
  }

  /** Every well-formed number is matched, part for part. */
  lemma MatchRender(n: Number)
    requires WellFormed(n)
    ensures Match(Render(n)) == Some(n)
  {
    hide RenderExp, RenderFrac, MatchExp, MatchFrac, DigitsEnd;
    var s := Render(n);
    var i := if n.neg then 1 else 0;
    var j := i + |n.whole|;
    assert s[i..j] == n.whole;
    assert s[i] == s[i..j][0];
    assert s[j..] == RenderFrac(n.frac) + RenderExp(n.exp);
    MatchFracRender(s, j, n.frac, n.exp);
    DigitsEndAt(s, i, j);
    MatchExpRender(s, j + |RenderFrac(n.frac)|, n.exp);
  }

  lemma MatchFracSound(s: string, j: nat)
    requires j <= |s| && MatchFrac(s, j).Some?
    ensures var (frac, k) := MatchFrac(s, j).value;
            GoodFrac(frac) && s[j..k] == RenderFrac(frac)
  {
    var (frac, k) := MatchFrac(s, j).value;
    if frac.Some? {
      assert s[j..k] == [s[j]] + s[j + 1..k];
    }
  }

  lemma MatchExpSound(s: string, k: nat)
    requires k <= |s| && MatchExp(s, k).Some?
    ensures GoodExp(MatchExp(s, k).value) && s[k..] == RenderExp(MatchExp(s, k).value)
  {
    var e := MatchExp(s, k).value;
    if e.Some? {
      var d := k + 1 + |e.value.sign|;
      assert s[d..|s|] == s[d..];
      assert s[k..] == [s[k]] + s[k + 1..d] + s[d..];
      assert d == k + 2 ==> s[k + 1..d] == [s[k + 1]];
    }
  }

  lemma Slices(s: string, i: nat, j: nat, k: nat)
    requires i <= j <= k <= |s|
    ensures s == s[..i] + s[i..j] + s[j..k] + s[k..]
  {
  }

  /** And nothing else is: a match is well-formed and is the whole text. */
  lemma MatchSound(s: string)
    requires Match(s).Some?
    ensures WellFormed(Match(s).value) && Render(Match(s).value) == s
  {
    hide MatchFrac, MatchExp, RenderFrac, RenderExp, GoodFrac, GoodExp;
    var i := if s != "" && s[0] == '-' then 1 else 0;
    var j := DigitsEnd(s, i);
    var k := MatchFrac(s, j).value.1;
    assert s[..i] == if i == 1 then "-" else "";
    MatchFracSound(s, j);
    MatchExpSound(s, k);
    Slices(s, i, j, k);
  }

  // ----- parsing

  function ExponentOf(e: Option<Exponent>): int
    requires e.Some? ==> AllDigits(e.value.digits)
  {
    if e == None then 0
    else if e.value.sign == "-" then -(NatOf(e.value.digits) as int) else NatOf(e.value.digits)
  }

  function DropZeros(s: string): (r: string)
    requires AllDigits(s)
    ensures AllDigits(r)
  {
    if s != "" && s[0] == '0' then DropZeros(s[1..]) else s
  }

  /** The decimal for significant digits and a scale that may be negative. */
  function FromDigits(neg: bool, digits: string, scale: int): Decimal
    requires AllDigits(digits)
  {
    if digits == "" then Decimal(false, 0, 0)
    else if scale < 0 then Decimal(neg, NatOf(digits + Zeros(-scale)), 0)
    else Decimal(neg, NatOf(digits), scale)
  }

  function Assemble(n: Number): Decimal
    requires AllDigits(n.whole) && AllDigits(FracOf(n)) && (n.exp.Some? ==> AllDigits(n.exp.value.digits))
  {
    FromDigits(n.neg, DropZeros(n.whole + FracOf(n)), |FracOf(n)| - ExponentOf(n.exp))
  }

  function Parse(token: string): Option<Decimal> {
    var n := Match(token);
    if n == None then None
    else
      MatchSound(token);
      Some(Assemble(n.value))
  }

  method ParseDecimal(token: string) returns (d: Option<Decimal>)
    ensures d == Parse(token)
  {
    var matched := Match(token);
    if matched == None {
      return None;
    }
    MatchSound(token);
    var built := BuildDecimal(matched.value);
    d := Some(built);
  }

  method BuildDecimal(n: Number) returns (d: Decimal)
    requires AllDigits(n.whole) && AllDigits(FracOf(n)) && (n.exp.Some? ==> AllDigits(n.exp.value.digits))
    ensures d == Assemble(n)
  {
    hide NatOf, ExponentOf;
    DropZerosStops(n.whole + FracOf(n));
    var digits := DropZeros(n.whole + FracOf(n));
    if digits == "" {
      digits := "0";
    }
    var scale := |FracOf(n)| - ExponentOf(n.exp);
    if digits == "0" {
      return Decimal(false, 0, 0);
    }
    if scale < 0 {
      digits := digits + Zeros(-scale);
      scale := 0;
    }
    d := Decimal(n.neg, NatOf(digits), scale);
  }

  lemma {:induction false} LeadingZero(s: string)
    requires AllDigits(s)
    ensures AllDigits("0" + s) && NatOf("0" + s) == NatOf(s)
  {
    NatOfConcat("0", s);
    assert "0"[..0] == "" && NatOf("0") == 0;
    assert 0 * Pow10(|s|) == 0;
  }

  lemma {:induction false} DropZerosStops(s: string)
    requires AllDigits(s)
    ensures DropZeros(s) == "" || DropZeros(s)[0] != '0'
    ensures NatOf(DropZeros(s)) == NatOf(s)
  {
    if s != "" && s[0] == '0' {
      DropZerosStops(s[1..]);
      assert s == "0" + s[1..];
      LeadingZero(s[1..]);
    }
  }

  ghost function Exp10(e: int): real {
    if e >= 0 then Pow10(e) as real
    else
      Pow10Positive(-e);
      1.0 / Pow10(-e) as real
  }

  ghost function Sign(neg: bool): real {
    if neg then -1.0 else 1.0
  }

  /** The rational that a written number stands for. */
  ghost function Denotes(n: Number): real
    requires WellFormed(n)
  {
    Sign(n.neg) * NatOf(n.whole + FracOf(n)) as real * Exp10(ExponentOf(n.exp) - |FracOf(n)|)
  }

  lemma QuotientIsProduct(neg: bool, m: nat, p: nat)
    requires p > 0
    ensures (if neg then -(m as int) else m) as real / p as real
            == (if neg then -1.0 else 1.0) * m as real * (1.0 / p as real)
  {
    var x, q := m as real, p as real;
    assert x / q == x * (1.0 / q);
    assert (-x) / q == -(x / q);
  }

  lemma ValueOf(neg: bool, m: nat, scale: nat)
    ensures Value(Decimal(neg, m, scale)) == Sign(neg) * m as real * Exp10(-(scale as int))
  {
    Pow10Positive(scale);
    QuotientIsProduct(neg, m, Pow10(scale));
  }

  lemma {:induction false} ValueScaledUp(neg: bool, m: nat, e: nat)
    ensures Value(Decimal(neg, m * Pow10(e), 0)) == Sign(neg) * m as real * Exp10(e)
  {
    hide Value, Sign;
    ValueOf(neg, m * Pow10(e), 0);
    Exp10Of(e);
    ScaledAsReal(Sign(neg), m, Pow10(e));
  }

  lemma Exp10Of(e: nat)
    ensures Exp10(e) == Pow10(e) as real && Exp10(0) == 1.0
  {
  }

  lemma ScaledAsReal(sign: real, m: nat, p: nat)
    ensures sign * (m * p) as real * 1.0 == sign * m as real * p as real
  {
    assert (m * p) as real == m as real * p as real;
    Associates(sign, m as real, p as real);
  }

  lemma Associates(x: real, y: real, z: real)
    ensures x * (y * z) == x * y * z
  {
  }

  lemma {:induction false} FromDigitsIsExact(neg: bool, digits: string, scale: int)
    requires AllDigits(digits)
    ensures Value(FromDigits(neg, digits, scale)) == Sign(neg) * NatOf(digits) as real * Exp10(-scale)
  {
    hide Value, Exp10, NatOf, Pow10, Sign, AllDigits, Zeros;
    if digits == "" {
      ZeroTimes(Sign(neg), Exp10(-scale));
    } else if scale < 0 {
      LargeIsExact(neg, digits, -scale);
    } else {
      ValueOf(neg, NatOf(digits), scale);
    }
  }

  lemma ZeroTimes(x: real, y: real)
    ensures x * 0.0 * y == 0.0 && Value(Decimal(false, 0, 0)) == 0.0 && NatOf("") == 0
  {
  }

  lemma {:induction false} LargeIsExact(neg: bool, digits: string, e: nat)
    requires AllDigits(digits)
    ensures Value(Decimal(neg, NatOf(digits + Zeros(e)), 0)) == Sign(neg) * NatOf(digits) as real * Exp10(e)
  {
    hide Value, Exp10, NatOf, Pow10, Sign, AllDigits, Zeros;
    NatOfConcat(digits, Zeros(e));
    NatOfZeros(e);
    ZerosHaveLength(e);
    ValueScaledUp(neg, NatOf(digits), e);
  }

  lemma ZerosHaveLength(n: nat)
    ensures |Zeros(n)| == n && AllDigits(Zeros(n))
  {
  }

  lemma {:induction false} AssembleIsExact(n: Number)
    requires WellFormed(n)
    ensures Value(Assemble(n)) == Denotes(n)
  {
    hide FromDigits, DropZeros, NatOf, Value, Exp10, Sign;
    var all := n.whole + FracOf(n);
    DropZerosStops(all);
    FromDigitsIsExact(n.neg, DropZeros(all), |FracOf(n)| - ExponentOf(n.exp));
  }

  /** Parsing is total on well-formed text, exact, and refuses everything else. */
  lemma ParseIsExact(token: string)
    ensures Parse(token) == None <==> forall n :: WellFormed(n) ==> Render(n) != token
    ensures forall n ::
            WellFormed(n) && Render(n) == token ==> Parse(token).Some? && Value(Parse(token).value) == Denotes(n)
  {
    if Match(token).Some? {
      MatchSound(token);
    }
    forall n | WellFormed(n) && Render(n) == token
      ensures Parse(token).Some? && Value(Parse(token).value) == Denotes(n) {
      MatchRender(n);
      AssembleIsExact(n);
    }
  }

  // ----- formatting

  function Strip(mag: nat, scale: nat): (nat, nat) {
    if scale > 0 && mag % 10 == 0 then Strip(mag / 10, scale - 1) else (mag, scale)
  }

  function Body(mag: nat, scale: nat): string {
    var digits := Digits(mag);
    if scale == 0 then digits
    else if |digits| <= scale then "0." + Zeros(scale - |digits|) + digits
    else digits[..|digits| - scale] + "." + digits[|digits| - scale..]
  }

  function Format(d: Decimal): string {
    if d.mag == 0 then "0"
    else
      var (mag, scale) := Strip(d.mag, d.scale);
      if d.neg then "-" + Body(mag, scale) else Body(mag, scale)
  }

  method FormatDecimal(d: Decimal) returns (s: string)
    ensures s == Format(d)
  {
    hide Digits, Zeros;
    if d.mag == 0 {
      return "0";
    }
    var mag: nat, scale: nat := d.mag, d.scale;
    while scale > 0 && mag % 10 == 0
      invariant Strip(mag, scale) == Strip(d.mag, d.scale)
    {
      mag, scale := mag / 10, scale - 1;
    }
    var digits := Digits(mag);
    var body;
    if scale == 0 {
      body := digits;
    } else if |digits| <= scale {
      body := "0." + Zeros(scale - |digits|) + digits;
    } else {
      body := digits[..|digits| - scale] + "." + digits[|digits| - scale..];
    }
    s := if d.neg then "-" + body else body;
  }

  /** No zero can be stripped. */
  ghost predicate Stripped(mag: nat, scale: nat) {
    scale == 0 || mag % 10 != 0
  }

  lemma {:induction false} StripKeepsValue(neg: bool, mag: nat, scale: nat)
    ensures var (m, s) := Strip(mag, scale);
            Stripped(m, s) && s <= scale && m * Pow10(scale - s) == mag && (mag > 0 ==> m > 0)
            && Value(Decimal(neg, m, s)) == Value(Decimal(neg, mag, scale))
  {
    if scale > 0 && mag % 10 == 0 {
      StripKeepsValue(neg, mag / 10, scale - 1);
      StripOneKeepsValue(neg, mag / 10, scale - 1);
      var (m, s) := Strip(mag / 10, scale - 1);
      TimesTen(m, Pow10(scale - 1 - s));
    }
  }

  lemma TimesTen(m: nat, p: nat)
    ensures m * (10 * p) == 10 * (m * p)
  {
  }

  lemma StripOneKeepsValue(neg: bool, mag: nat, scale: nat)
    ensures Value(Decimal(neg, mag, scale)) == Value(Decimal(neg, 10 * mag, scale + 1))
  {
    Pow10Positive(scale);
    var x, p := (if neg then -(mag as int) else mag) as real, Pow10(scale) as real;
    assert Pow10(scale + 1) as real == 10.0 * p;
    CancelTen(x, p);
  }

  lemma CancelTen(x: real, p: real)
    requires p > 0.0
    ensures x / p == (10.0 * x) / (10.0 * p)
  {
  }

  /** The number text that formatting writes. */
  ghost function Written(neg: bool, mag: nat, scale: nat): Number {
    var digits := Digits(mag);
    if scale == 0 then Number(neg, digits, None, None)
    else if |digits| <= scale then Number(neg, "0", Some(Zeros(scale - |digits|) + digits), None)
    else Number(neg, digits[..|digits| - scale], Some(digits[|digits| - scale..]), None)
  }

  lemma {:induction false} PaddedIsExact(digits: string, zeros: nat)
    requires AllDigits(digits)
    ensures AllDigits("0" + (Zeros(zeros) + digits)) && NatOf("0" + (Zeros(zeros) + digits)) == NatOf(digits)
  {
    hide NatOf, Zeros, AllDigits;
    NatOfZeros(zeros);
    ZerosHaveLength(zeros);
    NatOfConcat(Zeros(zeros), digits);
    LeadingZero(Zeros(zeros) + digits);
  }

  lemma {:induction false} WrittenIsExact(neg: bool, mag: nat, scale: nat)
    ensures var n := Written(neg, mag, scale);
            && WellFormed(n) && n.neg == neg && |FracOf(n)| == scale && n.exp == None
            && NatOf(n.whole + FracOf(n)) == mag
            && Render(n) == (if neg then "-" else "") + Body(mag, scale)
  {
    hide Digits, NatOf, Zeros, AllDigits, Body, Render;
    var digits := Digits(mag);
    NatOfDigits(mag);
    SplitDigits(digits, scale);
    if 0 < scale && |digits| <= scale {
      PaddedIsExact(digits, scale - |digits|);
    }
    WrittenRenders(neg, mag, scale);
    var n := Written(neg, mag, scale);
    assert n.whole + FracOf(n) == if 0 < scale && |digits| <= scale then "0" + (Zeros(scale - |digits|) + digits)
      else digits;
  }

  lemma {:induction false} WrittenRenders(neg: bool, mag: nat, scale: nat)
    ensures Render(Written(neg, mag, scale)) == (if neg then "-" else "") + Body(mag, scale)
  {
    hide Digits, Zeros;
    var n, sign := Written(neg, mag, scale), if neg then "-" else "";
    BodyIsParts(neg, mag, scale);
    assert sign + n.whole + RenderFrac(n.frac) + "" == sign + (n.whole + RenderFrac(n.frac));
  }

  lemma {:induction false} BodyIsParts(neg: bool, mag: nat, scale: nat)
    ensures Written(neg, mag, scale).whole + RenderFrac(Written(neg, mag, scale).frac) == Body(mag, scale)
  {
    hide Digits, Zeros;
    var digits := Digits(mag);
    if scale == 0 {
      assert digits + "" == digits;
    } else if |digits| <= scale {
      Regrouped("0", ".", Zeros(scale - |digits|) + digits);
      Regrouped("0.", Zeros(scale - |digits|), digits);
      assert "0" + "." == "0.";
    } else {
      var cut := |digits| - scale;
      Regrouped(digits[..cut], ".", digits[cut..]);
    }
  }

  lemma Regrouped(a: string, b: string, c: string)
    ensures a + (b + c) == (a + b) + c
  {
  }

  lemma SplitDigits(digits: string, scale: nat)
    requires AllDigits(digits)
    ensures scale < |digits| ==> AllDigits(digits[..|digits| - scale]) && AllDigits(digits[|digits| - scale..])
    ensures AllDigits("0")
    ensures scale >= |digits| ==> AllDigits(Zeros(scale - |digits|) + digits)
  {
  }

  lemma {:induction false} DenotesWritten(neg: bool, mag: nat, scale: nat)
    ensures WellFormed(Written(neg, mag, scale))
    ensures Denotes(Written(neg, mag, scale)) == Value(Decimal(neg, mag, scale))
  {
    hide Written, Value, NatOf, Exp10, WellFormed;
    WrittenIsExact(neg, mag, scale);
    ValueOf(neg, mag, scale);
  }

  lemma ValueOfZero(d: Decimal)
    requires d.mag == 0
    ensures Value(d) == 0.0
  {
    Pow10Positive(d.scale);
  }

  /** What formatting settles on: the sign, digits and scale it writes. */
  function Canonical(d: Decimal): Decimal {
    if d.mag == 0 then Decimal(false, 0, 0)
    else
      var (mag, scale) := Strip(d.mag, d.scale);
      Decimal(d.neg, mag, scale)
  }

  lemma CanonicalValue(d: Decimal)
    ensures Value(Canonical(d)) == Value(d)
  {
    StripKeepsValue(d.neg, d.mag, d.scale);
    if d.mag == 0 {
      ValueOfZero(d);
      ValueOfZero(Canonical(d));
    }
  }

  /** Reading back what was written gives the same rational. */
  lemma {:induction false} FormatRoundTrip(d: Decimal)
    ensures Parse(Format(d)).Some? && Value(Parse(Format(d)).value) == Value(d)
  {
    hide Canonical, Written, Value, Denotes, Format, Parse;
    var c := Canonical(d);
    CanonicalValue(d);
    FormatIsWritten(d);
    DenotesWritten(c.neg, c.mag, c.scale);
    ParseIsExact(Format(d));
  }

  lemma {:induction false} FormatIsWritten(d: Decimal)
    ensures Format(d) == Render(Written(Canonical(d).neg, Canonical(d).mag, Canonical(d).scale))
  {
    hide Digits, Zeros, Strip, Written, Body;
    var c := Canonical(d);
    WrittenIsExact(c.neg, c.mag, c.scale);
    BodyOfZero();
  }

  lemma BodyOfZero()
    ensures Body(0, 0) == "0"
  {
  }

  /** Two stripped forms of one rational are the same form. */
  lemma StrippedIsUnique(m1: nat, s1: nat, m2: nat, s2: nat)
    requires Stripped(m1, s1) && Stripped(m2, s2) && s1 <= s2
    requires m1 * Pow10(s2) == m2 * Pow10(s1)
    ensures m1 == m2 && s1 == s2
  {
    Pow10Positive(s1);
    Pow10Add(s1, s2 - s1);
    hide Pow10;
    Reassociate(m1, Pow10(s1), Pow10(s2 - s1));
    CancelFactor(m1 * Pow10(s2 - s1), m2, Pow10(s1));
    if s1 < s2 {
      TenDivides(m1, s2 - s1);
    } else {
      Pow10OfZero();
    }
  }

  lemma Reassociate(x: int, p: int, q: int)
    ensures x * (p * q) == (x * q) * p
  {
  }

  lemma Pow10OfZero()
    ensures Pow10(0) == 1
  {
  }

  lemma TenDivides(m: nat, n: nat)
    requires n > 0
    ensures (m * Pow10(n)) % 10 == 0
  {
    TimesTen(m, Pow10(n - 1));
  }

  lemma CancelFactor(x: int, y: int, p: int)
    requires x * p == y * p && p > 0
    ensures x == y
  {
  }

  // ----- comparing and adding

  /** A decimal's integer at a common scale. */
  function Aligned(d: Decimal, scale: nat): int
    requires d.scale <= scale
  {
    Signed(d) * Pow10(scale - d.scale)
  }

  function CompareDecimal(a: Decimal, b: Decimal): int {
    var scale := if a.scale < b.scale then b.scale else a.scale;
    if Aligned(a, scale) < Aligned(b, scale) then -1 else if Aligned(a, scale) > Aligned(b, scale) then 1 else 0
  }

  function AddDecimal(a: Decimal, b: Decimal): Decimal {
    var scale := if a.scale < b.scale then b.scale else a.scale;
    var sum := Aligned(a, scale) + Aligned(b, scale);
    if sum == 0 then Decimal(false, 0, 0)
    else if sum < 0 then Decimal(true, -sum, scale)
    else Decimal(false, sum, scale)
  }

  lemma {:induction false} AlignedValue(d: Decimal, scale: nat)
    requires d.scale <= scale
    ensures Value(d) * Pow10(scale) as real == Aligned(d, scale) as real
  {
    hide Pow10, Signed;
    Pow10Positive(d.scale);
    Pow10Add(d.scale, scale - d.scale);
    RescaleInts(Signed(d), Pow10(d.scale), Pow10(scale - d.scale));
  }

  lemma RescaleInts(x: int, p: int, q: int)
    requires p > 0
    ensures x as real / p as real * (p * q) as real == (x * q) as real
  {
    assert (p * q) as real == p as real * q as real;
    assert (x * q) as real == x as real * q as real;
    Rescale(x as real, p as real, q as real);
  }

  lemma Rescale(x: real, p: real, q: real)
    requires p > 0.0
    ensures x / p * (p * q) == x * q
  {
    assert x / p * p == x;
  }

  /** Comparison is the order of the rationals. */
  lemma CompareIsOrder(a: Decimal, b: Decimal)
    ensures CompareDecimal(a, b) == if Value(a) < Value(b) then -1 else if Value(a) > Value(b) then 1 else 0
  {
    var scale := if a.scale < b.scale then b.scale else a.scale;
    hide Value, Aligned, Pow10;
    AlignedValue(a, scale);
    AlignedValue(b, scale);
    Pow10Positive(scale);
    SameOrder(Value(a), Value(b), Pow10(scale) as real, Aligned(a, scale), Aligned(b, scale));
  }

  lemma SameOrder(x: real, y: real, p: real, i: int, j: int)
    requires p > 0.0 && x * p == i as real && y * p == j as real
    ensures x < y <==> i < j
    ensures x == y <==> i == j
  {
    StrictProduct(x, y, p);
    StrictProduct(y, x, p);
    if x < y {
      assert (i as real) < (j as real);
    } else if y < x {
      assert (j as real) < (i as real);
    } else {
      assert i as real == j as real;
    }
  }

  lemma StrictProduct(x: real, y: real, p: real)
    requires p > 0.0
    ensures x < y ==> x * p < y * p
  {
    if x < y {
      ProductPositive(y - x, p);
      assert (y - x) * p == y * p - x * p;
    }
  }

  /** Addition is exact. */
  lemma AddIsExact(a: Decimal, b: Decimal)
    ensures Value(AddDecimal(a, b)) == Value(a) + Value(b)
  {
    hide Value, Aligned, Pow10;
    var scale := if a.scale < b.scale then b.scale else a.scale;
    var sum := Aligned(a, scale) + Aligned(b, scale);
    var d := if sum < 0 then Decimal(true, -sum, scale) else Decimal(false, sum, scale);
    AlignedValue(a, scale);
    AlignedValue(b, scale);
    AlignedValue(d, scale);
    Pow10Positive(scale);
    AlignedSelf(d);
    assert Aligned(d, scale) == sum;
    SumScaled(Value(a), Value(b), Value(d), Pow10(scale) as real, Aligned(a, scale), Aligned(b, scale));
    if sum == 0 {
      ValueOfZero(d);
      ValueOfZero(AddDecimal(a, b));
    }
  }

  lemma AlignedSelf(d: Decimal)
    ensures Aligned(d, d.scale) == Signed(d)
  {
  }

  lemma SumScaled(x: real, y: real, z: real, p: real, i: int, j: int)
    requires p > 0.0 && x * p == i as real && y * p == j as real && z * p == (i + j) as real
    ensures x + y == z
  {
    assert (x + y) * p == z * p;
    StrictProduct(x + y, z, p);
    StrictProduct(z, x + y, p);
  }

  /** Equal text, equal rationals and a zero comparison are one and the same. */
  lemma FormatIsCanonical(a: Decimal, b: Decimal)
    ensures Format(a) == Format(b) <==> Value(a) == Value(b)
    ensures Format(a) == Format(b) <==> CompareDecimal(a, b) == 0
  {
    CompareIsOrder(a, b);
    FormatRoundTrip(a);
    FormatRoundTrip(b);
    if Value(a) == Value(b) {
      EqualValuesEqualForms(a, b);
      FormatIsWritten(a);
      FormatIsWritten(b);
    }
  }

  lemma EqualValuesEqualForms(a: Decimal, b: Decimal)
    requires Value(a) == Value(b)
    ensures Canonical(a) == Canonical(b)
  {
    var x, y := Canonical(a), Canonical(b);
    CanonicalValue(a);
    CanonicalValue(b);
    StripKeepsValue(a.neg, a.mag, a.scale);
    StripKeepsValue(b.neg, b.mag, b.scale);
    CompareIsOrder(x, y);
    CrossMultiplied(x, y);
    if x.scale <= y.scale {
      StrippedIsUnique(x.mag, x.scale, y.mag, y.scale);
    } else {
      StrippedIsUnique(y.mag, y.scale, x.mag, x.scale);
    }
  }

  lemma CrossMultiplied(x: Decimal, y: Decimal)
    requires Value(x) == Value(y)
    ensures x.mag * Pow10(y.scale) == y.mag * Pow10(x.scale)
    ensures x.mag > 0 && y.mag > 0 ==> x.neg == y.neg
    ensures x.mag == 0 <==> y.mag == 0
  {
    hide Value, Pow10;
    AlignedValue(x, x.scale + y.scale);
    AlignedValue(y, x.scale + y.scale);
    Pow10Positive(x.scale);
    Pow10Positive(y.scale);
    SignedProducts(x.neg, x.mag, Pow10(y.scale), y.neg, y.mag, Pow10(x.scale));
  }

  lemma SignedProducts(n1: bool, m1: nat, p1: nat, n2: bool, m2: nat, p2: nat)
    requires p1 > 0 && p2 > 0
    requires (if n1 then -(m1 as int) else m1) * p1 == (if n2 then -(m2 as int) else m2) * p2
    ensures m1 * p1 == m2 * p2
    ensures m1 > 0 && m2 > 0 ==> n1 == n2
    ensures m1 == 0 <==> m2 == 0
  {
    assert m1 * p1 >= 0 && m2 * p2 >= 0;
    assert -(m1 as int) * p1 == -(m1 * p1) && -(m2 as int) * p2 == -(m2 * p2);
  }
}
