/**
 * The hand-written reader of candle payloads: an array of rows of six numbers, with the numbers
 * kept as the text they were written in.
 */
module CandleText {
  import opened Basics
  import opened Decimals

  datatype ParseError =
    | Expected(ch: char, at: nat) | ExpectedNumber(at: nat) | EmptyFraction | EmptyExponent | TrailingData

  /** A value and the position after it. */
  datatype Parsed<+T> = Ok(value: T, next: nat) | Err(error: ParseError)

  predicate IsSpace(c: char) {
    c == ' ' || c == '\n' || c == '\r' || c == '\t'
  }

  // ----- the grammar

  /** A number as section 6 of RFC 8259 writes it: no leading zero before another digit. */
  ghost predicate IsNumberText(lexeme: string) {
    exists n :: JsonNumber(n) && Render(n) == lexeme
  }

  ghost predicate JsonNumber(n: Number) {
    WellFormed(n) && (n.whole == "0" || n.whole[0] != '0')
  }

  type Row = seq<string>

  ghost predicate ValidRow(row: Row) {
    |row| == 6 && forall c :: 0 <= c < 6 ==> IsNumberText(row[c])
  }

  ghost predicate ValidRows(rows: seq<Row>) {
    forall r :: 0 <= r < |rows| ==> ValidRow(rows[r])
  }

  function CellTokens(row: Row, c: nat): seq<string>
    requires c <= |row|
    decreases |row| - c
  {
    if c == |row| then ["]"] else (if c > 0 then [",", row[c]] else [row[c]]) + CellTokens(row, c + 1)
  }

  function RowTokens(row: Row): seq<string> {
    ["["] + CellTokens(row, 0)
  }

  function RestTokens(rows: seq<Row>, r: nat): seq<string>
    requires r <= |rows|
    decreases |rows| - r
  {
    if r == |rows| then ["]"] else (if r > 0 then [","] else []) + RowTokens(rows[r]) + RestTokens(rows, r + 1)
  }

  /** The tokens of a list of rows, in order. */
  function Tokens(rows: seq<Row>): seq<string> {
    ["["] + RestTokens(rows, 0)
  }

  ghost predicate AllSpace(s: string) {
    forall i :: 0 <= i < |s| ==> IsSpace(s[i])
  }

  /** Tokens with a gap before each and one after the last. */
  ghost function Weave(gaps: seq<string>, tokens: seq<string>): string
    requires |gaps| == |tokens| + 1
  {
    if tokens == [] then gaps[0] else gaps[0] + tokens[0] + Weave(gaps[1..], tokens[1..])
  }

  /** A text that prints these rows, with any white space between tokens. */
  ghost predicate Prints(text: string, rows: seq<Row>) {
    exists gaps: seq<string> ::
      |gaps| == |Tokens(rows)| + 1 && (forall g :: 0 <= g < |gaps| ==> AllSpace(gaps[g]))
          && text == Weave(gaps, Tokens(rows))
  }

  // ----- the reader

  function SkipSpace(s: string, i: nat): (k: nat)
    requires i <= |s|
    ensures i <= k <= |s| && AllSpace(s[i..k]) && (k < |s| ==> !IsSpace(s[k]))
    decreases |s| - i
  {
    if i < |s| && IsSpace(s[i]) then
      var k := SkipSpace(s, i + 1);
      assert s[i..k] == [s[i]] + s[i + 1..k];
      k
    else i
  }

  function Expect(s: string, i: nat, ch: char): (p: Parsed<()>)
    requires i <= |s|
    ensures p.Ok? ==> i < p.next <= |s|
  {
    var k := SkipSpace(s, i);
    if k < |s| && s[k] == ch then Ok((), k + 1) else Err(Expected(ch, k))
  }

  function WholeEnd(s: string, i: nat): (k: nat)
    requires i < |s| && IsDigit(s[i])
    ensures i < k <= |s|
  {
    if s[i] == '0' then i + 1 else DigitsEnd(s, i)
  }

  function FracEnd(s: string, i: nat): (k: Option<nat>)
    requires i <= |s|
    ensures k.Some? ==> i <= k.value <= |s|
  {
    if i < |s| && s[i] == '.' then
      if DigitsEnd(s, i + 1) == i + 1 then None else Some(DigitsEnd(s, i + 1))
    else Some(i)
  }

  function SignEnd(s: string, i: nat): (k: nat)
    requires i <= |s|
    ensures i <= k <= |s|
  {
    if i < |s| && (s[i] == '+' || s[i] == '-') then i + 1 else i
  }

  function ExpEnd(s: string, i: nat): (k: Option<nat>)
    requires i <= |s|
    ensures k.Some? ==> i <= k.value <= |s|
  {
    if i < |s| && (s[i] == 'e' || s[i] == 'E') then
      var d := SignEnd(s, i + 1);
      if DigitsEnd(s, d) == d then None else Some(DigitsEnd(s, d))
    else Some(i)
  }

  function ReadNumber(s: string, i: nat): (p: Parsed<string>)
    requires i <= |s|
    ensures p.Ok? ==> i < p.next <= |s|
  {
    var start := SkipSpace(s, i);
    var first := if start < |s| && s[start] == '-' then start + 1 else start;
    if first >= |s| || !IsDigit(s[first]) then Err(ExpectedNumber(start))
    else
      var frac := FracEnd(s, WholeEnd(s, first));
      if frac == None then Err(EmptyFraction)
      else
        var end := ExpEnd(s, frac.value);
        if end == None then Err(EmptyExponent) else Ok(s[start..end.value], end.value)
  }

  /** The cells from column `row` has reached, and the closing bracket. */
  function ReadCells(s: string, i: nat, row: Row): (p: Parsed<Row>)
    requires i <= |s| && |row| <= 6
    ensures p.Ok? ==> i < p.next <= |s|
    decreases 6 - |row|
  {
    if |row| == 6 then
      match Expect(s, i, ']')
      case Err(e) => Err(e)
      case Ok(_, k) => Ok(row, k)
    else
      var comma := if |row| > 0 then Expect(s, i, ',') else Ok((), i);
      match comma
      case Err(e) => Err(e)
      case Ok(_, j) =>
        match ReadNumber(s, j)
        case Err(e) => Err(e)
        case Ok(lexeme, k) => ReadCells(s, k, row + [lexeme])
  }

  function ReadRow(s: string, i: nat): (p: Parsed<Row>)
    requires i <= |s|
    ensures p.Ok? ==> i < p.next <= |s|
  {
    match Expect(s, i, '[')
    case Err(e) => Err(e)
    case Ok(_, j) => ReadCells(s, j, [])
  }

  function ReadRows(s: string, i: nat, rows: seq<Row>): (p: Parsed<seq<Row>>)
    requires i <= |s|
    ensures p.Ok? ==> i < p.next <= |s|
    decreases |s| - i
  {
    match ReadRow(s, i)
    case Err(e) => Err(e)
    case Ok(row, j) =>
      var k := SkipSpace(s, j);
      if k < |s| && s[k] == ',' then ReadRows(s, k + 1, rows + [row])
      else
        match Expect(s, k, ']')
        case Err(e) => Err(e)
        case Ok(_, next) => Ok(rows + [row], next)
  }

  datatype Rows = Accepted(rows: seq<Row>) | Refused(error: ParseError)

  function Finish(s: string, rows: seq<Row>, i: nat): Rows
    requires i <= |s|
  {
    if SkipSpace(s, i) != |s| then Refused(TrailingData) else Accepted(rows)
  }

  function ParseRows(s: string): Rows {
    match Expect(s, 0, '[')
    case Err(e) => Refused(e)
    case Ok(_, i) =>
      var k := SkipSpace(s, i);
      if k < |s| && s[k] == ']' then Finish(s, [], k + 1)
      else
        match ReadRows(s, k, [])
        case Err(e) => Refused(e)
        case Ok(rows, next) => Finish(s, rows, next)
  }

  /** The cursor the reader moves along the text. */
  class Cursor {
    const text: string
    var i: nat

    ghost predicate Valid()
      reads this
    {
      i <= |text|
    }

    constructor (text: string)
      ensures Valid() && this.text == text && i == 0
    {
      this.text := text;
      i := 0;
    }

    method Skip()
      requires Valid()
      modifies this
      ensures Valid() && i == SkipSpace(text, old(i))
    {
      while i < |text| && IsSpace(text[i])
        invariant Valid() && SkipSpace(text, i) == SkipSpace(text, old(i))
      {
        i := i + 1;
      }
    }

    method SkipDigits()
      requires Valid()
      modifies this
      ensures Valid() && i == DigitsEnd(text, old(i))
    {
      while i < |text| && IsDigit(text[i])
        invariant Valid() && DigitsEnd(text, i) == DigitsEnd(text, old(i))
      {
        i := i + 1;
      }
    }

    method ExpectChar(ch: char) returns (failure: Option<ParseError>)
      requires Valid()
      modifies this
      ensures Valid()
      ensures failure == match Expect(text, old(i), ch) case Err(e) => Some(e) case Ok(_, _) => None
      ensures failure == None ==> i == Expect(text, old(i), ch).next
    {
      Skip();
      if i == |text| || text[i] != ch {
        return Some(Expected(ch, i));
      }
      i := i + 1;
      failure := None;
    }

    method Fraction() returns (ok: bool)
      requires Valid()
      modifies this
      ensures Valid() && ok == FracEnd(text, old(i)).Some? && (ok ==> i == FracEnd(text, old(i)).value)
    {
      ok := true;
      if i < |text| && text[i] == '.' {
        i := i + 1;
        var frac := i;
        SkipDigits();
        ok := i != frac;
      }
    }

    method ExponentPart() returns (ok: bool)
      requires Valid()
      modifies this
      ensures Valid() && ok == ExpEnd(text, old(i)).Some? && (ok ==> i == ExpEnd(text, old(i)).value)
    {
      ok := true;
      if i < |text| && (text[i] == 'e' || text[i] == 'E') {
        i := i + 1;
        if i < |text| && (text[i] == '+' || text[i] == '-') {
          i := i + 1;
        }
        var exp := i;
        SkipDigits();
        ok := i != exp;
      }
    }

    method Number() returns (p: Parsed<string>)
      requires Valid()
      modifies this
      ensures Valid() && p == ReadNumber(text, old(i)) && (p.Ok? ==> i == p.next)
    {
      hide DigitsEnd, SkipSpace, FracEnd, ExpEnd;
      Skip();
      var start := i;
      if i < |text| && text[i] == '-' {
        i := i + 1;
      }
      if i >= |text| || !IsDigit(text[i]) {
        return Err(ExpectedNumber(start));
      }
      if text[i] == '0' {
        i := i + 1;
      } else {
        SkipDigits();
      }
      var ok := Fraction();
      if !ok {
        return Err(EmptyFraction);
      }
      ok := ExponentPart();
      if !ok {
        return Err(EmptyExponent);
      }
      p := Ok(text[start..i], i);
    }

    method RowOfSix() returns (p: Parsed<Row>)
      requires Valid()
      modifies this
      ensures Valid() && p == ReadRow(text, old(i)) && (p.Ok? ==> i == p.next)
    {
      var failure := ExpectChar('[');
      if failure.Some? {
        return Err(failure.value);
      }
      var row: Row := [];
      while |row| < 6
        invariant Valid() && |row| <= 6
        invariant ReadCells(text, i, row) == ReadRow(text, old(i))
        decreases 6 - |row|
      {
        if |row| > 0 {
          failure := ExpectChar(',');
          if failure.Some? {
            return Err(failure.value);
          }
        }
        var cell := Number();
        if cell.Err? {
          return Err(cell.error);
        }
        row := row + [cell.value];
      }
      failure := ExpectChar(']');
      if failure.Some? {
        return Err(failure.value);
      }
      p := Ok(row, i);
    }

    method RowsUntilEnd() returns (p: Parsed<seq<Row>>)
      requires Valid()
      modifies this
      ensures Valid() && p == ReadRows(text, old(i), []) && (p.Ok? ==> i == p.next)
    {
      hide ReadRow, SkipSpace, AllSpace;
      var rows: seq<Row> := [];
      while true
        invariant Valid() && ReadRows(text, i, rows) == ReadRows(text, old(i), [])
        decreases |text| - i
      {
        var row := RowOfSix();
        if row.Err? {
          return Err(row.error);
        }
        rows := rows + [row.value];
        Skip();
        if i < |text| && text[i] == ',' {
          i := i + 1;
        } else {
          break;
        }
      }
      var failure := ExpectChar(']');
      if failure.Some? {
        return Err(failure.value);
      }
      p := Ok(rows, i);
    }
  }

  method ParseNumericRows(text: string) returns (result: Rows)
    ensures result == ParseRows(text)
  {
    var cursor := new Cursor(text);
    var failure := cursor.ExpectChar('[');
    if failure.Some? {
      return Refused(failure.value);
    }
    cursor.Skip();
    if cursor.i < |text| && text[cursor.i] == ']' {
      cursor.i := cursor.i + 1;
      cursor.Skip();
      return if cursor.i != |text| then Refused(TrailingData) else Accepted([]);
    }
    var body := cursor.RowsUntilEnd();
    if body.Err? {
      return Refused(body.error);
    }
    cursor.Skip();
    result := if cursor.i != |text| then Refused(TrailingData) else Accepted(body.value);
  }

  // ----- numbers: the reader takes exactly the grammar's lexemes

  /** What can stand after a number in a payload. */
  ghost predicate Follows(s: string, j: nat) {
    j < |s| && (IsSpace(s[j]) || s[j] == ',' || s[j] == ']')
  }

  /** The position from which the number at `start` has its digits. */
  function FirstDigit(s: string, start: nat): nat {
    if start < |s| && s[start] == '-' then start + 1 else start
  }

  lemma WholeSound(s: string, i: nat)
    requires i < |s| && IsDigit(s[i])
    ensures var whole := s[i..WholeEnd(s, i)]; whole != "" && AllDigits(whole) && (whole == "0" || whole[0] != '0')
  {
    var k := WholeEnd(s, i);
    if s[i] == '0' {
      assert s[i..k] == "0";
    } else {
      assert s[i..k][0] == s[i];
    }
  }

  lemma FracSound(s: string, i: nat)
    requires i <= |s| && FracEnd(s, i).Some?
    ensures var k := FracEnd(s, i).value;
            exists frac :: GoodFrac(frac) && RenderFrac(frac) == s[i..k]
  {
    var k := FracEnd(s, i).value;
    if i < |s| && s[i] == '.' {
      assert s[i..k] == [s[i]] + s[i + 1..k];
      var frac := Some(s[i + 1..k]);
      assert GoodFrac(frac) && RenderFrac(frac) == s[i..k];
    } else {
      assert GoodFrac(None) && RenderFrac(None) == s[i..k];
    }
  }

  lemma ExpSound(s: string, i: nat)
    requires i <= |s| && ExpEnd(s, i).Some?
    ensures var k := ExpEnd(s, i).value;
            exists e :: GoodExp(e) && RenderExp(e) == s[i..k]
  {
    var k := ExpEnd(s, i).value;
    if i < |s| && (s[i] == 'e' || s[i] == 'E') {
      var d := SignEnd(s, i + 1);
      assert d == i + 2 ==> s[i + 1..d] == [s[i + 1]];
      assert s[i..k] == [s[i]] + s[i + 1..d] + s[d..k];
      var e := Some(Exponent(s[i], s[i + 1..d], s[d..k]));
      assert GoodExp(e) && RenderExp(e) == s[i..k];
    } else {
      assert GoodExp(None) && RenderExp(None) == s[i..k];
    }
  }

  lemma NumberSound(s: string, i: nat)
    requires i <= |s| && ReadNumber(s, i).Ok?
    ensures var p := ReadNumber(s, i);
            IsNumberText(p.value) && p.value == s[SkipSpace(s, i)..p.next] && SkipSpace(s, i) < p.next
  {
    hide RenderFrac, RenderExp, GoodFrac, GoodExp, DigitsEnd, SkipSpace;
    var start := SkipSpace(s, i);
    var first := FirstDigit(s, start);
    var j := WholeEnd(s, first);
    var k := FracEnd(s, j).value;
    var end := ExpEnd(s, k).value;
    WholeSound(s, first);
    FracSound(s, j);
    ExpSound(s, k);
    var frac :| GoodFrac(frac) && RenderFrac(frac) == s[j..k];
    var e :| GoodExp(e) && RenderExp(e) == s[k..end];
    var n := Number(first == start + 1, s[first..j], frac, e);
    Cuts(s, start, first, j, k, end);
    assert s[start..first] == if n.neg then "-" else "";
    assert JsonNumber(n) && Render(n) == s[start..end];
  }

  lemma Cut(s: string, a: nat, b: nat, c: nat)
    requires a <= b <= c <= |s|
    ensures s[a..c] == s[a..b] + s[b..c]
  {
  }

  lemma Cuts(s: string, a: nat, b: nat, c: nat, d: nat, e: nat)
    requires a <= b <= c <= d <= e <= |s|
    ensures s[a..e] == s[a..b] + s[b..c] + s[c..d] + s[d..e]
  {
    Cut(s, a, b, c);
    Cut(s, a, c, d);
    Cut(s, a, d, e);
  }

  lemma WholeComplete(s: string, i: nat, whole: string)
    requires whole != "" && AllDigits(whole) && (whole == "0" || whole[0] != '0')
    requires i + |whole| < |s| && s[i..i + |whole|] == whole && !IsDigit(s[i + |whole|])
    ensures IsDigit(s[i]) && WholeEnd(s, i) == i + |whole|
  {
    assert s[i] == s[i..i + |whole|][0];
    DigitsEndAt(s, i, i + |whole|);
  }

  lemma FracComplete(s: string, i: nat, frac: Option<string>)
    requires GoodFrac(frac)
    requires i + |RenderFrac(frac)| < |s| && s[i..i + |RenderFrac(frac)|] == RenderFrac(frac)
    requires !IsDigit(s[i + |RenderFrac(frac)|]) && s[i + |RenderFrac(frac)|] != '.'
    ensures FracEnd(s, i) == Some(i + |RenderFrac(frac)|) && !IsDigit(s[i])
  {
    if frac.Some? {
      var k := i + |RenderFrac(frac)|;
      assert s[i] == s[i..k][0];
      assert s[i + 1..k] == s[i..k][1..] == frac.value;
      DigitsEndAt(s, i + 1, k);
    }
  }

  lemma {:induction false} ExpComplete(s: string, i: nat, e: Option<Exponent>)
    requires GoodExp(e)
    requires i + |RenderExp(e)| < |s| && s[i..i + |RenderExp(e)|] == RenderExp(e)
    requires Follows(s, i + |RenderExp(e)|)
    ensures ExpEnd(s, i) == Some(i + |RenderExp(e)|) && !IsDigit(s[i]) && s[i] != '.'
  {
    hide AllDigits, DigitsEnd, RenderExp, Follows;
    var k := i + |RenderExp(e)|;
    FollowerIsPlain(s, k);
    if e.None? {
      NoExp();
    } else {
      var d := i + 1 + |e.value.sign|;
      ExpText(s, i, e.value);
      FirstIsDigit(e.value.digits);
      SignRead(s, i + 1, e.value.sign);
      DigitsEndAt(s, d, k);
    }
  }

  lemma NoExp()
    ensures RenderExp(None) == ""
  {
  }

  lemma FollowerIsPlain(s: string, j: nat)
    requires Follows(s, j)
    ensures !IsDigit(s[j]) && s[j] !in {'.', 'e', 'E'}
  {
  }

  /** The parts of an exponent stand in s where the whole does. */
  lemma {:induction false} ExpText(s: string, i: nat, x: Exponent)
    requires var k := i + |RenderExp(Some(x))|; k < |s| && s[i..k] == RenderExp(Some(x))
    ensures var d := i + 1 + |x.sign|; var k := d + |x.digits|;
            && |RenderExp(Some(x))| == k - i && k < |s|
            && s[i] == x.mark && s[i + 1..d] == x.sign && s[d..k] == x.digits
            && (x.digits != "" ==> s[d] == x.digits[0])
  {
    hide RenderExp;
    var d := i + 1 + |x.sign|;
    var k := d + |x.digits|;
    TextOfExp(x, RenderExp(Some(x)));
    assert s[i] == s[i..k][0];
    SubSlice(s, i, k, 1, 1 + |x.sign|);
    SubSlice(s, i, k, 1 + |x.sign|, k - i);
    assert s[i..k][1 + |x.sign|..k - i] == s[i..k][1 + |x.sign|..];
    assert x.digits != "" ==> s[d] == s[d..k][0];
  }

  lemma {:induction false} SubSlice(s: string, i: nat, k: nat, a: nat, b: nat)
    requires i <= k <= |s| && a <= b <= k - i
    ensures s[i..k][a..b] == s[i + a..i + b]
  {
    var left, right := s[i..k][a..b], s[i + a..i + b];
    assert forall j :: 0 <= j < b - a ==> left[j] == s[i + a + j] == right[j];
  }

  lemma SignRead(s: string, i: nat, sign: string)
    requires sign in {"", "+", "-"} && i + |sign| < |s| && s[i..i + |sign|] == sign && IsDigit(s[i + |sign|])
    ensures SignEnd(s, i) == i + |sign|
  {
    assert sign != "" ==> s[i] == s[i..i + |sign|][0];
  }

  /** A piece of a text that stands in s stands in s too. */
  lemma Piece(s: string, start: nat, before: string, piece: string, after: string)
    requires start + |before + piece + after| <= |s|
    requires s[start..start + |before + piece + after|] == before + piece + after
    ensures s[start + |before|..start + |before| + |piece|] == piece
  {
    var whole := before + piece + after;
    forall k | 0 <= k < |piece| ensures s[start + |before| + k] == piece[k] {
      assert s[start..start + |whole|][|before| + k] == whole[|before| + k];
    }
  }

  lemma Regrouped(a: string, b: string, c: string, d: string)
    ensures a + b + c + d == a + b + (c + d)
    ensures a + b + c + d == a + b + c + d + ""
  {
  }

  lemma Located(s: string, start: nat, n: Number)
    requires WellFormed(n) && start + |Render(n)| <= |s| && s[start..start + |Render(n)|] == Render(n)
    ensures var first := start + if n.neg then 1 else 0;
            var j := first + |n.whole|;
            var k := j + |RenderFrac(n.frac)|;
            && s[first..j] == n.whole && s[j..k] == RenderFrac(n.frac)
                && s[k..k + |RenderExp(n.exp)|] == RenderExp(n.exp)
            && FirstDigit(s, start) == first
  {
    hide RenderFrac, RenderExp;
    var sign, frac, exp := if n.neg then "-" else "", RenderFrac(n.frac), RenderExp(n.exp);
    Regrouped(sign, n.whole, frac, exp);
    Piece(s, start, sign, n.whole, frac + exp);
    Piece(s, start, sign + n.whole, frac, exp);
    Piece(s, start, sign + n.whole + frac, exp, "");
    assert s[start] == s[start..start + |Render(n)|][0];
  }

  lemma {:induction false} NumberAt(s: string, i: nat, n: Number)
    requires i <= |s| && JsonNumber(n)
    requires var start := SkipSpace(s, i);
             start + |Render(n)| <= |s| && s[start..start + |Render(n)|] == Render(n) && Follows(s, start + |Render(n)|)
    ensures ReadNumber(s, i) == Ok(Render(n), SkipSpace(s, i) + |Render(n)|)
  {
    hide RenderFrac, RenderExp, GoodFrac, GoodExp, AllDigits, DigitsEnd, SkipSpace, WholeEnd, FracEnd, ExpEnd, Render;
    var start := SkipSpace(s, i);
    Located(s, start, n);
    var first := FirstDigit(s, start);
    var j := first + |n.whole|;
    var k := j + |RenderFrac(n.frac)|;
    RenderLength(n);
    ExpComplete(s, k, n.exp);
    FracComplete(s, j, n.frac);
    WholeComplete(s, first, n.whole);
  }

  lemma RenderLength(n: Number)
    ensures |Render(n)| == (if n.neg then 1 else 0) + |n.whole| + |RenderFrac(n.frac)| + |RenderExp(n.exp)|
  {
    hide RenderFrac, RenderExp;
  }

  lemma NumberComplete(s: string, i: nat, lexeme: string)
    requires i <= |s| && IsNumberText(lexeme)
    requires var start := SkipSpace(s, i);
             start + |lexeme| <= |s| && s[start..start + |lexeme|] == lexeme && Follows(s, start + |lexeme|)
    ensures ReadNumber(s, i) == Ok(lexeme, SkipSpace(s, i) + |lexeme|)
  {
    hide ReadNumber, SkipSpace, Follows, JsonNumber, Render;
    var n :| JsonNumber(n) && Render(n) == lexeme;
    NumberAt(s, i, n);
  }

  // ----- tokens: the reader takes exactly the token sequences of valid rows

  /** Where the tokens end when each is next after white space; None when one is not. */
  function MatchTokens(s: string, i: nat, tokens: seq<string>): (j: Option<nat>)
    requires i <= |s|
    ensures j.Some? ==> i <= j.value <= |s|
    decreases |tokens|
  {
    if tokens == [] then Some(i)
    else
      var end := SkipSpace(s, i) + |tokens[0]|;
      if end <= |s| && s[SkipSpace(s, i)..end] == tokens[0] then MatchTokens(s, end, tokens[1..]) else None
  }

  lemma {:induction false} MatchConcat(s: string, i: nat, a: seq<string>, b: seq<string>)
    requires i <= |s|
    ensures MatchTokens(s, i, a + b) ==
      var j := MatchTokens(s, i, a);
      if j == None then None else MatchTokens(s, j.value, b)
    decreases |a|
  {
    hide SkipSpace, MatchTokens;
    if a == [] {
      assert a + b == b;
      MatchNothing(s, i);
    } else {
      MatchHead(s, i, a);
      MatchHead(s, i, a + b);
      assert (a + b)[0] == a[0] && (a + b)[1..] == a[1..] + b;
      if NextIs(s, i, a[0]) {
        MatchConcat(s, SkipSpace(s, i) + |a[0]|, a[1..], b);
      }
    }
  }

  lemma MatchNothing(s: string, i: nat)
    requires i <= |s|
    ensures MatchTokens(s, i, []) == Some(i)
  {
  }

  /** Past white space, the token stands. */
  predicate NextIs(s: string, i: nat, token: string)
    requires i <= |s|
  {
    SkipSpace(s, i) + |token| <= |s| && s[SkipSpace(s, i)..SkipSpace(s, i) + |token|] == token
  }

  lemma {:induction false} MatchHead(s: string, i: nat, tokens: seq<string>)
    requires i <= |s| && tokens != []
    ensures MatchTokens(s, i, tokens) ==
      if NextIs(s, i, tokens[0]) then MatchTokens(s, SkipSpace(s, i) + |tokens[0]|, tokens[1..]) else None
  {
    hide SkipSpace;
  }

  lemma MatchOne(s: string, i: nat, token: string)
    requires i <= |s|
    ensures var end := SkipSpace(s, i) + |token|;
            MatchTokens(s, i, [token]) == if end <= |s| && s[SkipSpace(s, i)..end] == token then Some(end) else None
  {
    assert [token][1..] == [];
  }

  lemma ExpectIsMatch(s: string, i: nat, ch: char)
    requires i <= |s|
    ensures MatchTokens(s, i, [[ch]]) == match Expect(s, i, ch) case Ok(_, j) => Some(j) case Err(_) => None
  {
    MatchOne(s, i, [ch]);
    var k := SkipSpace(s, i);
    assert k < |s| ==> s[k..k + 1] == [s[k]];
  }

  lemma SkipTwice(s: string, i: nat)
    requires i <= |s|
    ensures SkipSpace(s, SkipSpace(s, i)) == SkipSpace(s, i)
  {
  }

  /** After a token that a separator follows, a number is over. */
  lemma SeparatorFollows(s: string, j: nat, separator: char, rest: seq<string>)
    requires j <= |s| && (separator == ',' || separator == ']') && MatchTokens(s, j, [[separator]] + rest).Some?
    ensures Follows(s, j)
  {
    var k := SkipSpace(s, j);
    assert ([[separator]] + rest)[0] == [separator];
    assert s[k..k + 1] == [separator];
    assert s[k] == s[k..k + 1][0];
    if j < k {
      assert s[j] == s[j..k][0];
    }
  }

  // ----- cells and rows

  ghost predicate Extends<T>(long: seq<T>, short: seq<T>) {
    |short| <= |long| && long[..|short|] == short
  }

  /** The position of a cell: after a comma, unless it is the first. */
  ghost predicate CellStarts(s: string, i: nat, c: nat, j: nat)
    requires i <= |s|
  {
    j <= |s| && if c > 0 then Expect(s, i, ',').Ok? && j == Expect(s, i, ',').next else j == i
  }

  lemma NumberMatches(s: string, j: nat)
    requires j <= |s| && ReadNumber(s, j).Ok?
    ensures IsNumberText(ReadNumber(s, j).value)
    ensures MatchTokens(s, j, [ReadNumber(s, j).value]) == Some(ReadNumber(s, j).next)
  {
    hide ReadNumber, IsNumberText;
    NumberSound(s, j);
    MatchOne(s, j, ReadNumber(s, j).value);
  }

  lemma {:induction false} ReadCellsUnfolds(s: string, i: nat, row: Row) returns (j: nat)
    requires i <= |s| && |row| < 6 && ReadCells(s, i, row).Ok?
    ensures CellStarts(s, i, |row|, j) && ReadNumber(s, j).Ok?
    ensures ReadCells(s, i, row) == ReadCells(s, ReadNumber(s, j).next, row + [ReadNumber(s, j).value])
  {
    j := if |row| > 0 then Expect(s, i, ',').next else i;
  }

  ghost predicate CellsMatch(s: string, i: nat, row: Row, p: Parsed<Row>)
    requires i <= |s| && p.Ok? && |row| <= 6
  {
    && ValidRow(p.value) && Extends(p.value, row)
    && MatchTokens(s, i, CellTokens(p.value, |row|)) == Some(p.next)
  }

  lemma {:induction false} CellsSound(s: string, i: nat, row: Row)
    requires i <= |s| && |row| <= 6 && (forall c :: 0 <= c < |row| ==> IsNumberText(row[c])) && ReadCells(s, i, row).Ok?
    ensures CellsMatch(s, i, row, ReadCells(s, i, row))
    decreases 6 - |row|
  {
    hide ReadNumber, IsNumberText, SkipSpace, MatchTokens;
    if |row| == 6 {
      ExpectIsMatch(s, i, ']');
      assert row[..6] == row;
    } else {
      var j := ReadCellsUnfolds(s, i, row);
      var p := ReadNumber(s, j);
      NumberMatches(s, j);
      var longer := row + [p.value];
      CellsSound(s, p.next, longer);
      var out := ReadCells(s, i, row).value;
      assert out[|row|] == out[..|longer|][|row|] == p.value;
      assert out[..|row|] == out[..|longer|][..|row|] == row;
      CellStep(s, i, out, |row|, j, p.next);
    }
  }

  /** One column: a comma unless it is the first, then the cell, then the rest. */
  lemma CellStep(s: string, i: nat, row: Row, c: nat, j: nat, k: nat)
    requires i <= |s| && j <= |s| && k <= |s| && c < |row|
    requires CellStarts(s, i, c, j) && MatchTokens(s, j, [row[c]]) == Some(k)
    ensures MatchTokens(s, i, CellTokens(row, c)) == MatchTokens(s, k, CellTokens(row, c + 1))
  {
    var rest := CellTokens(row, c + 1);
    MatchConcat(s, j, [row[c]], rest);
    if c > 0 {
      ExpectIsMatch(s, i, ',');
      MatchConcat(s, i, [","], [row[c]] + rest);
      assert [",", row[c]] + rest == [","] + ([row[c]] + rest);
    }
  }

  lemma {:induction false} CellsComplete(s: string, i: nat, row: Row, c: nat)
    requires i <= |s| && c <= 6 && ValidRow(row) && MatchTokens(s, i, CellTokens(row, c)).Some?
    ensures ReadCells(s, i, row[..c]) == Ok(row, MatchTokens(s, i, CellTokens(row, c)).value)
    decreases 6 - c
  {
    hide ReadNumber, IsNumberText, SkipSpace, MatchTokens, Expect;
    if c == 6 {
      ExpectIsMatch(s, i, ']');
      assert row[..6] == row;
    } else {
      var j, k := CellLocated(s, i, row, c);
      assert row[..c] + [row[c]] == row[..c + 1];
      CellStep(s, i, row, c, j, k);
      CellsComplete(s, k, row, c + 1);
    }
  }

  /** The next cell's tokens are where the reader looks for them. */
  lemma CellLocated(s: string, i: nat, row: Row, c: nat) returns (j: nat, k: nat)
    requires i <= |s| && c < 6 && ValidRow(row) && MatchTokens(s, i, CellTokens(row, c)).Some?
    ensures CellStarts(s, i, c, j) && ReadNumber(s, j) == Ok(row[c], k) && MatchTokens(s, j, [row[c]]) == Some(k)
  {
    hide ReadNumber, IsNumberText, SkipSpace, MatchTokens, Expect;
    var rest := CellTokens(row, c + 1);
    j := i;
    if c > 0 {
      assert [",", row[c]] + rest == [","] + ([row[c]] + rest);
      MatchConcat(s, i, [","], [row[c]] + rest);
      ExpectIsMatch(s, i, ',');
      j := Expect(s, i, ',').next;
    }
    MatchConcat(s, j, [row[c]], rest);
    k := MatchTokens(s, j, [row[c]]).value;
    CellRead(s, j, row[c], rest, if c < 5 then ',' else ']');
  }

  lemma CellRead(s: string, j: nat, lexeme: string, rest: seq<string>, separator: char)
    requires j <= |s| && IsNumberText(lexeme) && (separator == ',' || separator == ']')
    requires rest != [] && rest[0] == [separator] && MatchTokens(s, j, [lexeme]).Some?
    requires MatchTokens(s, MatchTokens(s, j, [lexeme]).value, rest).Some?
    ensures ReadNumber(s, j) == Ok(lexeme, MatchTokens(s, j, [lexeme]).value)
  {
    hide ReadNumber, IsNumberText, SkipSpace;
    MatchOne(s, j, lexeme);
    assert rest == [[separator]] + rest[1..];
    SeparatorFollows(s, MatchTokens(s, j, [lexeme]).value, separator, rest[1..]);
    NumberComplete(s, j, lexeme);
  }

  lemma RowSound(s: string, i: nat)
    requires i <= |s| && ReadRow(s, i).Ok?
    ensures ValidRow(ReadRow(s, i).value)
            && MatchTokens(s, i, RowTokens(ReadRow(s, i).value)) == Some(ReadRow(s, i).next)
  {
    hide ReadCells, SkipSpace, MatchTokens;
    ExpectIsMatch(s, i, '[');
    var j := Expect(s, i, '[').next;
    CellsSound(s, j, []);
    MatchConcat(s, i, ["["], CellTokens(ReadRow(s, i).value, 0));
  }

  lemma RowComplete(s: string, i: nat, row: Row)
    requires i <= |s| && ValidRow(row) && MatchTokens(s, i, RowTokens(row)).Some?
    ensures ReadRow(s, i) == Ok(row, MatchTokens(s, i, RowTokens(row)).value)
  {
    hide ReadCells, SkipSpace, MatchTokens;
    MatchConcat(s, i, ["["], CellTokens(row, 0));
    ExpectIsMatch(s, i, '[');
    CellsComplete(s, Expect(s, i, '[').next, row, 0);
    assert row[..0] == [];
  }

  /** What is left to print once r rows are out and, for r > 0, the comma after them. */
  function RowsFrom(rows: seq<Row>, r: nat): seq<string>
    requires r < |rows|
  {
    RowTokens(rows[r]) + RestTokens(rows, r + 1)
  }

  /** From one row to the next: over a comma, or over the closing bracket. */
  lemma RowsStep(s: string, i: nat, rows: seq<Row>, r: nat, j: nat)
    requires i <= |s| && j <= |s| && r < |rows| && MatchTokens(s, i, RowTokens(rows[r])) == Some(j)
    ensures MatchTokens(s, i, RowsFrom(rows, r)) ==
      if r + 1 == |rows| then MatchTokens(s, j, ["]"])
      else var k := MatchTokens(s, j, [","]);
           if k == None then None else MatchTokens(s, k.value, RowsFrom(rows, r + 1))
  {
    hide MatchTokens, RowTokens;
    MatchConcat(s, i, RowTokens(rows[r]), RestTokens(rows, r + 1));
    if r + 1 < |rows| {
      assert RestTokens(rows, r + 1) == [","] + RowsFrom(rows, r + 1);
      MatchConcat(s, j, [","], RowsFrom(rows, r + 1));
    }
  }

  lemma ExpectAfterSkip(s: string, i: nat, ch: char)
    requires i <= |s|
    ensures Expect(s, SkipSpace(s, i), ch) == Expect(s, i, ch)
    ensures Expect(s, i, ch).Ok? <==> SkipSpace(s, i) < |s| && s[SkipSpace(s, i)] == ch
    ensures Expect(s, i, ch).Ok? ==> Expect(s, i, ch).next == SkipSpace(s, i) + 1
  {
    SkipTwice(s, i);
  }

  ghost predicate RowsMatch(s: string, i: nat, rows: seq<Row>, p: Parsed<seq<Row>>)
    requires i <= |s| && p.Ok?
  {
    && ValidRows(p.value) && Extends(p.value, rows) && |rows| < |p.value|
    && MatchTokens(s, i, RowsFrom(p.value, |rows|)) == Some(p.next)
  }

  lemma {:induction false} RowsSound(s: string, i: nat, rows: seq<Row>)
    requires i <= |s| && ValidRows(rows) && ReadRows(s, i, rows).Ok?
    ensures RowsMatch(s, i, rows, ReadRows(s, i, rows))
    decreases |s| - i
  {
    hide ReadRow, SkipSpace, MatchTokens, ValidRow;
    var row, j := ReadRow(s, i).value, ReadRow(s, i).next;
    RowSound(s, i);
    var longer := rows + [row];
    var out := ReadRows(s, i, rows).value;
    ExpectAfterSkip(s, j, ','); ExpectIsMatch(s, j, ',');
    ExpectAfterSkip(s, j, ']'); ExpectIsMatch(s, j, ']');
    if Expect(s, j, ',').Ok? {
      RowsSound(s, SkipSpace(s, j) + 1, longer);
      assert out[|rows|] == out[..|longer|][|rows|] == row;
      assert out[..|rows|] == out[..|longer|][..|rows|] == rows;
    } else {
      assert out == longer;
    }
    RowsStep(s, i, out, |rows|, j);
  }

  lemma {:induction false} RowsComplete(s: string, i: nat, rows: seq<Row>, r: nat)
    requires i <= |s| && r < |rows| && ValidRows(rows) && MatchTokens(s, i, RowsFrom(rows, r)).Some?
    ensures ReadRows(s, i, rows[..r]) == Ok(rows, MatchTokens(s, i, RowsFrom(rows, r)).value)
    decreases |rows| - r
  {
    hide ReadRow, SkipSpace, MatchTokens, ValidRow;
    MatchConcat(s, i, RowTokens(rows[r]), RestTokens(rows, r + 1));
    RowComplete(s, i, rows[r]);
    var j := ReadRow(s, i).next;
    RowsStep(s, i, rows, r, j);
    assert rows[..r] + [rows[r]] == rows[..r + 1];
    assert rows[..|rows|] == rows;
    ExpectAfterSkip(s, j, ','); ExpectIsMatch(s, j, ',');
    ExpectAfterSkip(s, j, ']'); ExpectIsMatch(s, j, ']');
    if r + 1 < |rows| {
      RowsComplete(s, SkipSpace(s, j) + 1, rows, r + 1);
    }
  }

  // ----- the whole text

  lemma MatchFromSkip(s: string, i: nat, tokens: seq<string>)
    requires i <= |s| && tokens != []
    ensures MatchTokens(s, SkipSpace(s, i), tokens) == MatchTokens(s, i, tokens)
  {
    SkipTwice(s, i);
  }

  /** The tokens of these rows are the text, up to a final gap. */
  ghost predicate TextMatches(s: string, rows: seq<Row>) {
    var end := MatchTokens(s, 0, Tokens(rows));
    end.Some? && SkipSpace(s, end.value) == |s|
  }

  lemma OpeningBracket(s: string, rows: seq<Row>)
    ensures MatchTokens(s, 0, Tokens(rows)) ==
      if Expect(s, 0, '[').Ok? then MatchTokens(s, Expect(s, 0, '[').next, RestTokens(rows, 0)) else None
  {
    hide SkipSpace, MatchTokens;
    MatchConcat(s, 0, ["["], RestTokens(rows, 0));
    ExpectIsMatch(s, 0, '[');
  }

  lemma RowTokenFirst(rows: seq<Row>)
    requires rows != []
    ensures RestTokens(rows, 0) == RowsFrom(rows, 0) && RowsFrom(rows, 0)[0] == "["
  {
  }

  lemma AcceptedMatches(s: string)
    requires ParseRows(s).Accepted?
    ensures ValidRows(ParseRows(s).rows) && TextMatches(s, ParseRows(s).rows)
  {
    hide SkipSpace, MatchTokens, ReadRows, ValidRow;
    var rows := ParseRows(s).rows;
    var i := Expect(s, 0, '[').next;
    var k := SkipSpace(s, i);
    OpeningBracket(s, rows);
    ExpectAfterSkip(s, i, ']');
    if k < |s| && s[k] == ']' {
      ExpectIsMatch(s, i, ']');
    } else {
      RowsSound(s, k, []);
      RowTokenFirst(rows);
      MatchFromSkip(s, i, RowsFrom(rows, 0));
    }
  }

  lemma MatchedIsAccepted(s: string, rows: seq<Row>)
    requires ValidRows(rows) && TextMatches(s, rows)
    ensures ParseRows(s) == Accepted(rows)
  {
    hide SkipSpace, MatchTokens, ReadRows, ValidRow;
    OpeningBracket(s, rows);
    var i := Expect(s, 0, '[').next;
    ExpectAfterSkip(s, i, ']');
    if rows == [] {
      ExpectIsMatch(s, i, ']');
    } else {
      RowTokenFirst(rows);
      NotABracket(s, i, RowsFrom(rows, 0));
      MatchFromSkip(s, i, RowsFrom(rows, 0));
      RowsComplete(s, SkipSpace(s, i), rows, 0);
      assert rows[..0] == [];
    }
  }

  lemma NotABracket(s: string, i: nat, tokens: seq<string>)
    requires i <= |s| && tokens != [] && tokens[0] == "[" && MatchTokens(s, i, tokens).Some?
    ensures SkipSpace(s, i) < |s| && s[SkipSpace(s, i)] == '['
  {
    var k := SkipSpace(s, i);
    assert s[k..k + 1][0] == s[k];
  }

  // ----- matching tokens is printing them with white space between

  ghost predicate TokenLike(token: string) {
    token != "" && !IsSpace(token[0])
  }

  ghost predicate GapsOf(gaps: seq<string>, tokens: seq<string>) {
    |gaps| == |tokens| + 1 && forall g :: 0 <= g < |gaps| ==> AllSpace(gaps[g])
  }

  lemma {:induction false} SkipIs(s: string, i: nat, k: nat)
    requires i <= k <= |s| && AllSpace(s[i..k]) && (k < |s| ==> !IsSpace(s[k]))
    ensures SkipSpace(s, i) == k
    decreases k - i
  {
    if i < k {
      assert s[i] == s[i..k][0];
      assert s[i + 1..k] == s[i..k][1..];
      SkipIs(s, i + 1, k);
    }
  }

  lemma SuffixParts(s: string, i: nat, gap: string, token: string, rest: string)
    requires i <= |s| && s[i..] == gap + token + rest
    ensures var k := i + |gap|;
            && k + |token| <= |s| && s[i..k] == gap && s[k..k + |token|] == token && s[k + |token|..] == rest
            && (token != "" ==> s[k] == token[0])
  {
    var k := i + |gap|;
    assert s == s[..i] + (gap + token + rest);
    assert s[k + |token|..] == s[i..][|gap| + |token|..] == rest;
  }

  lemma {:induction false} WovenMatches(s: string, i: nat, gaps: seq<string>, tokens: seq<string>)
    requires i <= |s| && GapsOf(gaps, tokens) && (forall t :: t in tokens ==> TokenLike(t))
            && s[i..] == Weave(gaps, tokens)
    ensures MatchTokens(s, i, tokens).Some? && SkipSpace(s, MatchTokens(s, i, tokens).value) == |s|
    decreases |tokens|
  {
    hide SkipSpace, AllSpace;
    if tokens == [] {
      assert s[i..|s|] == s[i..];
      SkipIs(s, i, |s|);
    } else {
      var gap, token, rest := gaps[0], tokens[0], Weave(gaps[1..], tokens[1..]);
      var k := i + |gap|;
      SuffixParts(s, i, gap, token, rest);
      assert token in tokens;
      SkipIs(s, i, k);
      WovenMatches(s, k + |token|, gaps[1..], tokens[1..]);
    }
  }

  lemma {:induction false} MatchedWeaves(s: string, i: nat, tokens: seq<string>) returns (gaps: seq<string>)
    requires i <= |s| && MatchTokens(s, i, tokens).Some? && SkipSpace(s, MatchTokens(s, i, tokens).value) == |s|
    ensures GapsOf(gaps, tokens) && s[i..] == Weave(gaps, tokens)
    decreases |tokens|
  {
    hide SkipSpace, AllSpace;
    if tokens == [] {
      gaps := [s[i..]];
      assert s[i..|s|] == s[i..];
    } else {
      var k := SkipSpace(s, i);
      var end := k + |tokens[0]|;
      var rest := MatchedWeaves(s, end, tokens[1..]);
      gaps := [s[i..k]] + rest;
      assert gaps[1..] == rest;
      TailParts(s, i, k, end);
    }
  }

  lemma TailParts(s: string, i: nat, k: nat, end: nat)
    requires i <= k <= end <= |s|
    ensures s[i..] == s[i..k] + s[k..end] + s[end..]
  {
  }

  lemma {:induction false} TokensAreTokenLike(rows: seq<Row>)
    requires ValidRows(rows)
    ensures forall t :: t in Tokens(rows) ==> TokenLike(t)
  {
    RestIsTokenLike(rows, 0);
  }

  lemma NumberIsTokenLike(lexeme: string)
    requires IsNumberText(lexeme)
    ensures TokenLike(lexeme)
  {
    var n :| JsonNumber(n) && Render(n) == lexeme;
    assert lexeme[0] == if n.neg then '-' else n.whole[0];
  }

  lemma {:induction false} CellsAreTokenLike(row: Row, c: nat)
    requires ValidRow(row) && c <= |row|
    ensures forall t :: t in CellTokens(row, c) ==> TokenLike(t)
    decreases |row| - c
  {
    if c < |row| {
      NumberIsTokenLike(row[c]);
      CellsAreTokenLike(row, c + 1);
    }
  }

  lemma {:induction false} RestIsTokenLike(rows: seq<Row>, r: nat)
    requires ValidRows(rows) && r <= |rows|
    ensures forall t :: t in RestTokens(rows, r) ==> TokenLike(t)
    decreases |rows| - r
  {
    hide ValidRow;
    if r < |rows| {
      CellsAreTokenLike(rows[r], 0);
      RestIsTokenLike(rows, r + 1);
    }
  }

  /**
   * The reader accepts exactly the texts that print rows of six numbers with white space between
   * the tokens, and gives back the very lexemes that were printed.
   */
  lemma ReaderAcceptsPrintings(text: string, rows: seq<Row>)
    ensures ParseRows(text) == Accepted(rows) <==> ValidRows(rows) && Prints(text, rows)
  {
    hide ParseRows, MatchTokens, SkipSpace, Tokens, Weave, ValidRow;
    if ParseRows(text) == Accepted(rows) {
      AcceptedMatches(text);
      var gaps := MatchedWeaves(text, 0, Tokens(rows));
      assert text[0..] == text;
    }
    if ValidRows(rows) && Prints(text, rows) {
      TokensAreTokenLike(rows);
      var gaps: seq<string> :| GapsOf(gaps, Tokens(rows)) && text == Weave(gaps, Tokens(rows));
      assert text[0..] == text;
      WovenMatches(text, 0, gaps, Tokens(rows));
      MatchedIsAccepted(text, rows);
    }
  }

  /** One text prints at most one list of valid rows. */
  lemma PrintingIsUnambiguous(text: string, rows: seq<Row>, other: seq<Row>)
    requires ValidRows(rows) && ValidRows(other) && Prints(text, rows) && Prints(text, other)
    ensures rows == other
  {
    ReaderAcceptsPrintings(text, rows);
    ReaderAcceptsPrintings(text, other);
  }
}
