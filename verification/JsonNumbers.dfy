// Numbers of the JSON syntax check: where the reader must stop, and that it takes exactly the numbers of the grammar.
module JsonNumbers {
  import opened Options
  import opened JsonTree

  // The first position from the cursor on that is not a digit.
  function DigitsTo(text: string, cursor: nat): (next: nat)
    ensures cursor <= next && (cursor <= |text| ==> next <= |text|) && (next < |text| ==> !IsDigit(text[next]))
    ensures forall i :: cursor <= i < next ==> i < |text| && IsDigit(text[i])
    decreases |text| - cursor
  {
    if cursor < |text| && IsDigit(text[cursor]) then DigitsTo(text, cursor + 1) else cursor
  }

  method SkipDigits(value: string, cursor: nat) returns (next: nat)
    requires cursor <= |value|
    ensures next == DigitsTo(value, cursor) && cursor <= next <= |value|
  {
    next := cursor;
    while next < |value| && IsDigit(value[next])
      invariant cursor <= next <= |value| && DigitsTo(value, cursor) == DigitsTo(value, next)
    {
      next := next + 1;
    }
  }

  predicate CharAt(text: string, at: nat, c: char) {
    at < |text| && text[at] == c
  }

  // ---- where the parts of a number end ----

  function WholeFrom(text: string, start: nat): nat {
    if CharAt(text, start, '-') then start + 1 else start
  }

  function WholeTo(text: string, c: nat): nat {
    if CharAt(text, c, '0') then c + 1 else DigitsTo(text, c)
  }

  function FractionTo(text: string, w: nat): nat {
    if CharAt(text, w, '.') then DigitsTo(text, w + 1) else w
  }

  function MarkTo(text: string, f: nat): nat {
    if f < |text| && StartsExponent(text[f]) then
      (if CharAt(text, f + 1, '+') || CharAt(text, f + 1, '-') then f + 2 else f + 1)
    else f
  }

  function ExponentTo(text: string, f: nat): nat {
    if MarkTo(text, f) > f then DigitsTo(text, MarkTo(text, f)) else f
  }

  // The text at the parts' places is a number.
  predicate PartsFine(text: string, c: nat, w: nat, f: nat, s: nat, e: nat) {
    && c < w <= |text| && (CharAt(text, c, '0') && w < |text| ==> !IsDigit(text[w]))
    && (CharAt(text, w, '.') ==> f > w + 1) && (s > f ==> e > s)
  }

  function Slice(text: string, a: nat, b: nat): string {
    if a <= b <= |text| then text[a..b] else ""
  }

  function PartsAt(text: string, start: nat): NumberParts {
    var c := WholeFrom(text, start);
    var w := WholeTo(text, c);
    var f := FractionTo(text, w);
    var s := MarkTo(text, f);
    var e := ExponentTo(text, f);
    NumberParts(c > start, Slice(text, c, w), if f > w then Some(Slice(text, w + 1, f)) else None,
      if s > f then Some(Exponent(Slice(text, f, s), Slice(text, s, e))) else None)
  }

  predicate Fine(text: string, start: nat) {
    var c := WholeFrom(text, start);
    var w := WholeTo(text, c);
    var f := FractionTo(text, w);
    PartsFine(text, c, w, f, MarkTo(text, f), ExponentTo(text, f))
  }

  function NumberTo(text: string, start: nat): nat {
    ExponentTo(text, FractionTo(text, WholeTo(text, WholeFrom(text, start))))
  }

  // ---- splitting the text of a number ----

  lemma NumberSplit(text: string, start: nat, n: NumberParts)
    ensures var c := start + if n.minus then 1 else 0;
      var w := c + |n.whole|;
      var f := w + |FractionText(n.fraction)|;
      && (At(text, start, NumberText(n)) <==>
           && At(text, start, if n.minus then "-" else "") && At(text, c, n.whole)
           && At(text, w, FractionText(n.fraction)) && At(text, f, ExponentText(n.exponent)))
      && start + |NumberText(n)| == f + |ExponentText(n.exponent)|
  {
    hide At, FractionText, ExponentText;
    var fraction, exponent := FractionText(n.fraction), ExponentText(n.exponent);
    var c := start + if n.minus then 1 else 0;
    AtBoth(text, start, if n.minus then "-" else "", n.whole + (fraction + exponent));
    AtBoth(text, c, n.whole, fraction + exponent);
    AtBoth(text, c + |n.whole|, fraction, exponent);
  }

  // A run of digits that cannot go on is the run that the reader skips.
  lemma RunTo(text: string, cursor: nat, digits: string)
    requires At(text, cursor, digits) && Digits(digits)
    requires (cursor + |digits| < |text| ==> !IsDigit(text[cursor + |digits|]))
    ensures DigitsTo(text, cursor) == cursor + |digits| && Slice(text, cursor, cursor + |digits|) == digits
  {
    var next, end := DigitsTo(text, cursor), cursor + |digits|;
    forall i | cursor <= i < end
      ensures IsDigit(text[i])
    {
      assert text[cursor..end][i - cursor] == digits[i - cursor];
    }
  }

  lemma RunIs(text: string, cursor: nat)
    requires cursor < DigitsTo(text, cursor)
    ensures var next := DigitsTo(text, cursor);
      next <= |text| && Digits(Slice(text, cursor, next)) && At(text, cursor, Slice(text, cursor, next))
  {
    var next := DigitsTo(text, cursor);
    assert text[next - 1] == text[next - 1];
  }

  // ---- a number of the grammar is the one that the reader finds ----

  lemma FirstOf(text: string, cursor: nat, t: string)
    requires At(text, cursor, t) && t != ""
    ensures cursor < |text| && text[cursor] == t[0]
  {
    FirstChar(text, cursor, t);
  }

  lemma MarkStarts(mark: string)
    requires mark in MARKS
    ensures 1 <= |mark| <= 2 && StartsExponent(mark[0]) && (|mark| == 2 ==> mark[1] == '+' || mark[1] == '-')
  {}

  // Behind the whole part.
  lemma AfterWhole(text: string, start: nat, n: NumberParts)
    requires NumberAt(text, start, n)
    ensures var w := start + (if n.minus then 1 else 0) + |n.whole|;
      && w <= |text| && (w < |text| ==> !IsDigit(text[w])) && (CharAt(text, w, '.') <==> n.fraction.Some?)
      && (n.fraction.None? && w < |text| ==> (StartsExponent(text[w]) <==> n.exponent.Some?))
  {
    hide NumberText, At, FractionText, ExponentText, IsDigit, StartsExponent, Digits;
    NumberSplit(text, start, n);
    PartsStart(n);
    NotADigit();
    var w := start + (if n.minus then 1 else 0) + |n.whole|;
    AtEnds(text, w, FractionText(n.fraction));
    if n.fraction.Some? {
      FirstOf(text, w, FractionText(n.fraction));
    } else if n.exponent.Some? {
      FirstOf(text, w, ExponentText(n.exponent));
    }
  }

  lemma AtEnds(text: string, cursor: nat, t: string)
    requires At(text, cursor, t)
    ensures cursor + |t| <= |text|
  {}

  lemma NotADigit()
    ensures !IsDigit('.') && !StartsExponent('.') && forall c :: StartsExponent(c) ==> !IsDigit(c) && c != '.'
  {}

  // What the parts begin with.
  lemma PartsStart(n: NumberParts)
    requires NumberOk(n)
    ensures if n.fraction.Some? then
        |FractionText(n.fraction)| == 1 + |n.fraction.value| && FractionText(n.fraction)[0] == '.'
      else FractionText(n.fraction) == ""
    ensures if n.exponent.Some? then
        ExponentText(n.exponent) != "" && StartsExponent(ExponentText(n.exponent)[0])
      else ExponentText(n.exponent) == ""
  {
    if n.exponent.Some? { MarkStarts(n.exponent.value.mark); }
  }

  // Behind the fraction, if there is one.
  lemma AfterFraction(text: string, start: nat, n: NumberParts)
    requires NumberAt(text, start, n) && n.fraction.Some?
    ensures var f := start + (if n.minus then 1 else 0) + |n.whole| + 1 + |n.fraction.value|;
      && f <= |text| && (f < |text| ==> !IsDigit(text[f]) && (StartsExponent(text[f]) <==> n.exponent.Some?))
      && (f == |text| ==> n.exponent.None?)
  {
    hide NumberText, At, FractionText, ExponentText, IsDigit, StartsExponent, Digits;
    NumberSplit(text, start, n);
    PartsStart(n);
    NotADigit();
    var f := start + (if n.minus then 1 else 0) + |n.whole| + |FractionText(n.fraction)|;
    AtEnds(text, f, ExponentText(n.exponent));
    if n.exponent.Some? {
      FirstOf(text, f, ExponentText(n.exponent));
    }
  }

  lemma WholeForced(text: string, start: nat, n: NumberParts)
    requires NumberAt(text, start, n)
    ensures var c := start + if n.minus then 1 else 0;
      && WholeFrom(text, start) == c && WholeTo(text, c) == c + |n.whole| && Slice(text, c, c + |n.whole|) == n.whole
      && (CharAt(text, c, '0') && c + |n.whole| < |text| ==> !IsDigit(text[c + |n.whole|]))
  {
    hide NumberText, FractionText, ExponentText;
    NumberSplit(text, start, n);
    AfterWhole(text, start, n);
    var c := start + if n.minus then 1 else 0;
    if n.minus { FirstOf(text, start, "-"); }
    FirstOf(text, c, n.whole);
    RunTo(text, c, n.whole);
  }

  lemma FractionDigits(n: NumberParts)
    requires NumberOk(n) && n.fraction.Some?
    ensures Digits(n.fraction.value) && |n.fraction.value| > 0
  {}

  lemma FractionForced(text: string, start: nat, n: NumberParts)
    requires NumberAt(text, start, n)
    ensures var w := start + (if n.minus then 1 else 0) + |n.whole|;
      var f := w + |FractionText(n.fraction)|;
      && FractionTo(text, w) == f && n.fraction == (if f > w then Some(Slice(text, w + 1, f)) else None)
      && (CharAt(text, w, '.') ==> f > w + 1)
  {
    hide NumberText, ExponentText, At, EndsHere, IsDigit, StartsExponent, Digits, DigitsTo, Slice;
    NumberSplit(text, start, n);
    AfterWhole(text, start, n);
    var w := start + (if n.minus then 1 else 0) + |n.whole|;
    if n.fraction.Some? {
      AfterFraction(text, start, n);
      FractionDigits(n);
      AtBoth(text, w, ".", n.fraction.value);
      RunTo(text, w + 1, n.fraction.value);
    }
  }

  // Behind whole part and fraction.
  lemma BeforeExponent(text: string, start: nat, n: NumberParts)
    requires NumberAt(text, start, n)
    ensures var f := start + (if n.minus then 1 else 0) + |n.whole| + |FractionText(n.fraction)|;
      && f <= |text| && At(text, f, ExponentText(n.exponent))
      && (n.exponent.None? && f < |text| ==> !StartsExponent(text[f]))
      && (n.exponent.Some? ==>
           var x, e := n.exponent.value, f + |ExponentText(n.exponent)|;
           x.mark in MARKS && Digits(x.digits) && (e < |text| ==> !IsDigit(text[e])))
  {
    hide NumberText, At, Digits, IsDigit, StartsExponent;
    NumberSplit(text, start, n);
    AfterWhole(text, start, n);
    if n.fraction.Some? { AfterFraction(text, start, n); }
  }

  lemma ExponentForced(text: string, start: nat, n: NumberParts)
    requires NumberAt(text, start, n)
    ensures var f := start + (if n.minus then 1 else 0) + |n.whole| + |FractionText(n.fraction)|;
      var s, e := MarkTo(text, f), ExponentTo(text, f);
      && e == f + |ExponentText(n.exponent)| && (s > f ==> e > s)
      && n.exponent == if s > f then Some(Exponent(Slice(text, f, s), Slice(text, s, e))) else None
  {
    hide NumberAt, At, Slice, DigitsTo, FractionText;
    BeforeExponent(text, start, n);
    var f := start + (if n.minus then 1 else 0) + |n.whole| + |FractionText(n.fraction)|;
    if n.exponent.Some? {
      NotShort(n.exponent.value);
      MarkForced(text, f, n.exponent.value);
    }
  }

  lemma NotShort(x: Exponent)
    requires x.mark in MARKS && Digits(x.digits)
    ensures x.mark != "" && x.digits != ""
  {
    MarkStarts(x.mark);
  }

  // A mark before a digit is taken whole.
  lemma MarkTaken(text: string, f: nat, mark: string)
    requires At(text, f, mark) && mark in MARKS && f + |mark| < |text| && IsDigit(text[f + |mark|])
    ensures MarkTo(text, f) == f + |mark| > f
  {
    MarkStarts(mark);
    hide StartsExponent;
    FirstOf(text, f, mark);
    if |mark| == 2 { assert text[f..f + 2][1] == text[f + 1]; }
  }

  lemma SliceIs(text: string, at: nat, t: string)
    requires At(text, at, t)
    ensures Slice(text, at, at + |t|) == t
  {}

  lemma MarkForced(text: string, f: nat, x: Exponent)
    requires At(text, f, x.mark + x.digits) && x.mark in MARKS && Digits(x.digits)
    requires var e := f + |x.mark + x.digits|; e < |text| ==> !IsDigit(text[e])
    ensures MarkTo(text, f) == f + |x.mark| && Slice(text, f, f + |x.mark|) == x.mark
    ensures var e := f + |x.mark + x.digits|; ExponentTo(text, f) == e && Slice(text, f + |x.mark|, e) == x.digits
  {
    hide At, MarkTo, DigitsTo, Slice, IsDigit;
    AtBoth(text, f, x.mark, x.digits);
    FirstOf(text, f + |x.mark|, x.digits);
    MarkTaken(text, f, x.mark);
    SliceIs(text, f, x.mark);
    RunTo(text, f + |x.mark|, x.digits);
  }

  lemma NumberForced(text: string, start: nat, n: NumberParts)
    requires NumberAt(text, start, n)
    ensures Fine(text, start) && n == PartsAt(text, start) && start + |NumberText(n)| == NumberTo(text, start)
  {
    hide NumberText, FractionText, ExponentText, WholeFrom, WholeTo, FractionTo, MarkTo, ExponentTo, Slice;
    NumberSplit(text, start, n);
    WholeForced(text, start, n);
    FractionForced(text, start, n);
    ExponentForced(text, start, n);
    AfterWhole(text, start, n);
    WholeNotEmpty(n);
  }

  lemma WholeNotEmpty(n: NumberParts)
    requires NumberOk(n)
    ensures n.whole != ""
  {}

  // ---- and what the reader finds is one ----

  lemma WholeFine(text: string, c: nat, w: nat)
    requires w == WholeTo(text, c) && c < w <= |text| && (CharAt(text, c, '0') && w < |text| ==> !IsDigit(text[w]))
    ensures var whole := Slice(text, c, w);
      Digits(whole) && (whole[0] == '0' ==> whole == "0") && At(text, c, whole) && |whole| == w - c
    ensures w < |text| ==> !IsDigit(text[w])
  {
    if !CharAt(text, c, '0') { RunIs(text, c); }
  }

  lemma FractionFine(text: string, w: nat, f: nat)
    requires w <= |text| && f == FractionTo(text, w) && (CharAt(text, w, '.') ==> f > w + 1)
    ensures var fraction := if f > w then Some(Slice(text, w + 1, f)) else None;
      && (fraction.Some? ==> Digits(fraction.value))
      && At(text, w, FractionText(fraction)) && |FractionText(fraction)| == f - w
      && w <= f <= |text|
    ensures f > w && f < |text| ==> !IsDigit(text[f])
    ensures f == w && w < |text| ==> text[w] != '.'
  {
    if f > w {
      RunIs(text, w + 1);
      assert text[w..w + 1] == ".";
      AtBoth(text, w, ".", Slice(text, w + 1, f));
    }
  }

  lemma ExponentFine(text: string, f: nat, s: nat, e: nat)
    requires f <= |text| && s == MarkTo(text, f) && e == ExponentTo(text, f) && (s > f ==> e > s)
    ensures var exponent := if s > f then Some(Exponent(Slice(text, f, s), Slice(text, s, e))) else None;
      && (exponent.Some? ==> exponent.value.mark in MARKS && Digits(exponent.value.digits))
      && At(text, f, ExponentText(exponent)) && |ExponentText(exponent)| == e - f && f <= e <= |text|
    ensures s >= f && (s == f ==> e == f) && (s > f && e < |text| ==> !IsDigit(text[e]))
    ensures s == f && f < |text| ==> !StartsExponent(text[f])
  {
    if s > f {
      RunIs(text, s);
      MarkKnown(text, f, s);
      AtBoth(text, f, Slice(text, f, s), Slice(text, s, e));
    }
  }

  lemma MarkKnown(text: string, f: nat, s: nat)
    requires f < s == MarkTo(text, f) <= |text|
    ensures Slice(text, f, s) in MARKS && At(text, f, Slice(text, f, s))
  {
    var mark := Slice(text, f, s);
    assert mark == if s == f + 1 then [text[f]] else [text[f], text[f + 1]];
    assert MARKS[0] in MARKS && MARKS[1] in MARKS && MARKS[2] in MARKS && MARKS[3] in MARKS && MARKS[4] in MARKS
      && MARKS[5] in MARKS;
    assert mark == MARKS[0] || mark == MARKS[1] || mark == MARKS[2] || mark == MARKS[3] || mark == MARKS[4]
      || mark == MARKS[5];
  }

  lemma NumberBuilt(text: string, start: nat)
    requires Fine(text, start)
    ensures NumberAt(text, start, PartsAt(text, start))
    ensures start + |NumberText(PartsAt(text, start))| == NumberTo(text, start) <= |text|
  {
    hide NumberText, Slice, At, Digits, IsDigit, StartsExponent, DigitsTo, FractionText, ExponentText, WholeTo,
      FractionTo, MarkTo, ExponentTo;
    var c := WholeFrom(text, start);
    var w := WholeTo(text, c);
    var f := FractionTo(text, w);
    WholeFine(text, c, w);
    FractionFine(text, w, f);
    ExponentFine(text, f, MarkTo(text, f), ExponentTo(text, f));
    MinusAt(text, start);
    NumberSplit(text, start, PartsAt(text, start));
    assert NumberOk(PartsAt(text, start));
  }

  lemma MinusAt(text: string, start: nat)
    ensures var c := WholeFrom(text, start); start <= |text| ==> At(text, start, if c > start then "-" else "")
  {}

  // The numbers of the grammar at a position: the one that is found there, if it is fine.
  lemma NumberExactly(text: string, start: nat, n: NumberParts)
    ensures NumberAt(text, start, n) <==> Fine(text, start) && n == PartsAt(text, start)
  {
    hide PartsAt, Fine, NumberAt;
    if NumberAt(text, start, n) { NumberForced(text, start, n); }
    if Fine(text, start) { NumberBuilt(text, start); }
  }

  // ---- the reader ----

  lemma FineIs(text: string, start: nat, c: nat, w: nat, f: nat)
    requires c == WholeFrom(text, start) && w == WholeTo(text, c) && f == FractionTo(text, w)
    ensures Fine(text, start) <==> PartsFine(text, c, w, f, MarkTo(text, f), ExponentTo(text, f))
    ensures NumberTo(text, start) == ExponentTo(text, f)
  {
    hide PartsFine, WholeFrom, WholeTo, FractionTo, MarkTo, ExponentTo;
  }

  lemma FirstDigits(text: string, c: nat)
    requires c < |text| && IsDigit(text[c])
    ensures DigitsTo(text, c) > c
  {}

  // The whole part.
  method ReadWhole(value: string, c: nat) returns (ok: bool, next: nat)
    requires c < |value|
    ensures c <= next <= |value|
    ensures var w := WholeTo(value, c);
      && (ok <==> c < w && (CharAt(value, c, '0') && w < |value| ==> !IsDigit(value[w]))) && (ok ==> next == w)
  {
    hide DigitsTo;
    next := c;
    if value[next] == '0' {
      next := next + 1;
      if next < |value| && IsDigit(value[next]) {
        return false, next;
      }
    } else {
      if value[next] < '1' || value[next] > '9' {
        NoDigits(value, next);
        return false, next;
      }
      FirstDigits(value, next);
      next := SkipDigits(value, next);
    }
    ok := true;
  }

  // The exponent, if there is one.
  method ReadExponent(value: string, f: nat) returns (ok: bool, next: nat)
    requires f <= |value|
    ensures f <= next <= |value|
    ensures var s, e := MarkTo(value, f), ExponentTo(value, f); (ok <==> s > f ==> e > s) && (ok ==> next == e)
  {
    hide DigitsTo;
    next := f;
    if next < |value| && (value[next] == 'e' || value[next] == 'E') {
      next := next + 1;
      if next < |value| && (value[next] == '+' || value[next] == '-') {
        next := next + 1;
      }
      var exponentStart := next;
      next := SkipDigits(value, exponentStart);
      if next == exponentStart {
        return false, next;
      }
    }
    ok := true;
  }

  method ReadNumber(value: string, start: nat) returns (ok: bool, next: nat)
    requires start <= |value|
    ensures start <= next <= |value| && (ok <==> Fine(value, start)) && (ok ==> next == NumberTo(value, start))
  {
    hide Fine, NumberTo, DigitsTo, MarkTo, ExponentTo, WholeTo;
    ghost var c := WholeFrom(value, start);
    ghost var w := WholeTo(value, c);
    ghost var f := FractionTo(value, w);
    FineIs(value, start, c, w, f);
    next := start;
    if next < |value| && value[next] == '-' {
      next := next + 1;
    }
    if next >= |value| {
      NothingWhole(value, next);
      return false, next;
    }
    ok, next := ReadWhole(value, next);
    if !ok {
      return;
    }
    if next < |value| && value[next] == '.' {
      var fractionStart := next + 1;
      next := SkipDigits(value, fractionStart);
      if next == fractionStart {
        return false, next;
      }
    }
    ok, next := ReadExponent(value, next);
  }

  lemma NothingWhole(text: string, c: nat)
    requires c >= |text|
    ensures WholeTo(text, c) == c
  {}

  lemma NoDigits(text: string, c: nat)
    requires c < |text| && !IsDigit(text[c])
    ensures DigitsTo(text, c) == c
  {}

  // A number is accepted exactly when there is one of the grammar, and is read to its end.
  method ParseJsonNumberSyntax(value: string, start: nat) returns (ok: bool, next: nat)
    requires start <= |value|
    ensures start <= next <= |value|
    ensures ok ==> NumberAt(value, start, PartsAt(value, start)) && next == start + |NumberText(PartsAt(value, start))|
    ensures forall n: NumberParts :: NumberAt(value, start, n) ==> ok && n == PartsAt(value, start)
  {
    hide NumberAt, NumberText, PartsAt, Fine, NumberTo;
    forall n: NumberParts | NumberAt(value, start, n) ensures Fine(value, start) && n == PartsAt(value, start) {
      NumberExactly(value, start, n);
    }
    ok, next := ReadNumber(value, start);
    if ok { NumberBuilt(value, start); }
  }
}
