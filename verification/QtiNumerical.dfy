/** Numerical keys: how they are graded, and what importing Canvas's conditions means. */
module QtiNumerical {
  import opened QtiModel
  import opened Text
  import opened QtiParserClassic

  // ---------- grading one option ----------

  function ParseDecimal(n: Numbers, s: string): Option<real> {
    if TrimSpace(s) == "" then None else n.decimal(TrimSpace(s))
  }

  predicate IsNumber(n: Numbers, s: string) {
    ParseDecimal(n, s).Some?
  }

  lemma TrimmedDecimal(n: Numbers, s: string)
    ensures ParseDecimal(n, TrimSpace(s)) == ParseDecimal(n, s)
  {
    TrimSpaceTwice(s);
  }

  /** precisionMatch on a submission, an approximate value and a number of digits */
  type Precise = (string, string, string) -> bool

  function Abs(x: real): real {
    if x < 0.0 then -x else x
  }

  /** parseMarginRat */
  function Tolerance(n: Numbers, margin: string, expected: real): Option<real> {
    if margin != "" && margin[|margin| - 1] == '%' then
      match ParseDecimal(n, margin[..|margin| - 1])
      case None => None
      case Some(percent) => Some(Abs(Abs(expected) * percent / 100.0))
    else
      match ParseDecimal(n, margin)
      case None => None
      case Some(t) => Some(Abs(t))
  }

  predicate IsRange(o: AnswerOption) {
    || o.num.numericalType == "range_answer"
    || (o.num.numericalType == "" && o.text == "" && o.num.exact == "" && o.num.start != "" && o.num.end != "")
  }

  /** The value of an exact answer: Canvas's field, or else the editor's. */
  function Expected(o: AnswerOption): string {
    if TrimSpace(o.num.exact) != "" then TrimSpace(o.num.exact) else TrimSpace(o.text)
  }

  predicate ExactMatch(n: Numbers, text: string, margin: string, submitted: string) {
    var user, expected := ParseDecimal(n, submitted), ParseDecimal(n, text);
    text != "" &&
    if user.None? || expected.None? then expected.None? && text == TrimSpace(submitted)
    else if margin == "" then user == expected
    else
      var t := Tolerance(n, margin, expected.value);
      t.Some? && Abs(user.value - expected.value) <= t.value
  }

  predicate HasDigits(n: Numbers, precise: Precise, approximate: string, precision: string, s: string) {
    IsNumber(n, s) && precise(TrimSpace(s), approximate, precision)
  }

  /** numericalMatch */
  predicate NumericalMatch(n: Numbers, precise: Precise, o: AnswerOption, submitted: string) {
    TrimSpace(submitted) != "" &&
    if IsRange(o) then
      var user, lo, hi := ParseDecimal(n, submitted), ParseDecimal(n, o.num.start), ParseDecimal(n, o.num.end);
      && user.Some? && lo.Some? && hi.Some?
      && if lo.value > hi.value then hi.value <= user.value <= lo.value else lo.value <= user.value <= hi.value
    else if o.num.numericalType == "precision_answer" then
      HasDigits(n, precise, o.num.approximate, o.num.precision, submitted)
    else ExactMatch(n, Expected(o), TrimSpace(o.num.margin), submitted)
  }

  // ---------- what an option accepts ----------

  datatype Meaning =
    | Nothing
    | Literal(text: string)
    | Interval(lo: real, hi: real)
    | Digits(approximate: string, precision: string)

  function ExactMeaning(n: Numbers, text: string, margin: string): Meaning {
    if text == "" then Nothing
    else
      match ParseDecimal(n, text)
      case None => Literal(text)
      case Some(x) =>
        if margin == "" then Interval(x, x)
        else
          match Tolerance(n, margin, x)
          case None => Nothing
          case Some(t) => Interval(x - t, x + t)
  }

  ghost function MeaningOf(n: Numbers, precise: Precise, o: AnswerOption): Meaning {
    if IsRange(o) then
      var lo, hi := ParseDecimal(n, o.num.start), ParseDecimal(n, o.num.end);
      if lo.None? || hi.None? then Nothing
      else if lo.value > hi.value then Interval(hi.value, lo.value) else Interval(lo.value, hi.value)
    else if o.num.numericalType == "precision_answer" then
      if exists s :: HasDigits(n, precise, o.num.approximate, o.num.precision, s)
      then Digits(o.num.approximate, o.num.precision) else Nothing
    else ExactMeaning(n, Expected(o), TrimSpace(o.num.margin))
  }

  /** The submission is among what m stands for. */
  predicate Means(n: Numbers, precise: Precise, m: Meaning, submitted: string) {
    match m
    case Nothing => false
    case Literal(text) => TrimSpace(submitted) == text
    case Interval(lo, hi) => IsNumber(n, submitted) && lo <= ParseDecimal(n, submitted).value <= hi
    case Digits(approximate, precision) => HasDigits(n, precise, approximate, precision, submitted)
  }

  lemma ExpectedIsTrimmed(o: AnswerOption)
    ensures TrimSpace(Expected(o)) == Expected(o)
  {
    TrimSpaceTwice(o.num.exact);
    TrimSpaceTwice(o.text);
  }

  lemma ExactMatchIsMeaning(n: Numbers, precise: Precise, text: string, margin: string, submitted: string)
    requires TrimSpace(text) == text && TrimSpace(submitted) != ""
    ensures ExactMatch(n, text, margin, submitted) <==> Means(n, precise, ExactMeaning(n, text, margin), submitted)
  {
    TrimmedDecimal(n, submitted);
  }

  lemma MatchIsMeaning(n: Numbers, precise: Precise, o: AnswerOption, submitted: string)
    ensures NumericalMatch(n, precise, o, submitted) <==> Means(n, precise, MeaningOf(n, precise, o), submitted)
  {
    hide ExactMatch, ExactMeaning;
    ExpectedIsTrimmed(o);
    if TrimSpace(submitted) != "" {
      ExactMatchIsMeaning(n, precise, Expected(o), TrimSpace(o.num.margin), submitted);
    } else {
      ExactMeaningIsNotEmpty(n, precise, Expected(o), TrimSpace(o.num.margin), submitted);
    }
  }

  lemma ExactMeaningIsNotEmpty(n: Numbers, precise: Precise, text: string, margin: string, submitted: string)
    requires TrimSpace(submitted) == ""
    ensures !Means(n, precise, ExactMeaning(n, text, margin), submitted)
  {
  }

  // ---------- enough numbers can be written ----------

  ghost predicate Typed(n: Numbers, x: real) {
    exists s :: ParseDecimal(n, s) == Some(x)
  }

  ghost predicate TypedBetween(n: Numbers, lo: real, hi: real) {
    exists x :: Typed(n, x) && lo < x < hi
  }

  /** Between any two numbers there is one that can be typed. */
  ghost predicate Dense(n: Numbers) {
    forall lo, hi :: lo < hi ==> TypedBetween(n, lo, hi)
  }

  /** formatNum writes decimals without a percent sign. */
  ghost predicate Writes(n: Numbers) {
    forall x :: IsNumber(n, n.format(x)) && '%' !in n.format(x)
  }

  /** The number formatNum writes for x. */
  function Written(n: Numbers, x: real): real
    requires Writes(n)
  {
    ParseDecimal(n, n.format(x)).value
  }

  // ---------- what a numerical condition itself says ----------

  predicate Within(n: Numbers, b: Bounds, x: real) {
    && (forall i :: 0 <= i < |b.gte| && IsNumber(n, b.gte[i]) ==> x >= ParseDecimal(n, b.gte[i]).value)
    && (forall i :: 0 <= i < |b.gt| && IsNumber(n, b.gt[i]) ==> x > ParseDecimal(n, b.gt[i]).value)
    && (forall i :: 0 <= i < |b.lte| && IsNumber(n, b.lte[i]) ==> x <= ParseDecimal(n, b.lte[i]).value)
  }

  /** The number x equals the value, if there is one, or lies in the band. */
  predicate EqualsOrWithin(n: Numbers, value: Option<string>, band: Bounds, x: real) {
    (value.Some? && ParseDecimal(n, value.value) == Some(x)) || Within(n, band, x)
  }

  /** An <or> of one value and one band: <or><varequal>value</varequal><and>band</and></or> */
  function OrCondition(value: string, band: Bounds): ConditionVar {
    ConditionVar([], [], [VarEqual("response1", value)], band := Some(band))
  }

  /** A bare band, or one wrapped in <and>. */
  function RangeCondition(band: Bounds, wrap: bool): ConditionVar {
    if wrap then ConditionVar([], wrapped := band) else ConditionVar([], own := band)
  }

  /** Both readers take the text for a number. */
  predicate IsBound(n: Numbers, s: string) {
    IsNumber(n, s) && Float(n, s).Some?
  }

  lemma OneFloat(n: Numbers, s: string)
    requires IsBound(n, s)
    ensures FirstFloat(n, [s]) == Float(n, s)
    ensures [s] + [] == [s] && [] + [s] == [s]
  {
  }

  lemma OneBound(n: Numbers, band: Bounds, lo: string, hi: string, x: real)
    requires IsBound(n, lo) && IsBound(n, hi)
    ensures band == Bounds([lo], [], [hi]) ==>
      (Within(n, band, x) <==> ParseDecimal(n, lo).value <= x <= ParseDecimal(n, hi).value)
    ensures band == Bounds([], [lo], [hi]) ==>
      (Within(n, band, x) <==> ParseDecimal(n, lo).value < x <= ParseDecimal(n, hi).value)
  {
    if band == Bounds([lo], [], [hi]) {
      assert band.gte[0] == lo && band.lte[0] == hi;
    }
    if band == Bounds([], [lo], [hi]) {
      assert band.gt[0] == lo && band.lte[0] == hi;
    }
  }

  /** The numbers a graded entry accepts are the value and those in the band. */
  ghost predicate AcceptsExactly(
    n: Numbers, precise: Precise, entry: AnswerOption, value: Option<string>, band: Bounds)
  {
    forall s :: IsNumber(n, s) ==>
      (NumericalMatch(n, precise, entry, s) <==> EqualsOrWithin(n, value, band, ParseDecimal(n, s).value))
  }

  /** For an entry that accepts an interval that is a question about numbers alone. */
  lemma IntervalAccepts(
    n: Numbers, precise: Precise, entry: AnswerOption, lo: real, hi: real, value: Option<string>, band: Bounds)
    requires MeaningOf(n, precise, entry) == Interval(lo, hi)
    ensures AcceptsExactly(n, precise, entry, value, band)
       <==> forall x :: Typed(n, x) ==> (lo <= x <= hi <==> EqualsOrWithin(n, value, band, x))
  {
    hide NumericalMatch, ParseDecimal, MeaningOf, EqualsOrWithin;
    forall s | IsNumber(n, s)
      ensures NumericalMatch(n, precise, entry, s) <==> lo <= ParseDecimal(n, s).value <= hi
    {
      MatchIsMeaning(n, precise, entry, s);
    }
    if AcceptsExactly(n, precise, entry, value, band) {
      forall x | Typed(n, x) ensures lo <= x <= hi <==> EqualsOrWithin(n, value, band, x) {
        var s :| ParseDecimal(n, s) == Some(x);
        assert IsNumber(n, s);
      }
    } else {
      var s :| IsNumber(n, s) &&
        !(NumericalMatch(n, precise, entry, s) <==> EqualsOrWithin(n, value, band, ParseDecimal(n, s).value));
      assert Typed(n, ParseDecimal(n, s).value);
    }
  }

  // ---------- exact answers with a margin ----------

  /** The margin an imported band is graded with: half its width in float64, as written and read back. */
  function GradedMargin(n: Numbers, lo: string, hi: string): real
    requires Writes(n) && IsBound(n, lo) && IsBound(n, hi)
  {
    Abs(Written(n, HalfWidth(n, Float(n, lo).value, Float(n, hi).value)))
  }

  lemma {:induction false} MarginMeaning(n: Numbers, precise: Precise, value: string, lo: string, hi: string)
    requires Writes(n) && IsNumber(n, value) && IsBound(n, lo) && IsBound(n, hi)
    ensures var entry, v, m :=
        NumericalEntry(n, OrCondition(value, Bounds([lo], [], [hi]))), ParseDecimal(n, value).value,
        GradedMargin(n, lo, hi);
      entry.Some? && m >= 0.0 && MeaningOf(n, precise, entry.value) == Interval(v - m, v + m)
  {
    var m := n.format(HalfWidth(n, Float(n, lo).value, Float(n, hi).value));
    MarginEntry(n, value, lo, hi);
    TrimmedDecimal(n, value);
    TrimSpaceTwice(value);
    hide NumericalEntry, OrCondition, HalfWidth, TrimSpace, Float;
    ExactEntryMeaning(n, precise, TrimSpace(value), m);
  }

  lemma {:induction false} MarginEntry(n: Numbers, value: string, lo: string, hi: string)
    requires IsNumber(n, value) && IsBound(n, lo) && IsBound(n, hi)
    ensures NumericalEntry(n, OrCondition(value, Bounds([lo], [], [hi])))
         == Some(ExactEntry(TrimSpace(value), n.format(HalfWidth(n, Float(n, lo).value, Float(n, hi).value))))
  {
    hide HalfWidth, Float, TrimSpace;
    OneFloat(n, lo);
    OneFloat(n, hi);
  }

  /** A trimmed number with a margin that is a plain number. */
  lemma {:induction false} ExactEntryMeaning(n: Numbers, precise: Precise, text: string, margin: string)
    requires IsNumber(n, text) && TrimSpace(text) == text && IsNumber(n, margin) && '%' !in margin
    ensures var v, t := ParseDecimal(n, text).value, Abs(ParseDecimal(n, margin).value);
      MeaningOf(n, precise, ExactEntry(text, margin)) == Interval(v - t, v + t)
  {
    TrimmedDecimal(n, margin);
    TrimmedLast(margin);
    hide TrimSpace;
  }

  /** Trimming a text without a percent sign leaves none at its end. */
  lemma TrimmedLast(s: string)
    requires '%' !in s && TrimSpace(s) != ""
    ensures TrimSpace(s)[|TrimSpace(s)| - 1] != '%'
  {
    TrimLeftIsSuffix(s);
    var t := TrimLeft(s);
    assert TrimSpace(s)[|TrimSpace(s)| - 1] == t[|TrimSpace(s)| - 1];
    assert t[|TrimSpace(s)| - 1] in s;
  }

  lemma {:induction false} TrimLeftIsSuffix(s: string)
    ensures forall c :: c in TrimLeft(s) ==> c in s
  {
    if s != [] && IsSpace(s[0]) {
      TrimLeftIsSuffix(s[1..]);
    }
  }

  /** The band is imported exactly: the value is its middle, and half its width is written as it is. */
  predicate MarginIsExact(n: Numbers, value: string, lo: string, hi: string)
    requires Writes(n) && IsNumber(n, value) && IsBound(n, lo) && IsBound(n, hi)
  {
    var v, l, h := ParseDecimal(n, value).value, ParseDecimal(n, lo).value, ParseDecimal(n, hi).value;
    var m := GradedMargin(n, lo, hi);
    if l <= h then 2.0 * v == l + h && 2.0 * m == h - l else m == 0.0
  }

  /** The imported entry against its condition, as a question about numbers. */
  lemma {:induction false} MarginAsNumbers(
    n: Numbers, precise: Precise, value: string, lo: string, hi: string, entry: AnswerOption, v: real, m: real)
    requires IsNumber(n, value) && IsBound(n, lo) && IsBound(n, hi)
    requires MeaningOf(n, precise, entry) == Interval(v - m, v + m) && v == ParseDecimal(n, value).value
    ensures var l, h := ParseDecimal(n, lo).value, ParseDecimal(n, hi).value;
      AcceptsExactly(n, precise, entry, Some(value), Bounds([lo], [], [hi]))
      <==> (forall x :: Typed(n, x) ==> (v - m <= x <= v + m <==> x == v || l <= x <= h))
  {
    hide MeaningOf, EqualsOrWithin, AcceptsExactly, Float, ParseDecimal, Typed;
    IntervalAccepts(n, precise, entry, v - m, v + m, Some(value), Bounds([lo], [], [hi]));
    forall x { ValueOrBand(n, value, lo, hi, x); }
  }

  /**
   * The import replaces the band by half its width around the value: the same numbers are accepted exactly when the
   * value is the middle of the band and float64 arithmetic and printing give half its width exactly.
   */
  lemma MarginSurvives(n: Numbers, precise: Precise, value: string, lo: string, hi: string)
    requires Dense(n) && Writes(n) && IsNumber(n, value) && IsBound(n, lo) && IsBound(n, hi)
    ensures var band := Bounds([lo], [], [hi]);
      var entry := NumericalEntry(n, OrCondition(value, band));
      entry.Some? &&
      (AcceptsExactly(n, precise, entry.value, Some(value), band)
       <==> MarginIsExact(n, value, lo, hi))
  {
    hide NumericalMatch, ParseDecimal, NumericalEntry, GradedMargin, MeaningOf, Writes, OrCondition;
    hide EqualsOrWithin, AcceptsExactly, Float, TrimSpace, Dense;
    MarginMeaning(n, precise, value, lo, hi);
    var entry := NumericalEntry(n, OrCondition(value, Bounds([lo], [], [hi]))).value;
    var v, l, h := ParseDecimal(n, value).value, ParseDecimal(n, lo).value, ParseDecimal(n, hi).value;
    assert Typed(n, v) && Typed(n, l) && Typed(n, h);
    hide Typed;
    MarginAsNumbers(n, precise, value, lo, hi, entry, v, GradedMargin(n, lo, hi));
    ClosedAroundValue(n, v, l, h, GradedMargin(n, lo, hi));
  }

  lemma ValueOrBand(n: Numbers, value: string, lo: string, hi: string, x: real)
    requires IsNumber(n, value) && IsBound(n, lo) && IsBound(n, hi)
    ensures EqualsOrWithin(n, Some(value), Bounds([lo], [], [hi]), x)
       <==> x == ParseDecimal(n, value).value || ParseDecimal(n, lo).value <= x <= ParseDecimal(n, hi).value
  {
    hide ParseDecimal;
    OneBound(n, Bounds([lo], [], [hi]), lo, hi, x);
  }

  /** A number with a closed interval is an interval around it only as its middle, or alone. */
  lemma ClosedAroundValue(n: Numbers, v: real, l: real, h: real, m: real)
    requires Dense(n) && Typed(n, v) && Typed(n, l) && Typed(n, h) && m >= 0.0
    ensures (forall x :: Typed(n, x) ==> (v - m <= x <= v + m <==> x == v || l <= x <= h))
       <==> if l <= h then 2.0 * v == l + h && 2.0 * m == h - l else m == 0.0
  {
    if forall x :: Typed(n, x) ==> (v - m <= x <= v + m <==> x == v || l <= x <= h) {
      assert l <= h ==> v - m <= l && h <= v + m;
      assert l <= h && m > 0.0 && v - m < l ==> TypedBetween(n, v - m, if l < v then l else v);
      assert l <= h && m > 0.0 && h < v + m ==> TypedBetween(n, if h > v then h else v, v + m);
      assert l > h && m > 0.0 ==> TypedBetween(n, v - m, v);
    }
  }

  /** Bounds, width and half of it are float64 numbers that print exactly, as whole numbers are. */
  predicate WidthIsExact(n: Numbers, lo: string, hi: string)
    requires Writes(n) && IsBound(n, lo) && IsBound(n, hi)
  {
    var l, h := ParseDecimal(n, lo).value, ParseDecimal(n, hi).value;
    && Float(n, lo) == Some(l) && Float(n, hi) == Some(h)
    && n.round(h - l) == h - l && n.round((h - l) / 2.0) == (h - l) / 2.0
    && Written(n, (h - l) / 2.0) == (h - l) / 2.0
  }

  /** Where float64 is exact, only the value has to be the middle. */
  lemma ExactMarginSurvives(n: Numbers, precise: Precise, value: string, lo: string, hi: string)
    requires Dense(n) && Writes(n) && IsNumber(n, value) && IsBound(n, lo) && IsBound(n, hi)
    requires WidthIsExact(n, lo, hi) && ParseDecimal(n, lo).value <= ParseDecimal(n, hi).value
    ensures var band := Bounds([lo], [], [hi]);
      var entry := NumericalEntry(n, OrCondition(value, band));
      entry.Some? &&
      (AcceptsExactly(n, precise, entry.value, Some(value), band)
       <==> 2.0 * ParseDecimal(n, value).value == ParseDecimal(n, lo).value + ParseDecimal(n, hi).value)
  {
    MarginSurvives(n, precise, value, lo, hi);
    ExactWidthIsGraded(n, lo, hi);
    hide AcceptsExactly, GradedMargin, NumericalEntry, OrCondition, ParseDecimal, Float, WidthIsExact;
  }

  lemma ExactWidthIsGraded(n: Numbers, lo: string, hi: string)
    requires Writes(n) && IsBound(n, lo) && IsBound(n, hi)
    requires WidthIsExact(n, lo, hi) && ParseDecimal(n, lo).value <= ParseDecimal(n, hi).value
    ensures 2.0 * GradedMargin(n, lo, hi) == ParseDecimal(n, hi).value - ParseDecimal(n, lo).value
  {
    hide ParseDecimal, Float;
  }

  /** The float64 difference of the numbers nearest to 0.3 and 0.1. */
  const WIDTH := 7205759403792793.0 / 36028797018963968.0

  /**
   * Canvas's 0.2 with a margin of 0.1, with the float64 values of its bounds: the margin is written as
   * 0.09999999999999999, and neither end of the band is accepted any more.
   */
  lemma DecimalMarginIsLost(n: Numbers, precise: Precise)
    requires Writes(n)
    requires ParseDecimal(n, "0.1") == Some(0.1) && ParseDecimal(n, "0.2") == Some(0.2)
    requires ParseDecimal(n, "0.3") == Some(0.3)
    requires Float(n, "0.1") == Some(3602879701896397.0 / 36028797018963968.0)
    requires Float(n, "0.3") == Some(5404319552844595.0 / 18014398509481984.0)
    requires n.round(WIDTH) == WIDTH && n.round(WIDTH / 2.0) == WIDTH / 2.0
    requires ParseDecimal(n, n.format(WIDTH / 2.0)) == Some(0.09999999999999999)
    ensures var band := Bounds(["0.1"], [], ["0.3"]);
      var entry := NumericalEntry(n, OrCondition("0.2", band));
      && entry.Some?
      && EqualsOrWithin(n, Some("0.2"), band, 0.1) && !NumericalMatch(n, precise, entry.value, "0.1")
      && EqualsOrWithin(n, Some("0.2"), band, 0.3) && !NumericalMatch(n, precise, entry.value, "0.3")
  {
    MarginMeaning(n, precise, "0.2", "0.1", "0.3");
    var band := Bounds(["0.1"], [], ["0.3"]);
    var entry := NumericalEntry(n, OrCondition("0.2", band)).value;
    assert GradedMargin(n, "0.1", "0.3") == 0.09999999999999999;
    OneBound(n, band, "0.1", "0.3", 0.1);
    OneBound(n, band, "0.1", "0.3", 0.3);
    MatchIsMeaning(n, precise, entry, "0.1");
    MatchIsMeaning(n, precise, entry, "0.3");
  }

  /** A value that is not the middle of its band: 0 to 3 around 1 is imported as 1 with a margin of 1.5. */
  lemma OffCentreMarginIsLost(n: Numbers, precise: Precise)
    requires Writes(n) && IsBound(n, "0") && IsBound(n, "3") && WidthIsExact(n, "0", "3")
    requires ParseDecimal(n, "0") == Some(0.0) && ParseDecimal(n, "1") == Some(1.0) && ParseDecimal(n, "3") == Some(3.0)
    ensures var band := Bounds(["0"], [], ["3"]);
      var entry := NumericalEntry(n, OrCondition("1", band));
      entry.Some? && EqualsOrWithin(n, Some("1"), band, 3.0) && !NumericalMatch(n, precise, entry.value, "3")
  {
    MarginMeaning(n, precise, "1", "0", "3");
    var entry := NumericalEntry(n, OrCondition("1", Bounds(["0"], [], ["3"]))).value;
    ExactWidthIsGraded(n, "0", "3");
    OneBound(n, Bounds(["0"], [], ["3"]), "0", "3", 3.0);
    hide ParseDecimal, NumericalEntry, GradedMargin, NumericalMatch, WidthIsExact, Within;
    MatchIsMeaning(n, precise, entry, "3");
  }

  // ---------- precision bands and ranges ----------

  lemma RangeMeaning(n: Numbers, precise: Precise, text: string, a: real, b: real)
    requires Writes(n)
    ensures var l, h := Written(n, a), Written(n, b);
      MeaningOf(n, precise, RangeEntry(n, text, a, b)) == if l > h then Interval(h, l) else Interval(l, h)
  {
  }

  /** The band is imported exactly: what is written accepts the excluded lower end, so that must be the value. */
  predicate PrecisionIsExact(n: Numbers, value: string, lo: string, hi: string)
    requires Writes(n) && IsNumber(n, value) && IsBound(n, lo) && IsBound(n, hi)
  {
    var v, l, h := ParseDecimal(n, value).value, ParseDecimal(n, lo).value, ParseDecimal(n, hi).value;
    var a, b := Written(n, Float(n, lo).value), Written(n, Float(n, hi).value);
    if l < h then v == l && (if a < b then a == l && b == h else b == l && a == h) else v == a == b
  }

  /**
   * A precision band excludes its lower end and the imported range does not: the same numbers are accepted exactly
   * when the value is that lower end and both ends are written as they are.
   */
  lemma PrecisionSurvives(n: Numbers, precise: Precise, value: string, lo: string, hi: string)
    requires Dense(n) && Writes(n) && IsNumber(n, value) && IsBound(n, lo) && IsBound(n, hi)
    ensures var band := Bounds([], [lo], [hi]);
      var entry := NumericalEntry(n, OrCondition(value, band));
      entry.Some? &&
      (AcceptsExactly(n, precise, entry.value, Some(value), band)
       <==> PrecisionIsExact(n, value, lo, hi))
  {
    OneFloat(n, lo);
    OneFloat(n, hi);
    var band := Bounds([], [lo], [hi]);
    var entry := RangeEntry(n, TrimSpace(value), Float(n, lo).value, Float(n, hi).value);
    assert NumericalEntry(n, OrCondition(value, band)) == Some(entry);
    var v, l, h := ParseDecimal(n, value).value, ParseDecimal(n, lo).value, ParseDecimal(n, hi).value;
    var a, b := Written(n, Float(n, lo).value), Written(n, Float(n, hi).value);
    var c, d := if a > b then b else a, if a > b then a else b;
    RangeMeaning(n, precise, TrimSpace(value), Float(n, lo).value, Float(n, hi).value);
    assert Typed(n, v) && Typed(n, l) && Typed(n, h) && Typed(n, c) && Typed(n, d);
    hide NumericalMatch, ParseDecimal, Within, NumericalEntry, RangeEntry, MeaningOf, Writes;
    IntervalAccepts(n, precise, entry, c, d, Some(value), band);
    forall x ensures EqualsOrWithin(n, Some(value), band, x) <==> x == v || l < x <= h {
      OneBound(n, band, lo, hi, x);
    }
    HalfOpenIsClosed(n, v, l, h, c, d);
  }

  /** A number with a half-open interval makes a closed one only as its missing end. */
  lemma HalfOpenIsClosed(n: Numbers, v: real, l: real, h: real, c: real, d: real)
    requires Dense(n) && c <= d && forall x :: x in {v, l, h, c, d} ==> Typed(n, x)
    ensures (forall x :: Typed(n, x) ==> (c <= x <= d <==> x == v || l < x <= h))
       <==> if l < h then v == l == c && d == h else v == c == d
  {
    assert Typed(n, v) && Typed(n, l) && Typed(n, h) && Typed(n, c) && Typed(n, d);
    if forall x :: Typed(n, x) ==> (c <= x <= d <==> x == v || l < x <= h) {
      if l < h {
        assert c > l ==> TypedBetween(n, l, if c < h then c else h);
        assert v < l ==> TypedBetween(n, v, l);
      } else {
        assert v > c ==> TypedBetween(n, c, v);
        assert v < d ==> TypedBetween(n, v, d);
      }
    }
  }

  /** Canvas's 1.5 to two digits, above 1.45 up to 1.55: the import also accepts 1.45. */
  lemma ExcludedEndIsAccepted(n: Numbers, precise: Precise)
    requires Writes(n) && IsBound(n, "1.45") && IsBound(n, "1.55")
    requires ParseDecimal(n, "1.45") == Some(1.45) && ParseDecimal(n, "1.5") == Some(1.5)
    requires ParseDecimal(n, "1.55") == Some(1.55)
    requires Written(n, Float(n, "1.45").value) == 1.45 && Written(n, Float(n, "1.55").value) == 1.55
    ensures var band := Bounds([], ["1.45"], ["1.55"]);
      var entry := NumericalEntry(n, OrCondition("1.5", band));
      entry.Some? && !EqualsOrWithin(n, Some("1.5"), band, 1.45) && NumericalMatch(n, precise, entry.value, "1.45")
  {
    var band := Bounds([], ["1.45"], ["1.55"]);
    OneFloat(n, "1.45");
    OneFloat(n, "1.55");
    OneBound(n, band, "1.45", "1.55", 1.45);
    var entry := RangeEntry(n, TrimSpace("1.5"), Float(n, "1.45").value, Float(n, "1.55").value);
    assert NumericalEntry(n, OrCondition("1.5", band)) == Some(entry);
    RangeMeaning(n, precise, TrimSpace("1.5"), Float(n, "1.45").value, Float(n, "1.55").value);
    hide ParseDecimal, NumericalEntry, NumericalMatch, Within, RangeEntry, TrimSpace;
    MatchIsMeaning(n, precise, entry, "1.45");
  }

  /** A range survives exactly when its bounds are in order and written as they are; <and> makes no difference. */
  lemma RangeSurvives(n: Numbers, precise: Precise, lo: string, hi: string, wrap: bool)
    requires Writes(n) && IsBound(n, lo) && IsBound(n, hi)
    ensures var band := Bounds([lo], [], [hi]);
      var entry := NumericalEntry(n, RangeCondition(band, wrap));
      var l, h := ParseDecimal(n, lo).value, ParseDecimal(n, hi).value;
      var a, b := Written(n, Float(n, lo).value), Written(n, Float(n, hi).value);
      entry.Some? &&
      (AcceptsExactly(n, precise, entry.value, None, band)
       <==> l <= h && (if a <= b then a == l && b == h else b == l && a == h))
  {
    OneFloat(n, lo);
    OneFloat(n, hi);
    var band := Bounds([lo], [], [hi]);
    var f, g := Float(n, lo).value, Float(n, hi).value;
    var entry := RangeEntry(n, RangeText(n, f, g), f, g);
    assert NumericalEntry(n, RangeCondition(band, wrap)) == Some(entry);
    RangeMeaning(n, precise, RangeText(n, f, g), f, g);
    var l, h, a, b := ParseDecimal(n, lo).value, ParseDecimal(n, hi).value, Written(n, f), Written(n, g);
    assert Typed(n, l) && Typed(n, h) && Typed(n, a) && Typed(n, b);
    hide NumericalMatch, ParseDecimal, Within, NumericalEntry, RangeEntry, MeaningOf, Writes;
    IntervalAccepts(n, precise, entry, if a > b then b else a, if a > b then a else b, None, band);
    forall x ensures EqualsOrWithin(n, None, band, x) <==> l <= x <= h {
      OneBound(n, band, lo, hi, x);
    }
  }
}
