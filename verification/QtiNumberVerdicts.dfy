/** Numerical and formula verdicts before and after a round trip. */
module QtiNumberVerdicts {
  import opened QtiModel
  import opened Text
  import opened QtiExporter
  import opened QtiParserClassic
  import opened QtiKeyTrip
  import opened QtiNumerical

  // The exporter writes bare texts only, so every margin, range and precision is lost: verdicts on all submissions
  // survive exactly when the texts said it all.

  // ---------- verdicts ----------

  /** gradeNumerical */
  ghost predicate NumericalIsCorrect(n: Numbers, precise: Precise, opts: seq<AnswerOption>, submitted: string) {
    exists o :: o in opts && o.weight > 0.0 && NumericalMatch(n, precise, o, submitted)
  }

  /** gradeFormula's view of an option: the formula editor keeps value and tolerance in fields of its own. */
  function Candidate(o: AnswerOption): AnswerOption {
    if TrimSpace(o.text) != "" || TrimSpace(o.num.exact) != "" then o
    else
      var tolerance := TrimSpace(o.num.tolerance);
      var margin :=
        if TrimSpace(o.num.margin) == "" && tolerance != "" && tolerance != "0" then tolerance else o.num.margin;
      o.(text := TrimSpace(o.num.answerValue), num := o.num.(margin := margin))
  }

  /** A candidate that says what to expect. */
  predicate IsKey(c: AnswerOption) {
    TrimSpace(c.text) != "" || TrimSpace(c.num.exact) != "" || c.num.numericalType != ""
  }

  ghost function Candidates(opts: seq<AnswerOption>): seq<AnswerOption> {
    if opts == [] then []
    else
      Candidates(Init(opts))
        + (if Last(opts).weight > 0.0 && IsKey(Candidate(Last(opts))) then [Candidate(Last(opts))] else [])
  }

  /** gradeFormula: without any key an instructor has to score the question. */
  ghost function FormulaVerdict(n: Numbers, precise: Precise, opts: seq<AnswerOption>, submitted: string): Verdict {
    if Candidates(opts) == [] then Manual else Graded(NumericalIsCorrect(n, precise, Candidates(opts), submitted))
  }

  /** What identifies an attempt; the seed of its variable values is made of it. */
  type Attempt = nat

  /**
   * The usable configuration of a formula item: that of its first entry, when it has a formula or precomputed answers.
   * expected is what Instance computes for an attempt, None when the formula cannot be evaluated.
   */
  datatype FormulaConfig = FormulaConfig(expected: Attempt -> Option<real>, margin: string, tolerance: string)

  /** FormulaConfig.margin: "" and "0" mean exact. */
  function ConfiguredMargin(c: FormulaConfig): string {
    var m := if TrimSpace(c.margin) != "" then TrimSpace(c.margin) else TrimSpace(c.tolerance);
    if m == "0" then "" else m
  }

  /** What an attempt is graded against. */
  function InstanceOption(n: Numbers, c: FormulaConfig, expected: real): AnswerOption {
    AnswerOption("", "", 100.0, num := NumberFields(
      numericalType := "exact_answer", exact := n.format(expected), margin := ConfiguredMargin(c)))
  }

  /** gradeAnswerForSubmission for formula items: the configuration first, and gradeFormula without one. */
  ghost function AttemptVerdict(
    n: Numbers, precise: Precise, config: Option<FormulaConfig>, opts: seq<AnswerOption>, attempt: Attempt,
    submitted: string): Verdict
  {
    match config
    case None => FormulaVerdict(n, precise, opts, submitted)
    case Some(c) =>
      match c.expected(attempt)
      case None => Manual
      case Some(x) => Graded(NumericalMatch(n, precise, InstanceOption(n, c, x), submitted))
  }

  // ---------- sets of meanings ----------

  /** What the options with a positive weight accept. */
  ghost function Meanings(n: Numbers, precise: Precise, opts: seq<AnswerOption>): set<Meaning> {
    (set o | o in opts && o.weight > 0.0 :: MeaningOf(n, precise, o)) - {Nothing}
  }

  /** What bare texts accept. */
  ghost function TextMeanings(n: Numbers, texts: seq<string>): set<Meaning> {
    (set t | t in texts :: ExactMeaning(n, TrimSpace(t), "")) - {Nothing}
  }

  ghost predicate AnyMeans(n: Numbers, precise: Precise, ms: set<Meaning>, submitted: string) {
    exists m :: m in ms && Means(n, precise, m, submitted)
  }

  lemma CorrectIsMeant(n: Numbers, precise: Precise, opts: seq<AnswerOption>, submitted: string)
    ensures NumericalIsCorrect(n, precise, opts, submitted)
       <==> AnyMeans(n, precise, Meanings(n, precise, opts), submitted)
  {
    hide NumericalMatch, MeaningOf;
    forall o { MatchIsMeaning(n, precise, o, submitted); }
  }

  /** A meaning can be met by typing something; an interval of one number by typing that number. */
  ghost predicate IsMet(n: Numbers, precise: Precise, m: Meaning) {
    match m
    case Nothing => true
    case Literal(text) => text != "" && TrimSpace(text) == text && ParseDecimal(n, text).None?
    case Interval(lo, hi) => lo <= hi && (lo == hi ==> Typed(n, lo))
    case Digits(approximate, precision) => exists s :: HasDigits(n, precise, approximate, precision, s)
  }

  lemma ExactMeaningIsMet(n: Numbers, precise: Precise, text: string, margin: string)
    requires TrimSpace(text) == text
    ensures IsMet(n, precise, ExactMeaning(n, text, margin))
  {
    if ParseDecimal(n, text).Some? {
      assert Typed(n, ParseDecimal(n, text).value);
    }
  }

  lemma MeaningIsMet(n: Numbers, precise: Precise, o: AnswerOption)
    ensures IsMet(n, precise, MeaningOf(n, precise, o))
  {
    hide ExactMeaning;
    ExpectedIsTrimmed(o);
    ExactMeaningIsMet(n, precise, Expected(o), TrimSpace(o.num.margin));
    if ParseDecimal(n, o.num.start).Some? {
      assert Typed(n, ParseDecimal(n, o.num.start).value);
    }
  }

  /** An answer by significant digits that accepts a number at all accepts more than any finite set holds. */
  ghost predicate DigitsAreBands(n: Numbers, precise: Precise) {
    forall a, p, s, xs: set<real> :: HasDigits(n, precise, a, p, s) ==> HasDigitsOutside(n, precise, a, p, xs)
  }

  ghost predicate HasDigitsOutside(
    n: Numbers, precise: Precise, approximate: string, precision: string, xs: set<real>)
  {
    exists s :: HasDigits(n, precise, approximate, precision, s) && IsNumber(n, s) && ParseDecimal(n, s).value !in xs
  }

  /** An interval holds a number outside any finite set. */
  lemma {:induction false} TypedOutside(n: Numbers, lo: real, hi: real, xs: set<real>) returns (x: real)
    requires Dense(n) && lo < hi
    ensures Typed(n, x) && lo < x < hi && x !in xs
    decreases |xs|
  {
    if y :| y in xs && lo < y < hi {
      x := TypedOutside(n, lo, y, xs - {y});
    } else {
      assert TypedBetween(n, lo, hi);
      x :| Typed(n, x) && lo < x < hi;
    }
  }

  ghost predicate IsPoint(m: Meaning) {
    m.Literal? || (m.Interval? && m.lo == m.hi)
  }

  ghost function Points(ms: set<Meaning>): set<real> {
    set m | m in ms && m.Interval? :: m.lo
  }

  /** A meaning that points and literals cover is one of them. */
  lemma CoveredIsAPoint(n: Numbers, precise: Precise, m: Meaning, b: set<Meaning>)
    requires Dense(n) && DigitsAreBands(n, precise) && IsMet(n, precise, m) && m != Nothing
    requires forall p :: p in b ==> IsPoint(p) && IsMet(n, precise, p)
    requires forall s :: Means(n, precise, m, s) ==> AnyMeans(n, precise, b, s)
    ensures m in b
  {
    hide ParseDecimal, TrimSpace, HasDigits;
    match m
    case Nothing =>
    case Literal(text) =>
      assert Means(n, precise, m, text);
      var p :| p in b && Means(n, precise, p, text);
      assert p.Interval? ==> ParseDecimal(n, text).None?;
    case Interval(lo, hi) =>
      var x := lo;
      if lo < hi {
        x := TypedOutside(n, lo, hi, Points(b));
      }
      var s :| ParseDecimal(n, s) == Some(x);
      assert Means(n, precise, m, s);
      OnlyPointsMeanNumbers(n, precise, b, s);
    case Digits(approximate, precision) =>
      var s :| HasDigits(n, precise, approximate, precision, s);
      assert HasDigitsOutside(n, precise, approximate, precision, Points(b));
      var t :| HasDigits(n, precise, approximate, precision, t) && IsNumber(n, t)
        && ParseDecimal(n, t).value !in Points(b);
      assert Means(n, precise, m, t);
      OnlyPointsMeanNumbers(n, precise, b, t);
  }

  /** Points and literals accept a number only as one of the points. */
  lemma OnlyPointsMeanNumbers(n: Numbers, precise: Precise, b: set<Meaning>, s: string)
    requires forall p :: p in b ==> IsPoint(p) && IsMet(n, precise, p)
    requires IsNumber(n, s) && AnyMeans(n, precise, b, s)
    ensures Interval(ParseDecimal(n, s).value, ParseDecimal(n, s).value) in b
  {
    hide TrimSpace;
    var p :| p in b && Means(n, precise, p, s);
    TrimmedDecimal(n, s);
  }

  /** Two sets of meanings, one of them of points and literals, accept the same submissions only if they are equal. */
  lemma PointsDecide(n: Numbers, precise: Precise, a: set<Meaning>, b: set<Meaning>)
    requires Dense(n) && DigitsAreBands(n, precise)
    requires forall m :: m in a ==> m != Nothing && IsMet(n, precise, m)
    requires forall m :: m in b ==> IsPoint(m) && IsMet(n, precise, m)
    ensures (forall s :: AnyMeans(n, precise, b, s) <==> AnyMeans(n, precise, a, s)) <==> a == b
  {
    hide Means, IsMet, IsPoint;
    if forall s :: AnyMeans(n, precise, b, s) <==> AnyMeans(n, precise, a, s) {
      forall m | m in a ensures m in b {
        forall s | Means(n, precise, m, s) ensures AnyMeans(n, precise, b, s) {
          assert AnyMeans(n, precise, a, s);
        }
        CoveredIsAPoint(n, precise, m, b);
      }
      forall m | m in b ensures m in a {
        var s := MetBy(n, precise, m);
        assert AnyMeans(n, precise, b, s);
        var m' :| m' in a && Means(n, precise, m', s);
        assert m' in b;
        PointsMeetInOne(n, precise, m, m', s);
      }
    }
  }

  lemma MetBy(n: Numbers, precise: Precise, m: Meaning) returns (s: string)
    requires IsPoint(m) && IsMet(n, precise, m)
    ensures Means(n, precise, m, s)
  {
    if m.Literal? {
      s := m.text;
    } else {
      s :| ParseDecimal(n, s) == Some(m.lo);
    }
  }

  /** Two points or literals that accept the same submission are the same. */
  lemma PointsMeetInOne(n: Numbers, precise: Precise, m: Meaning, m': Meaning, s: string)
    requires IsPoint(m) && IsPoint(m') && IsMet(n, precise, m) && IsMet(n, precise, m')
    requires Means(n, precise, m, s) && Means(n, precise, m', s)
    ensures m == m'
  {
    TrimmedDecimal(n, s);
  }

  // ---------- the trip of a key ----------

  lemma {:induction false} NonBlankMembers(texts: seq<string>, t: string)
    ensures t in NonBlank(texts) <==> t != "" && exists x :: x in texts && TrimSpace(x) == t
  {
    if texts != [] {
      NonBlankMembers(Init(texts), t);
      assert texts == Init(texts) + [Last(texts)];
    }
  }

  lemma BareMeaning(n: Numbers, precise: Precise, k: nat, t: string)
    requires t != "" && TrimSpace(t) == t
    ensures MeaningOf(n, precise, Numbered(k, ExactEntry(t))) == ExactMeaning(n, t, "")
    ensures IsPoint(ExactMeaning(n, t, ""))
  {
    assert TrimSpace("") == "";
  }

  /** What comes back accepts what the exported texts say. */
  lemma TripMeansItsTexts(n: Numbers, precise: Precise, texts: seq<string>)
    ensures Meanings(n, precise, NumericalTrip(NonBlank(texts))) == TextMeanings(n, texts)
    ensures forall m :: m in TextMeanings(n, texts) ==> IsPoint(m) && IsMet(n, precise, m)
  {
    hide MeaningOf, ExactMeaning, TrimSpace, IsPoint, IsMet;
    var kept := NonBlank(texts);
    var once := NumericalTrip(kept);
    forall i | 0 <= i < |once|
      ensures MeaningOf(n, precise, once[i]) == ExactMeaning(n, kept[i], "")
      ensures IsPoint(ExactMeaning(n, kept[i], "")) && IsMet(n, precise, ExactMeaning(n, kept[i], ""))
      ensures exists t :: t in texts && TrimSpace(t) == kept[i]
    {
      NonBlankMembers(texts, kept[i]);
      var t :| t in texts && TrimSpace(t) == kept[i];
      TrimSpaceTwice(t);
      BareMeaning(n, precise, i + 1, kept[i]);
      ExactMeaningIsMet(n, precise, kept[i], "");
    }
    forall m | m in TextMeanings(n, texts)
      ensures m in Meanings(n, precise, once) && IsPoint(m) && IsMet(n, precise, m)
    {
      var t :| t in texts && m == ExactMeaning(n, TrimSpace(t), "");
      EmptyMeansNothing(n);
      NonBlankMembers(texts, TrimSpace(t));
      assert TrimSpace(t) in kept;
      var i :| 0 <= i < |kept| && kept[i] == TrimSpace(t);
      assert once[i] in once;
    }
    forall m | m in Meanings(n, precise, once) ensures m in TextMeanings(n, texts) {
      var o :| o in once && m == MeaningOf(n, precise, o);
      var i :| 0 <= i < |once| && once[i] == o;
    }
  }

  lemma EmptyMeansNothing(n: Numbers)
    ensures ExactMeaning(n, "", "") == Nothing
  {
  }

  /** A key and the trip of some texts accept the same submissions exactly when they mean the same. */
  lemma KeyAgainstTexts(n: Numbers, precise: Precise, key: seq<AnswerOption>, texts: seq<string>)
    requires Dense(n) && DigitsAreBands(n, precise)
    ensures (forall s :: NumericalIsCorrect(n, precise, NumericalTrip(NonBlank(texts)), s)
               <==> NumericalIsCorrect(n, precise, key, s))
       <==> Meanings(n, precise, key) == TextMeanings(n, texts)
  {
    hide NumericalIsCorrect, AnyMeans, MeaningOf, ExactMeaning, IsPoint, IsMet, NumericalTrip, NonBlank;
    var once := NumericalTrip(NonBlank(texts));
    forall s
      ensures NumericalIsCorrect(n, precise, once, s) <==> AnyMeans(n, precise, Meanings(n, precise, once), s)
      ensures NumericalIsCorrect(n, precise, key, s) <==> AnyMeans(n, precise, Meanings(n, precise, key), s)
    {
      CorrectIsMeant(n, precise, once, s);
      CorrectIsMeant(n, precise, key, s);
    }
    TripMeansItsTexts(n, precise, texts);
    forall m | m in Meanings(n, precise, key) ensures m != Nothing && IsMet(n, precise, m) {
      var o :| o in key && m == MeaningOf(n, precise, o);
      MeaningIsMet(n, precise, o);
    }
    PointsDecide(n, precise, Meanings(n, precise, key), TextMeanings(n, texts));
  }

  // ---------- numerical questions ----------

  /**
   * Numerical verdicts on all submissions survive exactly when what the positively weighted options accept are the
   * numbers and literals of their own texts. exported is what the exporter decodes of the answers: the options, or
   * nothing when a margin or a text is a JSON number.
   */
  lemma NumericalVerdictsSurvive(
    n: Numbers, precise: Precise, opts: seq<AnswerOption>, exported: seq<AnswerOption>)
    requires Dense(n) && DigitsAreBands(n, precise) && (exported == opts || exported == [])
    ensures (forall s :: NumericalIsCorrect(n, precise, NumericalTrip(NonBlank(PositiveTexts(exported))), s)
               <==> NumericalIsCorrect(n, precise, opts, s))
       <==> Meanings(n, precise, opts) == TextMeanings(n, PositiveTexts(exported))
  {
    KeyAgainstTexts(n, precise, opts, PositiveTexts(exported));
  }

  /** Field by field: the option accepts what its text says, and nothing more. */
  ghost predicate TextSaysIt(n: Numbers, precise: Precise, o: AnswerOption) {
    if IsRange(o) then
      if IsNumber(n, o.num.start) && IsNumber(n, o.num.end)
      then ParseDecimal(n, o.num.start) == ParseDecimal(n, o.num.end) == ParseDecimal(n, o.text)
      else TrimSpace(o.text) == ""
    else if o.num.numericalType == "precision_answer" then
      TrimSpace(o.text) == "" && !exists s :: HasDigits(n, precise, o.num.approximate, o.num.precision, s)
    else if !IsNumber(n, Expected(o)) then TrimSpace(o.text) == Expected(o)
    else
      var x := ParseDecimal(n, Expected(o)).value;
      var margin := TrimSpace(o.num.margin);
      if margin == "" || Tolerance(n, margin, x) == Some(0.0) then ParseDecimal(n, o.text) == Some(x)
      else Tolerance(n, margin, x) == None && TrimSpace(o.text) == ""
  }

  lemma {:induction false} TextSaysItIff(n: Numbers, precise: Precise, o: AnswerOption)
    ensures TextSaysIt(n, precise, o) <==> MeaningOf(n, precise, o) == ExactMeaning(n, TrimSpace(o.text), "")
  {
    TrimmedDecimal(n, o.text);
    TextMeaning(n, o.text);
    if !IsRange(o) && o.num.numericalType != "precision_answer" {
      ExactSaysIt(n, o);
    }
    hide TrimSpace, ParseDecimal, ExactMeaning, Expected;
  }

  lemma {:induction false} TextMeaning(n: Numbers, text: string)
    ensures ExactMeaning(n, TrimSpace(text), "")
         == if TrimSpace(text) == "" then Nothing
            else if IsNumber(n, text) then Interval(ParseDecimal(n, text).value, ParseDecimal(n, text).value)
            else Literal(TrimSpace(text))
    ensures IsNumber(n, text) ==> TrimSpace(text) != ""
  {
    TrimmedDecimal(n, text);
  }

  lemma {:induction false} ExactSaysIt(n: Numbers, o: AnswerOption)
    requires !IsRange(o) && o.num.numericalType != "precision_answer"
    ensures var text, margin := Expected(o), TrimSpace(o.num.margin);
      (ExactMeaning(n, text, margin) == ExactMeaning(n, TrimSpace(o.text), ""))
      <==> if !IsNumber(n, text) then TrimSpace(o.text) == text
           else
             var x := ParseDecimal(n, text).value;
             if margin == "" || Tolerance(n, margin, x) == Some(0.0) then ParseDecimal(n, o.text) == Some(x)
             else Tolerance(n, margin, x) == None && TrimSpace(o.text) == ""
  {
    var text := Expected(o);
    TextMeaning(n, o.text);
    ExpectedIsTrimmed(o);
    NothingIsNoNumber(n);
    if IsNumber(n, text) {
      ToleranceIsNoNegative(n, TrimSpace(o.num.margin), ParseDecimal(n, text).value);
    }
    hide TrimSpace, ParseDecimal, Tolerance, Expected;
  }

  lemma NothingIsNoNumber(n: Numbers)
    ensures !IsNumber(n, "")
  {
    assert TrimSpace("") == "";
  }

  lemma ToleranceIsNoNegative(n: Numbers, margin: string, x: real)
    ensures Tolerance(n, margin, x).Some? ==> Tolerance(n, margin, x).value >= 0.0
  {
  }

  /** A single answer survives exactly when its margin, exact, start and end fields add nothing to its text. */
  lemma OneAnswerSurvives(n: Numbers, precise: Precise, o: AnswerOption)
    requires Dense(n) && DigitsAreBands(n, precise) && o.weight > 0.0
    ensures (forall s :: NumericalIsCorrect(n, precise, NumericalTrip(NonBlank(PositiveTexts([o]))), s)
               <==> NumericalIsCorrect(n, precise, [o], s))
       <==> TextSaysIt(n, precise, o)
  {
    hide MeaningOf, ExactMeaning, TextSaysIt, NumericalIsCorrect, TrimSpace;
    var opts, texts := [o], [o.text];
    var m, t := MeaningOf(n, precise, o), ExactMeaning(n, TrimSpace(o.text), "");
    NumericalVerdictsSurvive(n, precise, opts, opts);
    TextSaysItIff(n, precise, o);
    assert Init(opts) == [] && Last(opts) == o;
    assert PositiveTexts(opts) == texts;
    assert o in opts && o.text in texts;
    assert Meanings(n, precise, opts) == {m} - {Nothing};
    assert TextMeanings(n, texts) == {t} - {Nothing};
    assert m in {m} - {Nothing} || m == Nothing;
    assert t in {t} - {Nothing} || t == Nothing;
  }

  lemma TrimmedAsIs(s: string)
    requires s == "" || (!IsSpace(s[0]) && !IsSpace(s[|s| - 1]))
    ensures TrimSpace(s) == s
  {
  }

  lemma ExportedTexts(o: AnswerOption)
    requires o.weight > 0.0 && TrimSpace(o.text) == o.text
    ensures NonBlank(PositiveTexts([o])) == if o.text == "" then [] else [o.text]
  {
    hide TrimSpace;
    var opts, texts := [o], [o.text];
    assert Init(opts) == [] && Last(opts) == o;
    assert PositiveTexts(opts) == texts;
    assert Init(texts) == [] && Last(texts) == o.text;
  }

  /** The editor's 42 with a margin of 0.5: 42.3 was right and is wrong after the trip. */
  lemma MarginIsLost(n: Numbers, precise: Precise) returns (o: AnswerOption)
    requires ParseDecimal(n, "42") == Some(42.0) && ParseDecimal(n, "0.5") == Some(0.5)
    requires ParseDecimal(n, "42.3") == Some(42.3)
    ensures o == AnswerOption("n", "42", 100.0, num := NumberFields(margin := "0.5"))
    ensures NumericalTrip(NonBlank(PositiveTexts([o]))) == [Numbered(1, ExactEntry("42"))]
    ensures NumericalIsCorrect(n, precise, [o], "42.3")
    ensures !NumericalIsCorrect(n, precise, NumericalTrip(NonBlank(PositiveTexts([o]))), "42.3")
  {
    hide TrimSpace, ParseDecimal, Numbered;
    o := AnswerOption("n", "42", 100.0, num := NumberFields(margin := "0.5"));
    TrimmedAsIs("");
    TrimmedAsIs("42");
    TrimmedAsIs("0.5");
    ExportedTexts(o);
    assert MeaningOf(n, precise, o) == Interval(41.5, 42.5);
    MatchIsMeaning(n, precise, o, "42.3");
    BareMeaning(n, precise, 1, "42");
    MatchIsMeaning(n, precise, Numbered(1, ExactEntry("42")), "42.3");
  }

  // ---------- formula questions ----------

  lemma NumberedIsItsCandidate(k: nat, t: string)
    requires TrimSpace(t) != ""
    ensures var o := Numbered(k, ExactEntry(t)); o.weight > 0.0 && Candidate(o) == o && IsKey(o)
  {
  }

  lemma NoCandidates()
    ensures Candidates([]) == []
  {
  }

  lemma OneCandidateMore(opts: seq<AnswerOption>, o: AnswerOption)
    requires o.weight > 0.0 && IsKey(Candidate(o))
    ensures Candidates(opts + [o]) == Candidates(opts) + [Candidate(o)]
  {
    hide Candidate, IsKey;
    var more := opts + [o];
    assert Init(more) == opts && Last(more) == o;
  }

  lemma {:induction false} CandidatesOfTrip(texts: seq<string>)
    requires forall t :: t in texts ==> TrimSpace(t) != ""
    ensures Candidates(NumericalTrip(texts)) == NumericalTrip(texts)
  {
    hide TrimSpace, Numbered, Candidate, IsKey, Candidates;
    if texts == [] {
      NoCandidates();
    } else {
      var before, o := NumericalTrip(Init(texts)), Numbered(|texts|, ExactEntry(Last(texts)));
      CandidatesOfTrip(Init(texts));
      assert Last(texts) in texts;
      NumberedIsItsCandidate(|texts|, Last(texts));
      OneCandidateMore(before, o);
      assert NumericalTrip(texts) == before + [o];
    }
  }

  /**
   * Without a configuration: verdicts on all submissions, including who gives them, survive exactly when what the
   * expected values accept is what the texts say, and there is a text exactly when there is anything to expect.
   */
  lemma KeyVerdictsSurvive(
    n: Numbers, precise: Precise, opts: seq<AnswerOption>, exported: seq<AnswerOption>)
    requires Dense(n) && DigitsAreBands(n, precise) && (exported == opts || exported == [])
    ensures (forall s :: FormulaVerdict(n, precise, NumericalTrip(NonBlank(PositiveTexts(exported))), s)
               == FormulaVerdict(n, precise, opts, s))
       <==> && (Candidates(opts) == [] <==> NonBlank(PositiveTexts(exported)) == [])
            && Meanings(n, precise, Candidates(opts)) == TextMeanings(n, PositiveTexts(exported))
  {
    hide NumericalIsCorrect, Meanings, TextMeanings;
    var texts := NonBlank(PositiveTexts(exported));
    var once, key := NumericalTrip(texts), Candidates(opts);
    forall t | t in texts ensures TrimSpace(t) != "" {
      NonBlankMembers(PositiveTexts(exported), t);
      var x :| x in PositiveTexts(exported) && TrimSpace(x) == t;
      TrimSpaceTwice(x);
    }
    CandidatesOfTrip(texts);
    KeyAgainstTexts(n, precise, key, PositiveTexts(exported));
    assert FormulaVerdict(n, precise, once, "") == FormulaVerdict(n, precise, opts, "")
      ==> (key == [] <==> texts == []);
    if key == [] && texts == [] {
      NothingMeansNothing(n, precise, key, PositiveTexts(exported));
    } else if key != [] && texts != [] {
      forall s
        ensures FormulaVerdict(n, precise, once, s) == FormulaVerdict(n, precise, opts, s)
           <==> (NumericalIsCorrect(n, precise, once, s) <==> NumericalIsCorrect(n, precise, key, s))
      {
      }
    }
  }

  lemma NothingMeansNothing(n: Numbers, precise: Precise, key: seq<AnswerOption>, texts: seq<string>)
    requires key == [] && NonBlank(texts) == []
    ensures Meanings(n, precise, key) == TextMeanings(n, texts) == {}
  {
    TripMeansItsTexts(n, precise, texts);
  }

  /** What an attempt's answer accepts. */
  ghost function InstanceMeaning(n: Numbers, c: FormulaConfig, expected: real): Meaning {
    ExactMeaning(n, TrimSpace(n.format(expected)), ConfiguredMargin(c))
  }

  /** Every attempt expects the one thing the texts say; without a text no attempt can be evaluated. */
  ghost predicate TextsSayEveryAnswer(n: Numbers, c: FormulaConfig, texts: seq<string>) {
    forall a: Attempt ::
      if NonBlank(texts) == [] then c.expected(a).None?
      else c.expected(a).Some? && TextMeanings(n, texts) == {InstanceMeaning(n, c, c.expected(a).value)}
  }

  /** What of a formula item survives; its configuration does not. */
  ghost predicate FormulaIsKept(
    n: Numbers, precise: Precise, config: Option<FormulaConfig>, opts: seq<AnswerOption>, texts: seq<string>)
  {
    match config
    case None =>
      && (Candidates(opts) == [] <==> NonBlank(texts) == [])
      && Meanings(n, precise, Candidates(opts)) == TextMeanings(n, texts)
    case Some(c) => TextsSayEveryAnswer(n, c, texts)
  }

  lemma {:induction false} MarginIsTrimmed(c: FormulaConfig)
    ensures TrimSpace(ConfiguredMargin(c)) == ConfiguredMargin(c)
  {
    TrimSpaceTwice(c.margin);
    TrimSpaceTwice(c.tolerance);
    TrimmedAsIs("");
  }

  lemma {:induction false} InstanceMeans(n: Numbers, precise: Precise, c: FormulaConfig, x: real)
    ensures MeaningOf(n, precise, InstanceOption(n, c, x)) == InstanceMeaning(n, c, x)
  {
    TrimmedAsIs("");
    MarginIsTrimmed(c);
    hide TrimSpace, ConfiguredMargin;
  }

  /** Texts that are not blank say something. */
  lemma {:induction false} TextsMeanSomething(n: Numbers, texts: seq<string>)
    ensures TextMeanings(n, texts) == {} <==> NonBlank(texts) == []
  {
    hide TrimSpace, ExactMeaning;
    forall t | t in texts ensures ExactMeaning(n, TrimSpace(t), "") == Nothing <==> TrimSpace(t) == "" {
      TextMeaning(n, t);
    }
    if NonBlank(texts) != [] {
      NonBlankMembers(texts, NonBlank(texts)[0]);
      var t :| t in texts && TrimSpace(t) == NonBlank(texts)[0] != "";
      assert ExactMeaning(n, TrimSpace(t), "") in TextMeanings(n, texts);
    }
    if m :| m in TextMeanings(n, texts) {
      var t :| t in texts && m == ExactMeaning(n, TrimSpace(t), "");
      NonBlankMembers(texts, TrimSpace(t));
    }
  }

  /** One attempt against what comes back. */
  lemma {:induction false} AttemptAgainstTexts(
    n: Numbers, precise: Precise, c: FormulaConfig, opts: seq<AnswerOption>, texts: seq<string>, a: Attempt)
    requires Dense(n) && DigitsAreBands(n, precise)
    ensures (forall s :: AttemptVerdict(n, precise, None, NumericalTrip(NonBlank(texts)), a, s)
               == AttemptVerdict(n, precise, Some(c), opts, a, s))
       <==> if NonBlank(texts) == [] then c.expected(a).None?
            else c.expected(a).Some? && TextMeanings(n, texts) == {InstanceMeaning(n, c, c.expected(a).value)}
  {
    hide AttemptVerdict, NumericalTrip, TextMeanings, InstanceMeaning, NonBlank, NumericalIsCorrect, InstanceOption;
    var once := NumericalTrip(NonBlank(texts));
    forall s
      ensures AttemptVerdict(n, precise, None, once, a, s)
           == if NonBlank(texts) == [] then Manual else Graded(NumericalIsCorrect(n, precise, once, s))
      ensures c.expected(a).None? ==> AttemptVerdict(n, precise, Some(c), opts, a, s) == Manual
      ensures c.expected(a).Some? ==>
        AttemptVerdict(n, precise, Some(c), opts, a, s)
        == Graded(NumericalIsCorrect(n, precise, [InstanceOption(n, c, c.expected(a).value)], s))
    {
      VerdictAfter(n, precise, texts, a, s);
      VerdictBefore(n, precise, c, opts, a, s);
    }
    assert AttemptVerdict(n, precise, None, once, a, "") == AttemptVerdict(n, precise, Some(c), opts, a, "")
      ==> (NonBlank(texts) == [] <==> c.expected(a).None?);
    if NonBlank(texts) != [] && c.expected(a).Some? {
      InstanceAgainstTexts(n, precise, c, c.expected(a).value, texts);
    }
  }

  lemma {:induction false} VerdictAfter(n: Numbers, precise: Precise, texts: seq<string>, a: Attempt, s: string)
    ensures var once := NumericalTrip(NonBlank(texts));
      AttemptVerdict(n, precise, None, once, a, s)
        == if NonBlank(texts) == [] then Manual else Graded(NumericalIsCorrect(n, precise, once, s))
  {
    hide NonBlank, NumericalIsCorrect, Candidates;
    TripIsItsKey(texts);
  }

  lemma {:induction false} VerdictBefore(
    n: Numbers, precise: Precise, c: FormulaConfig, opts: seq<AnswerOption>, a: Attempt, s: string)
    ensures c.expected(a).None? ==> AttemptVerdict(n, precise, Some(c), opts, a, s) == Manual
    ensures c.expected(a).Some? ==>
      AttemptVerdict(n, precise, Some(c), opts, a, s)
      == Graded(NumericalIsCorrect(n, precise, [InstanceOption(n, c, c.expected(a).value)], s))
  {
    hide NumericalMatch, InstanceOption;
    if c.expected(a).Some? {
      var o := InstanceOption(n, c, c.expected(a).value);
      InstanceCounts(n, c, c.expected(a).value);
      assert o in [o];
    }
  }

  lemma {:induction false} InstanceAgainstTexts(
    n: Numbers, precise: Precise, c: FormulaConfig, x: real, texts: seq<string>)
    requires Dense(n) && DigitsAreBands(n, precise) && NonBlank(texts) != []
    ensures (forall s :: NumericalIsCorrect(n, precise, NumericalTrip(NonBlank(texts)), s)
               <==> NumericalIsCorrect(n, precise, [InstanceOption(n, c, x)], s))
       <==> TextMeanings(n, texts) == {InstanceMeaning(n, c, x)}
  {
    hide NumericalIsCorrect, MeaningOf, TextMeanings, InstanceMeaning, InstanceOption, NonBlank, NumericalTrip;
    var o, m := InstanceOption(n, c, x), InstanceMeaning(n, c, x);
    InstanceMeans(n, precise, c, x);
    InstanceCounts(n, c, x);
    TextsMeanSomething(n, texts);
    NothingIsNotSaid(n, texts);
    KeyAgainstTexts(n, precise, [o], texts);
    assert o in [o];
    assert Meanings(n, precise, [o]) == {m} - {Nothing};
    assert m == Nothing ==> {m} - {Nothing} == {};
    assert m != Nothing ==> {m} - {Nothing} == {m};
  }

  lemma InstanceCounts(n: Numbers, c: FormulaConfig, x: real)
    ensures InstanceOption(n, c, x).weight > 0.0
  {
  }

  lemma NothingIsNotSaid(n: Numbers, texts: seq<string>)
    ensures Nothing !in TextMeanings(n, texts)
  {
  }

  /** The texts that come back are the candidates of what comes back. */
  lemma {:induction false} TripIsItsKey(texts: seq<string>)
    ensures Candidates(NumericalTrip(NonBlank(texts))) == NumericalTrip(NonBlank(texts))
  {
    hide TrimSpace, Candidates;
    forall t | t in NonBlank(texts) ensures TrimSpace(t) != "" {
      NonBlankMembers(texts, t);
      var x :| x in texts && TrimSpace(x) == t;
      TrimSpaceTwice(x);
    }
    CandidatesOfTrip(NonBlank(texts));
  }

  /**
   * Formula verdicts of all attempts on all submissions, including who gives them, survive exactly when, without a
   * configuration, the expected values accept what the texts say and there is a text exactly when there is anything to
   * expect; and with one, every attempt expects exactly what the texts say, or there is no text and no attempt can be
   * evaluated. exported is what the exporter decodes of the answers.
   */
  lemma FormulaVerdictsSurvive(
    n: Numbers, precise: Precise, config: Option<FormulaConfig>, opts: seq<AnswerOption>, exported: seq<AnswerOption>)
    requires Dense(n) && DigitsAreBands(n, precise) && (exported == opts || exported == [])
    ensures (forall a: Attempt, s ::
              AttemptVerdict(n, precise, None, NumericalTrip(NonBlank(PositiveTexts(exported))), a, s)
                == AttemptVerdict(n, precise, config, opts, a, s))
       <==> FormulaIsKept(n, precise, config, opts, PositiveTexts(exported))
  {
    var texts := PositiveTexts(exported);
    var once := NumericalTrip(NonBlank(texts));
    hide FormulaVerdict, NumericalMatch, PositiveTexts, NonBlank, TextMeanings, Meanings, InstanceMeaning;
    match config
    case None =>
      KeyVerdictsSurvive(n, precise, opts, exported);
      forall a: Attempt, s
        ensures AttemptVerdict(n, precise, None, once, a, s) == FormulaVerdict(n, precise, once, s)
        ensures AttemptVerdict(n, precise, config, opts, a, s) == FormulaVerdict(n, precise, opts, s)
      {
      }
      if forall a: Attempt, s ::
           AttemptVerdict(n, precise, None, once, a, s) == AttemptVerdict(n, precise, config, opts, a, s)
      {
        forall s ensures FormulaVerdict(n, precise, once, s) == FormulaVerdict(n, precise, opts, s) {
          assert AttemptVerdict(n, precise, None, once, 0, s) == AttemptVerdict(n, precise, config, opts, 0, s);
        }
      }
    case Some(c) =>
      hide AttemptVerdict;
      forall a: Attempt { AttemptAgainstTexts(n, precise, c, opts, texts, a); }
  }

  /** The ordinary formula item, which has no text: graded in every attempt, and scored by hand after the trip. */
  lemma FormulaIsLost(
    n: Numbers, precise: Precise, c: FormulaConfig, opts: seq<AnswerOption>, a: Attempt, submitted: string)
    requires c.expected(a).Some? && NonBlank(PositiveTexts(opts)) == []
    ensures AttemptVerdict(n, precise, Some(c), opts, a, submitted).Graded?
    ensures AttemptVerdict(n, precise, None, NumericalTrip(NonBlank(PositiveTexts(opts))), a, submitted) == Manual
  {
    NoCandidates();
  }

  /** x * 2 with a tolerance of 0.5 */
  function Doubling(x: Attempt -> real): FormulaConfig {
    FormulaConfig((a: Attempt) => Some(x(a) * 2.0), "", "0.5")
  }

  /** Whatever value of x an attempt shows. */
  lemma DoubledVariableIsLost(n: Numbers, precise: Precise, x: Attempt -> real, a: Attempt, submitted: string)
    ensures var c := Doubling(x);
      var opts := [AnswerOption("f", "", 100.0, num := NumberFields(tolerance := "0.5"))];
      && AttemptVerdict(n, precise, Some(c), opts, a, submitted).Graded?
      && AttemptVerdict(n, precise, None, NumericalTrip(NonBlank(PositiveTexts(opts))), a, submitted) == Manual
  {
    hide TrimSpace, NumericalMatch;
    var o := AnswerOption("f", "", 100.0, num := NumberFields(tolerance := "0.5"));
    TrimmedAsIs("");
    ExportedTexts(o);
    FormulaIsLost(n, precise, Doubling(x), [o], a, submitted);
  }

  /** With the text 42 beside it: 6 is right where x is 3, and only 42 is after the trip. */
  lemma TextReplacesFormula(n: Numbers, precise: Precise, x: Attempt -> real, a: Attempt)
    requires x(a) == 3.0 && ParseDecimal(n, n.format(6.0)) == Some(6.0)
    requires ParseDecimal(n, "6") == Some(6.0) && ParseDecimal(n, "42") == Some(42.0)
    requires ParseDecimal(n, "0.5") == Some(0.5)
    ensures var c := Doubling(x);
      var opts := [AnswerOption("f", "42", 100.0, num := NumberFields(tolerance := "0.5"))];
      && AttemptVerdict(n, precise, Some(c), opts, a, "6") == Graded(true)
      && AttemptVerdict(n, precise, None, NumericalTrip(NonBlank(PositiveTexts(opts))), a, "6") == Graded(false)
  {
    hide TrimSpace, ParseDecimal, NumericalMatch, Numbered, NumericalTrip, PositiveTexts, NonBlank, InstanceOption;
    hide FormulaVerdict, Tolerance;
    var o := AnswerOption("f", "42", 100.0, num := NumberFields(tolerance := "0.5"));
    TrimmedAsIs("42");
    ExportedTexts(o);
    DoublesThree(n, precise, x);
    VerdictAfter(n, precise, PositiveTexts([o]), a, "6");
    SixIsNotFortyTwo(n, precise);
  }

  lemma {:induction false} DoublesThree(n: Numbers, precise: Precise, x: Attempt -> real)
    requires ParseDecimal(n, n.format(6.0)) == Some(6.0)
    requires ParseDecimal(n, "6") == Some(6.0) && ParseDecimal(n, "0.5") == Some(0.5)
    ensures NumericalMatch(n, precise, InstanceOption(n, Doubling(x), 6.0), "6")
  {
    hide TrimSpace, ParseDecimal, NumericalMatch, ExactMeaning;
    var c := Doubling(x);
    TrimmedAsIs("");
    TrimmedAsIs("0.5");
    assert ConfiguredMargin(c) == "0.5";
    InstanceMeans(n, precise, c, 6.0);
    HalfAroundSix(n);
    hide InstanceOption;
    MatchIsMeaning(n, precise, InstanceOption(n, c, 6.0), "6");
  }

  lemma {:induction false} SixIsNotFortyTwo(n: Numbers, precise: Precise)
    requires ParseDecimal(n, "6") == Some(6.0) && ParseDecimal(n, "42") == Some(42.0)
    ensures !NumericalIsCorrect(n, precise, NumericalTrip(["42"]), "6")
  {
    hide TrimSpace, ParseDecimal, NumericalMatch, Numbered;
    assert NumericalTrip(["42"]) == [Numbered(1, ExactEntry("42"))];
    TrimmedAsIs("42");
    BareMeaning(n, precise, 1, "42");
    MatchIsMeaning(n, precise, Numbered(1, ExactEntry("42")), "6");
  }

  lemma HalfAroundSix(n: Numbers)
    requires ParseDecimal(n, n.format(6.0)) == Some(6.0) && ParseDecimal(n, "0.5") == Some(0.5)
    ensures ExactMeaning(n, TrimSpace(n.format(6.0)), "0.5") == Interval(5.5, 6.5)
  {
    TrimmedDecimal(n, n.format(6.0));
    NothingIsNoNumber(n);
    hide TrimSpace, ParseDecimal;
  }

  lemma ExpectedValueIsKey(o: AnswerOption)
    requires TrimSpace(o.text) == "" && TrimSpace(o.num.exact) == "" && TrimSpace(o.num.answerValue) != ""
    ensures IsKey(Candidate(o))
  {
    TrimSpaceTwice(o.num.answerValue);
  }

  /** The formula editor's fixed value is not exported: a question that was graded then has to be scored by hand. */
  lemma AnswerValueIsLost(n: Numbers, precise: Precise, o: AnswerOption, attempt: Attempt, submitted: string)
    requires o.weight > 0.0 && o.text == "" && TrimSpace(o.num.exact) == "" && TrimSpace(o.num.answerValue) != ""
    ensures AttemptVerdict(n, precise, None, [o], attempt, submitted).Graded?
    ensures AttemptVerdict(n, precise, None, NumericalTrip(NonBlank(PositiveTexts([o]))), attempt, submitted) == Manual
  {
    hide TrimSpace, NumericalIsCorrect, Candidate, IsKey;
    TrimmedAsIs("");
    ExportedTexts(o);
    ExpectedValueIsKey(o);
    OneCandidateMore([], o);
    assert [] + [o] == [o];
  }
}
