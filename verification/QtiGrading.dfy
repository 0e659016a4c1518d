/** Verdicts before and after a round trip: choice, typed text, blanks, dropdowns. */
module QtiGrading {
  import opened QtiModel
  import opened Text
  import opened QtiExporter
  import opened QtiParserClassic
  import opened QtiKeyTrip
  import opened QtiBlanksTrip
  import opened QtiDropdownTrip

  // ---------- choices ----------

  ghost predicate ChoiceIsCorrect(opts: seq<AnswerOption>, submitted: string) {
    exists o :: o in opts && o.id == TrimSpace(submitted) && o.weight > 0.0
  }

  ghost function CorrectSet(opts: seq<AnswerOption>): set<string> {
    set o | o in opts && o.weight > 0.0 :: o.id
  }

  /** gradeMultipleAnswer: exactly the correct options are selected, and there is one. */
  ghost predicate SelectionIsCorrect(opts: seq<AnswerOption>, selected: seq<string>) {
    CorrectSet(opts) != {} && (set id | id in selected) == CorrectSet(opts)
  }

  /** Single and multiple choice verdicts survive whatever is submitted or selected. */
  lemma ChoiceVerdictsSurvive(opts: seq<AnswerOption>, submitted: string, selected: seq<string>)
    ensures ChoiceIsCorrect(ChoiceTrip(opts), submitted) <==> ChoiceIsCorrect(opts, submitted)
    ensures SelectionIsCorrect(ChoiceTrip(opts), selected) <==> SelectionIsCorrect(opts, selected)
  {
    var once := ChoiceTrip(opts);
    forall id ensures Keyed(once, id) <==> Keyed(opts, id) {
      if Keyed(opts, id) {
        var i :| 0 <= i < |opts| && opts[i].weight > 0.0 && opts[i].id == id;
        assert once[i] in once;
      }
    }
    assert Keyed(once, TrimSpace(submitted)) <==> Keyed(opts, TrimSpace(submitted));
    forall id ensures id in CorrectSet(once) <==> id in CorrectSet(opts) {
      assert id in CorrectSet(once) <==> Keyed(once, id);
      assert id in CorrectSet(opts) <==> Keyed(opts, id);
    }
    assert CorrectSet(once) == CorrectSet(opts);
  }

  // ---------- typed text ----------

  /** TrimSpace(ToLower(s)) for the library's lower casing of one code point. */
  function Norm(lower: char -> char, s: string): string {
    TrimSpace(seq(|s|, i requires 0 <= i < |s| => lower(s[i])))
  }

  /** gradeShortAnswer: a weight of exactly 0 counts as full credit. */
  ghost predicate ShortIsCorrect(lower: char -> char, opts: seq<AnswerOption>, submitted: string) {
    Norm(lower, submitted) != "" &&
    exists o :: o in opts && o.weight >= 0.0 && Norm(lower, o.text) == Norm(lower, submitted)
  }

  /** gradeFillInTheBlank: only positive weights count. */
  ghost predicate BlankIsCorrect(lower: char -> char, opts: seq<AnswerOption>, submitted: string) {
    Norm(lower, submitted) != "" &&
    exists o :: o in opts && o.weight > 0.0 && Norm(lower, o.text) == Norm(lower, submitted)
  }

  lemma {:induction false} PositiveTextMembers(opts: seq<AnswerOption>, t: string)
    ensures t in PositiveTexts(opts) <==> exists o :: o in opts && o.weight > 0.0 && o.text == t
  {
    if opts != [] {
      PositiveTextMembers(Init(opts), t);
      assert opts == Init(opts) + [Last(opts)];
    }
  }

  /** The short answer question that comes back accepts the texts of positive weight. */
  lemma ShortTripAccepts(lower: char -> char, opts: seq<AnswerOption>, submitted: string)
    ensures ShortIsCorrect(lower, ShortTrip(PositiveTexts(opts)), submitted) <==> BlankIsCorrect(lower, opts, submitted)
  {
    var texts := PositiveTexts(opts);
    var once := ShortTrip(texts);
    if ShortIsCorrect(lower, once, submitted) {
      var i :| 0 <= i < |once| && Norm(lower, once[i].text) == Norm(lower, submitted);
      PositiveTextMembers(opts, texts[i]);
    }
    if BlankIsCorrect(lower, opts, submitted) {
      var o :| o in opts && o.weight > 0.0 && Norm(lower, o.text) == Norm(lower, submitted);
      PositiveTextMembers(opts, o.text);
      var i :| 0 <= i < |texts| && texts[i] == o.text;
      assert once[i] in once;
    }
  }

  /** What the exporter decodes of an answers column: its options, or nothing when a text is a JSON number. */
  ghost predicate Decodes(opts: seq<AnswerOption>, exported: seq<AnswerOption>) {
    exported == opts || exported == []
  }

  /** Each accepted answer, of weight 0 where that counts, is exported, up to case, with a positive weight. */
  ghost predicate AcceptedIsExported(
    lower: char -> char, opts: seq<AnswerOption>, exported: seq<AnswerOption>, zeroCounts: bool)
  {
    forall o :: o in opts && (o.weight > 0.0 || (zeroCounts && o.weight == 0.0)) && Norm(lower, o.text) != "" ==>
      exists p :: p in exported && p.weight > 0.0 && Norm(lower, p.text) == Norm(lower, o.text)
  }

  /**
   * A fill-in-the-blank question becomes a short answer question: verdicts on all submissions survive exactly when
   * every accepted answer is exported, that is unless the exporter cannot decode a key that accepts anything.
   */
  lemma BlankVerdictsSurvive(lower: char -> char, opts: seq<AnswerOption>, exported: seq<AnswerOption>)
    requires Decodes(opts, exported)
    ensures (forall s ::
              ShortIsCorrect(lower, ShortTrip(PositiveTexts(exported)), s) <==> BlankIsCorrect(lower, opts, s))
       <==> AcceptedIsExported(lower, opts, exported, false)
  {
    forall s
      ensures ShortIsCorrect(lower, ShortTrip(PositiveTexts(exported)), s) <==> BlankIsCorrect(lower, exported, s)
    {
      ShortTripAccepts(lower, exported, s);
    }
    hide Norm;
    if forall s :: BlankIsCorrect(lower, exported, s) <==> BlankIsCorrect(lower, opts, s) {
      forall o | o in opts && o.weight > 0.0 && Norm(lower, o.text) != ""
        ensures exists p :: p in exported && p.weight > 0.0 && Norm(lower, p.text) == Norm(lower, o.text)
      {
        assert BlankIsCorrect(lower, opts, o.text);
        assert BlankIsCorrect(lower, exported, o.text);
      }
    }
  }

  /**
   * The trip promises equivalence for short answers but drops those of weight 0, which grading accepts: verdicts on all
   * submissions survive exactly when every accepted answer is exported with a positive weight.
   */
  lemma ShortVerdictsSurvive(lower: char -> char, opts: seq<AnswerOption>, exported: seq<AnswerOption>)
    requires Decodes(opts, exported)
    ensures (forall s ::
              ShortIsCorrect(lower, ShortTrip(PositiveTexts(exported)), s) <==> ShortIsCorrect(lower, opts, s))
       <==> AcceptedIsExported(lower, opts, exported, true)
  {
    forall s
      ensures ShortIsCorrect(lower, ShortTrip(PositiveTexts(exported)), s) <==> BlankIsCorrect(lower, exported, s)
    {
      ShortTripAccepts(lower, exported, s);
    }
    hide Norm;
    if forall s :: BlankIsCorrect(lower, exported, s) <==> ShortIsCorrect(lower, opts, s) {
      forall o | o in opts && o.weight >= 0.0 && Norm(lower, o.text) != ""
        ensures exists p :: p in exported && p.weight > 0.0 && Norm(lower, p.text) == Norm(lower, o.text)
      {
        assert ShortIsCorrect(lower, opts, o.text);
        assert BlankIsCorrect(lower, exported, o.text);
      }
    }
  }

  /** The editor's answer with weight 0: Paris was right and is wrong after the trip. */
  lemma ZeroWeightIsLost(lower: char -> char) returns (opts: seq<AnswerOption>)
    requires Norm(lower, "Paris") != ""
    ensures opts == [AnswerOption("a", "Paris", 0.0)] && ShortIsCorrect(lower, opts, "Paris")
    ensures !ShortIsCorrect(lower, ShortTrip(PositiveTexts(opts)), "Paris")
  {
    opts := [AnswerOption("a", "Paris", 0.0)];
    hide Norm;
    ShortTripAccepts(lower, opts, "Paris");
  }

  // ---------- several blanks ----------

  ghost predicate AcceptsInBlank(lower: char -> char, accepted: seq<string>, submitted: string) {
    Norm(lower, submitted) != "" && exists t :: t in accepted && Norm(lower, t) == Norm(lower, submitted)
  }

  /** Every blank is answered acceptably. */
  ghost predicate BlanksAreCorrect(
    lower: char -> char, blanks: map<string, seq<string>>, submitted: map<string, string>)
  {
    forall b :: b in blanks ==> AcceptsInBlank(lower, blanks[b], if b in submitted then submitted[b] else "")
  }

  /** Canvas's array shape: one positively weighted entry per accepted text. */
  ghost function ArrayKey(opts: seq<AnswerOption>): Accepted {
    if opts == [] then map[]
    else
      var before, o := ArrayKey(Init(opts)), Last(opts);
      if o.blankID == "" || o.weight <= 0.0 then before
      else before[o.blankID := AcceptedFor(before, o.blankID) + [o.text]]
  }

  /** parseBlankAnswers: the map shape or the array shape. */
  ghost function BlankKey(a: Answers): Accepted {
    match a
    case Blanks(blanks) => blanks
    case Options(opts) => ArrayKey(opts)
    case PartialBlanks(_) | Undecodable => map[]
  }

  /** gradeFillInMultipleBlanks */
  ghost function BlanksVerdict(lower: char -> char, a: Answers, submitted: map<string, string>): Verdict {
    if BlankKey(a) == map[] then Manual else Graded(BlanksAreCorrect(lower, BlankKey(a), submitted))
  }

  /** Lower casing does not create or remove white space. */
  ghost predicate KeepsSpaces(lower: char -> char) {
    forall c :: IsSpace(lower(c)) <==> IsSpace(c)
  }

  function Lowered(lower: char -> char, s: string): string {
    seq(|s|, i requires 0 <= i < |s| => lower(s[i]))
  }

  lemma {:induction false} LowerTrimLeft(lower: char -> char, s: string)
    requires KeepsSpaces(lower)
    ensures TrimLeft(Lowered(lower, s)) == Lowered(lower, TrimLeft(s))
  {
    if s != [] && IsSpace(s[0]) {
      LowerTrimLeft(lower, s[1..]);
      assert Lowered(lower, s)[1..] == Lowered(lower, s[1..]);
    }
  }

  lemma {:induction false} LowerTrimRight(lower: char -> char, s: string)
    requires KeepsSpaces(lower)
    ensures TrimRight(Lowered(lower, s)) == Lowered(lower, TrimRight(s))
  {
    if s != [] && IsSpace(s[|s| - 1]) {
      LowerTrimRight(lower, s[..|s| - 1]);
      assert Lowered(lower, s)[..|s| - 1] == Lowered(lower, s[..|s| - 1]);
    }
  }

  lemma NormOfTrimmed(lower: char -> char, s: string)
    requires KeepsSpaces(lower)
    ensures Norm(lower, TrimSpace(s)) == Norm(lower, s) == Lowered(lower, TrimSpace(s))
  {
    LowerTrimLeft(lower, s);
    LowerTrimRight(lower, TrimLeft(s));
    LowerTrimLeft(lower, TrimSpace(s));
    LowerTrimRight(lower, TrimLeft(TrimSpace(s)));
    TrimSpaceTwice(s);
    assert Norm(lower, s) == TrimSpace(Lowered(lower, s));
    assert Norm(lower, TrimSpace(s)) == TrimSpace(Lowered(lower, TrimSpace(s)));
  }

  lemma {:induction false} CleanedMembers(texts: seq<string>, t: string)
    ensures t in Cleaned(texts) <==> t != "" && exists x :: x in texts && TrimSpace(x) == t
  {
    if texts != [] {
      CleanedMembers(Init(texts), t);
      assert texts == Init(texts) + [Last(texts)];
    }
  }

  /** Cleaning a blank's list does not change which submissions it accepts. */
  lemma CleaningKeepsAcceptance(lower: char -> char, accepted: seq<string>, submitted: string)
    requires KeepsSpaces(lower)
    ensures AcceptsInBlank(lower, Cleaned(accepted), submitted) <==> AcceptsInBlank(lower, accepted, submitted)
  {
    if AcceptsInBlank(lower, Cleaned(accepted), submitted) {
      var t :| t in Cleaned(accepted) && Norm(lower, t) == Norm(lower, submitted);
      CleanedMembers(accepted, t);
      var x :| x in accepted && TrimSpace(x) == t;
      NormOfTrimmed(lower, x);
    }
    if AcceptsInBlank(lower, accepted, submitted) {
      var x :| x in accepted && Norm(lower, x) == Norm(lower, submitted);
      NormOfTrimmed(lower, x);
      CleanedMembers(accepted, TrimSpace(x));
    }
  }

  /** A blank has some text that is not blank. */
  ghost predicate Answerable(accepted: seq<string>) {
    Cleaned(accepted) != []
  }

  lemma UnanswerableAcceptsNothing(lower: char -> char, accepted: seq<string>, submitted: string)
    requires KeepsSpaces(lower) && !Answerable(accepted)
    ensures !AcceptsInBlank(lower, accepted, submitted)
  {
    CleaningKeepsAcceptance(lower, accepted, submitted);
  }

  lemma AnswerableAcceptsItsFirst(lower: char -> char, accepted: seq<string>)
    requires KeepsSpaces(lower) && Answerable(accepted)
    ensures AcceptsInBlank(lower, Cleaned(accepted), Cleaned(accepted)[0])
  {
    var t := Cleaned(accepted)[0];
    CleanedMembers(accepted, t);
    var x :| x in accepted && TrimSpace(x) == t;
    TrimSpaceTwice(x);
    NormOfTrimmed(lower, t);
  }

  lemma BlanksKept(blanks: map<string, seq<string>>)
    requires forall b :: b in blanks ==> b != "" && !Prefixed(b)
    ensures forall b :: b in BlanksTrip(blanks) <==> b in blanks && Answerable(blanks[b])
    ensures forall b :: b in BlanksTrip(blanks) ==> BlanksTrip(blanks)[b] == Cleaned(blanks[b])
  {
    forall b { BlanksSurvive(blanks, b); }
  }

  /** Every blank has a bare name and a text to accept. */
  ghost predicate AllAnswerable(blanks: map<string, seq<string>>) {
    forall b :: b in blanks ==> b != "" && !Prefixed(b) && Answerable(blanks[b])
  }

  lemma BareBlanksSurvive(lower: char -> char, blanks: map<string, seq<string>>, submitted: map<string, string>)
    requires KeepsSpaces(lower)
    requires AllAnswerable(blanks)
    ensures BlanksTrip(blanks).Keys == blanks.Keys
    ensures BlanksAreCorrect(lower, BlanksTrip(blanks), submitted) <==> BlanksAreCorrect(lower, blanks, submitted)
  {
    BlanksKept(blanks);
    forall b | b in blanks {
      CleaningKeepsAcceptance(lower, blanks[b], if b in submitted then submitted[b] else "");
    }
    assert BlanksTrip(blanks).Keys == blanks.Keys;
  }

  /** Whatever comes back can be answered correctly, leaving out every blank that does not. */
  lemma TripIsAnswerable(lower: char -> char, blanks: map<string, seq<string>>)
    returns (submitted: map<string, string>)
    requires KeepsSpaces(lower)
    ensures submitted.Keys == BlanksTrip(blanks).Keys && BlanksAreCorrect(lower, BlanksTrip(blanks), submitted)
  {
    var once := BlanksTrip(blanks);
    forall b | b in once ensures Cleaned(once[b]) == once[b] && once[b] != [] {
      TripValuesAreClean(blanks, b);
    }
    submitted := map b | b in once :: once[b][0];
    forall b | b in once { AnswerableAcceptsItsFirst(lower, once[b]); }
  }

  /** A blank with a name that is empty or prefixed does not come back under that name, or another one does not. */
  lemma RenamedBlankIsMissing(blanks: map<string, seq<string>>) returns (b: string)
    requires exists b :: b in blanks && (b == "" || Prefixed(b))
    ensures b in blanks && b !in BlanksTrip(blanks)
  {
    if "" in blanks {
      b := "";
      BlanksOfTrip(blanks, b);
    } else {
      b := LongestPrefixed(blanks.Keys);
      BlanksOfTrip(blanks, b);
    }
  }

  lemma OtherBlanksChangeVerdicts(lower: char -> char, blanks: map<string, seq<string>>)
    returns (s: map<string, string>)
    requires KeepsSpaces(lower) && !AllAnswerable(blanks)
    ensures BlanksVerdict(lower, Blanks(BlanksTrip(blanks)), s) != BlanksVerdict(lower, Blanks(blanks), s)
  {
    hide Answerable, BlanksTrip, Prefixed, AcceptsInBlank;
    s := TripIsAnswerable(lower, blanks);
    var b;
    if b' :| b' in blanks && !Answerable(blanks[b']) {
      b := b';
      UnanswerableAcceptsNothing(lower, blanks[b], if b in s then s[b] else "");
    } else {
      b := RenamedBlankIsMissing(blanks);
      EmptyIsNotAccepted(lower, blanks[b]);
    }
    assert !AcceptsInBlank(lower, blanks[b], if b in s then s[b] else "");
  }

  lemma EmptyIsNotAccepted(lower: char -> char, accepted: seq<string>)
    ensures !AcceptsInBlank(lower, accepted, "")
  {
  }

  lemma {:induction false} ArrayKeyIsEmpty(opts: seq<AnswerOption>)
    ensures ArrayKey(opts) == map[] <==> forall o :: o in opts ==> o.blankID == "" || o.weight <= 0.0
  {
    if opts != [] {
      ArrayKeyIsEmpty(Init(opts));
      assert opts == Init(opts) + [Last(opts)];
    }
  }

  /**
   * What of an answers column survives: the map shape with proper blanks; of the array shape only an empty key; and of
   * a map grading cannot decode, one that leaves the exporter nothing that comes back either.
   */
  ghost predicate BlanksAreKept(a: Answers) {
    match a
    case Blanks(blanks) => AllAnswerable(blanks)
    case Options(opts) => forall o :: o in opts ==> o.blankID == "" || o.weight <= 0.0
    case PartialBlanks(decoded) => forall b :: b in decoded && Answerable(decoded[b]) ==> Bare(b) == ""
    case Undecodable => true
  }

  /**
   * Verdicts on all submissions survive exactly when the blanks are a map from bare names to lists with a text to
   * accept. The exporter does not read the array shape, which grading accepts: any key in it is lost. It does write
   * what it decodes of a map that grading gives up on.
   */
  lemma BlanksVerdictsSurvive(lower: char -> char, a: Answers)
    requires KeepsSpaces(lower)
    ensures (forall s :: BlanksVerdict(lower, Blanks(BlanksTrip(BlanksOrNone(a))), s) == BlanksVerdict(lower, a, s))
       <==> BlanksAreKept(a)
  {
    hide BlanksTrip, AllAnswerable, BlanksAreCorrect, ArrayKey;
    match a
    case Blanks(blanks) =>
      if AllAnswerable(blanks) {
        forall s ensures BlanksVerdict(lower, Blanks(BlanksTrip(blanks)), s) == BlanksVerdict(lower, a, s) {
          BareBlanksSurvive(lower, blanks, s);
          assert BlanksTrip(blanks) == map[] <==> blanks == map[];
        }
      } else {
        var s := OtherBlanksChangeVerdicts(lower, blanks);
      }
    case Options(opts) =>
      NothingComesBack();
      ArrayKeyIsEmpty(opts);
      assert BlanksVerdict(lower, Blanks(map[]), map[]) == Manual;
      assert BlanksVerdict(lower, a, map[]) == Manual <==> ArrayKey(opts) == map[];
    case PartialBlanks(decoded) =>
      SomethingComesBack(decoded);
      assert BlanksVerdict(lower, a, map[]) == Manual;
    case Undecodable =>
      NothingComesBack();
  }

  lemma SomethingComesBack(blanks: map<string, seq<string>>)
    ensures BlanksTrip(blanks) == map[] <==> forall b :: b in blanks && Answerable(blanks[b]) ==> Bare(b) == ""
  {
    hide Bare, TrimSpace, BlanksTrip, Cleaned;
    forall b | b in blanks
      ensures Answerable(blanks[b]) <==> exists t :: t in blanks[b] && TrimSpace(t) != ""
    {
      CleanedHasNoBlanks(blanks[b]);
    }
    if b :| b in blanks && Answerable(blanks[b]) && Bare(b) != "" {
      BlanksOfTrip(blanks, Bare(b));
    }
    if BlanksTrip(blanks) != map[] {
      var b :| b in BlanksTrip(blanks);
      BlanksOfTrip(blanks, b);
    }
  }

  /**
   * A blank that accepts only spaces, a prefixed name, a key in the array shape, and a map with a value that is no list
   * (of which an empty list is left): each changes some verdict.
   */
  lemma BlanksAreLost(lower: char -> char, a: Answers) returns (s: map<string, string>)
    requires KeepsSpaces(lower)
    requires a in {
      Blanks(map["a" := [" "]]), Blanks(map["response_a" := ["x"]]),
      Options([AnswerOption("o", "x", 100.0, blankID := "a")]), PartialBlanks(map["a" := ["x"], "b" := []])}
    ensures BlanksVerdict(lower, Blanks(BlanksTrip(BlanksOrNone(a))), s) != BlanksVerdict(lower, a, s)
  {
    BlanksVerdictsSurvive(lower, a);
    TheyAreNotKept(a);
    hide *;
    s :| BlanksVerdict(lower, Blanks(BlanksTrip(BlanksOrNone(a))), s) != BlanksVerdict(lower, a, s);
  }

  lemma {:induction false} TheyAreNotKept(a: Answers)
    requires a in {
      Blanks(map["a" := [" "]]), Blanks(map["response_a" := ["x"]]),
      Options([AnswerOption("o", "x", 100.0, blankID := "a")]), PartialBlanks(map["a" := ["x"], "b" := []])}
    ensures !BlanksAreKept(a)
  {
    hide Answerable;
    match a
    case Blanks(blanks) =>
      OnlySpaces();
      assert Prefixed("response_a");
      assert "a" in blanks || "response_a" in blanks;
    case PartialBlanks(decoded) =>
      OneText("x");
      assert "a" in decoded && Bare("a") == "a";
    case Options(opts) => assert opts[0] in opts;
  }

  lemma OneText(t: string)
    requires TrimSpace(t) != ""
    ensures Answerable([t])
  {
    CleanedHasNoBlanks([t]);
    assert t in [t];
  }

  lemma OnlySpaces()
    ensures !Answerable([" "])
  {
    assert Init([" "]) == [] && TrimSpace(" ") == "";
  }

  lemma NothingComesBack()
    ensures BlanksTrip(map[]) == map[]
  {
    forall b { BlanksOfTrip(map[], b); }
  }

  // ---------- dropdowns ----------

  ghost predicate Accepts(opts: seq<AnswerOption>, blank: string, id: string) {
    exists o :: o in opts && o.weight > 0.0 && o.blankID == blank && o.id == id
  }

  /** The blanks that are graded. */
  ghost function NamedBlanks(opts: seq<AnswerOption>): set<string> {
    BlankIDs(opts) - {""}
  }

  function Selected(submitted: map<string, string>, blank: string): string {
    if blank in submitted then submitted[blank] else ""
  }

  /** gradeMultipleDropdown: each named blank got an accepted option, and there is one. */
  ghost predicate DropdownsAreCorrect(opts: seq<AnswerOption>, submitted: map<string, string>) {
    NamedBlanks(opts) != {} && forall b :: b in NamedBlanks(opts) ==> Accepts(opts, b, Selected(submitted, b))
  }

  /** Some submission is correct: there is a named blank, and each has an accepted option. */
  ghost predicate CanBeAnswered(opts: seq<AnswerOption>) {
    NamedBlanks(opts) != {} && forall b :: b in NamedBlanks(opts) ==> exists id :: Accepts(opts, b, id)
  }

  lemma RightAnswers(opts: seq<AnswerOption>) returns (s: map<string, string>)
    requires CanBeAnswered(opts)
    ensures s.Keys == NamedBlanks(opts) && DropdownsAreCorrect(opts, s)
  {
    s := map b | b in NamedBlanks(opts) :: (var id :| Accepts(opts, b, id); id);
  }

  lemma {:induction false} UnusedID(opts: seq<AnswerOption>) returns (id: string, n: nat)
    ensures |id| == n && forall o :: o in opts ==> |o.id| < n
  {
    if opts == [] {
      n := 0;
    } else {
      assert opts == Init(opts) + [Last(opts)];
      id, n := UnusedID(Init(opts));
      if |Last(opts).id| >= n {
        n := |Last(opts).id| + 1;
      }
    }
    id := seq(n, _ => 'x');
  }

  lemma UnusedIsNotAccepted(opts: seq<AnswerOption>) returns (id: string)
    ensures forall b :: !Accepts(opts, b, id)
  {
    var n;
    id, n := UnusedID(opts);
  }

  lemma OneBlankChanged(opts: seq<AnswerOption>, s: map<string, string>, blank: string, id: string)
    requires DropdownsAreCorrect(opts, s)
    ensures DropdownsAreCorrect(opts, s[blank := id]) <==> blank !in NamedBlanks(opts) || Accepts(opts, blank, id)
  {
    assert forall b :: b != blank ==> Selected(s[blank := id], b) == Selected(s, b);
    assert Selected(s[blank := id], blank) == id;
  }

  /** The same blanks, and in each the same options accepted. */
  ghost predicate SameDropdowns(a: seq<AnswerOption>, b: seq<AnswerOption>) {
    && NamedBlanks(a) == NamedBlanks(b)
    && forall blank, id :: blank in NamedBlanks(a) ==> (Accepts(a, blank, id) <==> Accepts(b, blank, id))
  }

  /** Questions that can be answered are told apart by their blanks and accepted options. */
  lemma DropdownsDecide(a: seq<AnswerOption>, b: seq<AnswerOption>)
    requires CanBeAnswered(a)
    ensures (forall s :: DropdownsAreCorrect(b, s) <==> DropdownsAreCorrect(a, s)) <==> SameDropdowns(a, b)
  {
    hide Accepts;
    if forall s :: DropdownsAreCorrect(b, s) <==> DropdownsAreCorrect(a, s) {
      hide DropdownsAreCorrect;
      var s := RightAnswers(a);
      assert DropdownsAreCorrect(b, s);
      var no := UnusedIsNotAccepted(a + b);
      forall blank
        ensures !Accepts(a, blank, no) && !Accepts(b, blank, no)
      {
        AcceptedBySome(a, b, blank, no);
      }
      forall blank ensures blank in NamedBlanks(a) <==> blank in NamedBlanks(b) {
        OneBlankChanged(a, s, blank, no);
        OneBlankChanged(b, s, blank, no);
      }
      forall blank, id | blank in NamedBlanks(a) ensures Accepts(a, blank, id) <==> Accepts(b, blank, id) {
        OneBlankChanged(a, s, blank, id);
        OneBlankChanged(b, s, blank, id);
      }
    }
  }

  lemma AcceptedBySome(a: seq<AnswerOption>, b: seq<AnswerOption>, blank: string, id: string)
    ensures Accepts(a, blank, id) || Accepts(b, blank, id) ==> Accepts(a + b, blank, id)
  {
    assert forall o :: o in a || o in b ==> o in a + b;
  }

  /** The option is in a blank that comes back under this name, and its id is read as marked. */
  ghost predicate AcceptsAfter(opts: seq<AnswerOption>, name: string, id: string) {
    exists o :: o in opts && Bare(o.blankID) == name && o.id == id && Chosen(opts, o.blankID, o.id)
  }

  lemma DropdownAcceptanceAfter(opts: seq<AnswerOption>, name: string, id: string)
    ensures Accepts(DropdownTrip(opts), name, id) <==> AcceptsAfter(opts, name, id)
  {
    hide Chosen, Bare;
    var g, once := Grouped(opts), DropdownTrip(opts);
    if Accepts(once, name, id) {
      var i :| 0 <= i < |once| && once[i].weight > 0.0 && once[i].blankID == name && once[i].id == id;
      GroupedMembers(opts, g[i]);
    }
    if AcceptsAfter(opts, name, id) {
      var o :| o in opts && Bare(o.blankID) == name && o.id == id && Chosen(opts, o.blankID, o.id);
      GroupedMembers(opts, o);
      var i :| 0 <= i < |g| && g[i] == o;
      assert once[i] in once;
    }
  }

  lemma DropdownBlanksAfter(opts: seq<AnswerOption>)
    ensures BlankIDs(DropdownTrip(opts)) == set o | o in opts :: Bare(o.blankID)
  {
    hide Chosen, Bare;
    var g, once := Grouped(opts), DropdownTrip(opts);
    forall o | o in opts ensures Bare(o.blankID) in BlankIDs(once) {
      GroupedMembers(opts, o);
      var i :| 0 <= i < |g| && g[i] == o;
      assert once[i] in once;
    }
    forall b | b in BlankIDs(once) ensures exists o :: o in opts && Bare(o.blankID) == b {
      var i :| 0 <= i < |once| && once[i].blankID == b;
      GroupedMembers(opts, g[i]);
    }
  }

  /** What the key has to be for the trip to leave a question that can be answered. */
  ghost predicate CanBeAnsweredAfter(opts: seq<AnswerOption>) {
    && (exists o :: o in opts && Bare(o.blankID) != "")
    && forall o :: o in opts && Bare(o.blankID) != "" ==> exists id :: AcceptsAfter(opts, Bare(o.blankID), id)
  }

  lemma AnsweredAfter(opts: seq<AnswerOption>)
    ensures CanBeAnswered(DropdownTrip(opts)) <==> CanBeAnsweredAfter(opts)
  {
    hide DropdownTrip, Accepts, AcceptsAfter, Bare;
    var once := DropdownTrip(opts);
    DropdownBlanksAfter(opts);
    forall name, id { DropdownAcceptanceAfter(opts, name, id); }
    forall o | o in opts && Bare(o.blankID) != "" ensures Bare(o.blankID) in NamedBlanks(once) {
    }
    forall b | b in NamedBlanks(once) ensures exists o :: o in opts && Bare(o.blankID) == b && b != "" {
    }
    if CanBeAnswered(once) {
      var b :| b in NamedBlanks(once);
    }
  }

  /** Named blanks have bare names, and an option in one is accepted exactly when its id is read as marked. */
  ghost predicate DropdownsAreKept(opts: seq<AnswerOption>) {
    forall o :: o in opts && o.blankID != "" ==>
      !Prefixed(o.blankID) && (Accepts(opts, o.blankID, o.id) <==> Chosen(opts, o.blankID, o.id))
  }

  lemma KeptMeansSame(opts: seq<AnswerOption>)
    requires DropdownsAreKept(opts) && CanBeAnswered(opts)
    ensures SameDropdowns(opts, DropdownTrip(opts))
  {
    hide Chosen, DropdownTrip;
    DropdownBlanksAfter(opts);
    assert Bare("") == "";
    forall o | o in opts ensures Bare(o.blankID) == o.blankID {
      if o.blankID != "" {
        BareAsIs(o.blankID);
      }
    }
    forall blank, id | blank in NamedBlanks(opts)
      ensures Accepts(opts, blank, id) <==> Accepts(DropdownTrip(opts), blank, id)
    {
      DropdownAcceptanceAfter(opts, blank, id);
    }
  }

  /** The blank with the longest prefixed name does not come back under it. */
  lemma RenamedBlank(opts: seq<AnswerOption>) returns (p: string)
    requires exists q :: q in NamedBlanks(opts) && Prefixed(q)
    ensures p in NamedBlanks(opts) && p !in NamedBlanks(DropdownTrip(opts))
  {
    hide DropdownTrip;
    DropdownBlanksAfter(opts);
    p := LongestPrefixed(NamedBlanks(opts));
    forall o | o in opts ensures Bare(o.blankID) != p {
      assert o.blankID != "" ==> o.blankID in NamedBlanks(opts);
    }
  }

  lemma SameMeansKept(opts: seq<AnswerOption>)
    requires SameDropdowns(opts, DropdownTrip(opts))
    ensures DropdownsAreKept(opts)
  {
    hide Chosen, DropdownTrip;
    DropdownBlanksAfter(opts);
    if exists q :: q in NamedBlanks(opts) && Prefixed(q) {
      var p := RenamedBlank(opts);
    }
    assert Bare("") == "";
    forall o | o in opts ensures Bare(o.blankID) == o.blankID {
      if o.blankID != "" {
        assert o.blankID in NamedBlanks(opts);
        BareAsIs(o.blankID);
      }
    }
    forall o | o in opts && o.blankID != ""
      ensures !Prefixed(o.blankID) && (Accepts(opts, o.blankID, o.id) <==> Chosen(opts, o.blankID, o.id))
    {
      assert o.blankID in NamedBlanks(opts);
      DropdownAcceptanceAfter(opts, o.blankID, o.id);
    }
  }

  /**
   * Dropdown verdicts on all submissions survive exactly when, in a question that can be answered, named blanks have
   * bare names and an option's id is accepted if and only if it is, as it stands, the trimmed id of an accepted option
   * of its blank; and a question that cannot be answered has no named blank left, or one without a marked option among
   * those that share its bare name.
   */
  lemma DropdownVerdictsSurvive(opts: seq<AnswerOption>)
    ensures (forall s :: DropdownsAreCorrect(DropdownTrip(opts), s) <==> DropdownsAreCorrect(opts, s))
       <==> if CanBeAnswered(opts) then DropdownsAreKept(opts) else !CanBeAnsweredAfter(opts)
  {
    AnsweredAfter(opts);
    hide CanBeAnsweredAfter;
    hide Accepts, DropdownsAreKept, DropdownTrip, NamedBlanks;
    if CanBeAnswered(opts) {
      hide CanBeAnswered, DropdownsAreCorrect, SameDropdowns;
      DropdownsDecide(opts, DropdownTrip(opts));
      if DropdownsAreKept(opts) {
        KeptMeansSame(opts);
      }
      if SameDropdowns(opts, DropdownTrip(opts)) {
        SameMeansKept(opts);
      }
    } else if CanBeAnswered(DropdownTrip(opts)) {
      var s := RightAnswers(DropdownTrip(opts));
    }
  }

  /** A blank with an accepted option and one without, whose names agree once the prefix is dropped. */
  lemma {:induction false} MergedBlankGetsAnswerable(o: AnswerOption, q: AnswerOption)
    requires o.weight > 0.0 && TrimSpace(o.id) == o.id && o.blankID != "" && !Prefixed(o.blankID)
    requires q.weight <= 0.0 && q.blankID == RESPONSE_PREFIX + o.blankID
    ensures !CanBeAnswered([o, q]) && CanBeAnswered(DropdownTrip([o, q]))
  {
    hide TrimSpace, DropdownTrip, Bare;
    var opts := [o, q];
    assert o in opts && q in opts;
    PrefixIsDropped(o.blankID);
    BareAsIs(o.blankID);
    assert q.blankID in NamedBlanks(opts);
    assert forall id :: !Accepts(opts, q.blankID, id);
    assert Chosen(opts, o.blankID, o.id);
    assert AcceptsAfter(opts, o.blankID, o.id);
    AnsweredAfter(opts);
  }

  lemma PrefixIsDropped(name: string)
    ensures Bare(RESPONSE_PREFIX + name) == name && (name != "" ==> RESPONSE_PREFIX + name != name)
  {
    assert |RESPONSE_PREFIX + name| > |name|;
  }

  /** Such a question: x is right in blank a, y is wrong in blank response_a. */
  lemma PrefixedBlankGetsAnswered() returns (opts: seq<AnswerOption>)
    ensures opts == [AnswerOption("x", "", 100.0, blankID := "a"), AnswerOption("y", "", 0.0, blankID := "response_a")]
    ensures !CanBeAnswered(opts) && CanBeAnswered(DropdownTrip(opts))
  {
    hide CanBeAnswered, DropdownTrip;
    var o, q := AnswerOption("x", "", 100.0, blankID := "a"), AnswerOption("y", "", 0.0, blankID := "response_a");
    assert TrimSpace("x") == "x" && RESPONSE_PREFIX + "a" == "response_a";
    MergedBlankGetsAnswerable(o, q);
    opts := [o, q];
  }

  /** An option id with spaces around it, the only one of its blank: right before the trip and wrong after it. */
  lemma UntrimmedOptionIsLost() returns (opts: seq<AnswerOption>, s: map<string, string>)
    ensures opts == [AnswerOption(" id ", "", 100.0, blankID := "a")]
    ensures DropdownsAreCorrect(opts, s) && !DropdownsAreCorrect(DropdownTrip(opts), s)
  {
    var o := AnswerOption(" id ", "", 100.0, blankID := "a");
    opts, s := [o], map["a" := " id "];
    assert o in opts;
    assert Accepts(opts, "a", " id ");
    assert "a" in NamedBlanks(opts) && Bare("a") == "a";
    DropdownBlanksAfter(opts);
    assert "a" in NamedBlanks(DropdownTrip(opts));
    DropdownAcceptanceAfter(opts, "a", " id ");
    TrimmedIsShorter();
  }

  lemma TrimmedIsShorter()
    ensures TrimSpace(" id ") != " id "
  {
    assert " id "[0] == ' ';
  }

  /** With trimmed option ids and bare blanks the condition holds. */
  lemma TrimmedDropdownsSurvive(opts: seq<AnswerOption>, submitted: map<string, string>)
    requires forall o :: o in opts ==> TrimSpace(o.id) == o.id && !Prefixed(o.blankID)
    ensures DropdownsAreCorrect(DropdownTrip(opts), submitted) <==> DropdownsAreCorrect(opts, submitted)
  {
    hide TrimSpace, DropdownTrip;
    DropdownBlanksAfter(opts);
    forall o | o in opts { BareAsIs(o.blankID); }
    forall b, id ensures Accepts(DropdownTrip(opts), b, id) <==> Accepts(opts, b, id) {
      DropdownAcceptanceAfter(opts, b, id);
    }
  }
}
