/** The export/import round trip of one question, once and twice. */
module QtiRoundTrip {
  import opened QtiModel
  import opened Text
  import opened QtiExporter
  import opened QtiParserClassic
  import opened QtiKeyTrip
  import opened QtiBlanksTrip
  import opened QtiDropdownTrip

  // ---------- feedback ----------

  lemma {:induction false} ContainsNothingLonger(s: string, p: string)
    requires |s| < |p|
    ensures !Contains(s, p)
  {
    if s != [] {
      ContainsNothingLonger(s[1..], p);
    }
  }

  lemma ContainsNoOther(s: string, p: string)
    requires |s| == |p| > 0 && s[0] != p[0]
    ensures !Contains(s, p)
  {
    ContainsNothingLonger(s[1..], p);
  }

  lemma PrefixIsContained(s: string, p: string)
    requires HasPrefix(s, p)
    ensures Contains(s, p)
  {
  }

  lemma CorrectIdent()
    ensures NormalizeFeedbackIdent("correct_fb") == CorrectRole
  {
    hide Contains;
    var c := "correct_fb";
    assert ToLower(c) == c;
    ContainsNoOther(c, "incorrect_");
    assert c[0] == 'c' && "incorrect"[0] == 'i';
  }

  lemma IncorrectIdent()
    ensures NormalizeFeedbackIdent("incorrect_fb") == IncorrectRole
  {
    var i := "incorrect_fb";
    assert ToLower(i) == i;
    assert HasPrefix(i, "incorrect");
  }

  lemma GeneralIdent()
    ensures NormalizeFeedbackIdent("general_fb") == GeneralRole
  {
    hide Contains;
    var g := "general_fb";
    assert ToLower(g) == g;
    ContainsNoOther(g, "incorrect_");
    ContainsNoOther(g, "correct_fb");
    ContainsNothingLonger(g, "correct_comment");
    assert g[0] == 'g' && "incorrect"[0] == 'i' && "correct"[0] == 'c';
    PrefixIsContained(g, "general");
  }

  function FeedbackIf(ident: string, text: string): seq<Feedback> {
    if text != "" then [Feedback(ident, [text])] else []
  }

  ghost function IndexedIf(index: map<string, string>, ident: string, text: string): map<string, string> {
    if TrimSpace(text) != "" then index[ident := TrimSpace(text)] else index
  }

  lemma IndexOneMore(feedback: seq<Feedback>, ident: string, text: string)
    requires ident != ""
    ensures FeedbackIndex(feedback + FeedbackIf(ident, text)) == IndexedIf(FeedbackIndex(feedback), ident, text)
  {
    if text == "" {
      assert feedback + FeedbackIf(ident, text) == feedback;
    } else {
      var more := feedback + FeedbackIf(ident, text);
      assert Init(more) == feedback && Last(more) == Feedback(ident, [text]);
      FirstMatTextOfOne(text);
    }
  }

  lemma ExportedIndex(b: Body)
    ensures FeedbackIndex(FeedbackOf(b))
         == IndexedIf(IndexedIf(IndexedIf(map[], "correct_fb", b.correct), "incorrect_fb", b.incorrect),
                      "general_fb", b.neutral)
  {
    var one := [] + FeedbackIf("correct_fb", b.correct);
    var two := one + FeedbackIf("incorrect_fb", b.incorrect);
    IndexOneMore([], "correct_fb", b.correct);
    IndexOneMore(one, "incorrect_fb", b.incorrect);
    IndexOneMore(two, "general_fb", b.neutral);
    assert FeedbackOf(b) == two + FeedbackIf("general_fb", b.neutral);
  }

  lemma OnlyIdentOfRole(index: map<string, string>, role: Role, ident: string, t: string, text: string)
    requires t != "" ==> ident in index && index[ident] == t && NormalizeFeedbackIdent(ident) == role
    requires forall id :: id in index && NormalizeFeedbackIdent(id) == role ==> id == ident && t != ""
    ensures Resolves(index, [], role, text) <==> text == t
  {
  }

  lemma IndexOfThree(c: string, i: string, g: string) returns (index: map<string, string>)
    ensures index == IndexedIf(IndexedIf(IndexedIf(map[], "correct_fb", c), "incorrect_fb", i), "general_fb", g)
    ensures forall id :: id in index ==> id in {"correct_fb", "incorrect_fb", "general_fb"}
    ensures TrimSpace(c) != "" <==> "correct_fb" in index
    ensures TrimSpace(i) != "" <==> "incorrect_fb" in index
    ensures TrimSpace(g) != "" <==> "general_fb" in index
    ensures "correct_fb" in index ==> index["correct_fb"] == TrimSpace(c)
    ensures "incorrect_fb" in index ==> index["incorrect_fb"] == TrimSpace(i)
    ensures "general_fb" in index ==> index["general_fb"] == TrimSpace(g)
  {
    assert "correct_fb"[0] == 'c' && "incorrect_fb"[0] == 'i' && "general_fb"[0] == 'g';
    index := IndexedIf(IndexedIf(IndexedIf(map[], "correct_fb", c), "incorrect_fb", i), "general_fb", g);
  }

  /** Exported comments are read back trimmed, each to its own field, whatever order blocks are visited in. */
  lemma CommentsAreRead(b: Body, text: string)
    ensures Resolves(FeedbackIndex(FeedbackOf(b)), [], CorrectRole, text) <==> text == TrimSpace(b.correct)
    ensures Resolves(FeedbackIndex(FeedbackOf(b)), [], IncorrectRole, text) <==> text == TrimSpace(b.incorrect)
    ensures Resolves(FeedbackIndex(FeedbackOf(b)), [], GeneralRole, text) <==> text == TrimSpace(b.neutral)
  {
    hide Resolves, NormalizeFeedbackIdent, FeedbackIndex, FeedbackOf, TrimSpace, IndexedIf;
    ExportedIndex(b);
    var index := IndexOfThree(b.correct, b.incorrect, b.neutral);
    CorrectIdent();
    IncorrectIdent();
    GeneralIdent();
    OnlyIdentOfRole(index, CorrectRole, "correct_fb", TrimSpace(b.correct), text);
    OnlyIdentOfRole(index, IncorrectRole, "incorrect_fb", TrimSpace(b.incorrect), text);
    OnlyIdentOfRole(index, GeneralRole, "general_fb", TrimSpace(b.neutral), text);
  }

  // ---------- one trip ----------

  function Degraded(t: QuestionType): QuestionType {
    match t
    case Ordering | Categorization => Matching
    case HotSpot => MultipleChoice
    case FillInTheBlank => ShortAnswer
    case Unlisted(_) => Essay
    case _ => t
  }

  lemma TypesDegrade(t: QuestionType)
    ensures MapCanvasClassicType(CanvasTypeOf(t)) == Some(Degraded(t))
  {
  }

  ghost function TripAnswers(b: Body): Answers {
    match b.questionType
    case MultipleChoice | TrueFalse | MultipleAnswer => Options(ChoiceTrip(OptionsOrNone(b.answers)))
    case ShortAnswer | FillInTheBlank => Options(ShortTrip(PositiveTexts(OptionsOrNone(b.answers))))
    case Numerical | Formula => Options(NumericalTrip(NonBlank(PositiveTexts(OptionsOrNone(b.answers)))))
    case Matching | Ordering | Categorization => Options(MatchingTrip(OptionsOrNone(b.answers)))
    case HotSpot => Options(HotSpotTrip(OptionsOrNone(b.answers)))
    case FillInMultipleBlanks => Blanks(BlanksTrip(BlanksOrNone(b.answers)))
    case MultipleDropdown => Options(DropdownTrip(OptionsOrNone(b.answers)))
    case Essay | FileUpload | TextOnly | Unlisted(_) => Options([])
  }

  ghost function TripOf(b: Body): Body {
    Body(Degraded(b.questionType), TrimSpace(b.text), Some(PointsOf(b)), TripAnswers(b),
         TrimSpace(b.correct), TrimSpace(b.incorrect), TrimSpace(b.neutral))
  }

  lemma ChoicesAreRead(n: Numbers, b: Body, item: Item)
    requires IsChoice(b.questionType) && PresentationOf(b) == Some(item.presentation)
    requires item.conditions == Conditions(KeyOf(b))
    ensures AnswersFrom(n, Degraded(b.questionType), item) == TripAnswers(b)
  {
    ChoiceKeyIsRead(b.questionType, b.answers.options);
  }

  lemma TextsAreRead(n: Numbers, b: Body, item: Item)
    requires IsTextKeyed(b.questionType) && ExactField(item.metadata) == ""
    requires item.conditions == Conditions(KeyOf(b))
    ensures AnswersFrom(n, Degraded(b.questionType), item) == TripAnswers(b)
  {
    var opts := OptionsOrNone(b.answers);
    ShortKeyIsRead(b.questionType, opts);
    TextKeys(b.questionType, opts);
    NumbersAreDecoded(n, PositiveTexts(opts));
    hide KeyPairs, AllEquals, DecodedNumbers, NumericalTrip, ShortTrip, PositiveTexts, Conditions, NonBlank;
    hide ShortAnswers;
  }

  lemma MatchesAreRead(t: QuestionType, opts: seq<AnswerOption>)
    requires t.Matching? || t.Ordering? || t.Categorization?
    ensures var lids := MatchingLids(LeftItems(opts));
      Pairs(lids, Conditions(KeyPairs(t, opts))) + Pool(AllLabels(lids)) == MatchingTrip(opts)
  {
    if !t.Matching? {
      MatchingKeysAgree(t, opts);
    }
    MatchingKeyIsRead(opts);
    MatchingHasNoPool(LeftItems(opts));
  }

  lemma BlanksAreRead(n: Numbers, b: Body, item: Item)
    requires b.questionType.FillInMultipleBlanks? && PresentationOf(b) == Some(item.presentation)
    requires item.conditions == Conditions(KeyOf(b))
    ensures AnswersFrom(n, FillInMultipleBlanks, item) == TripAnswers(b)
  {
    hide TrimSpace, SortedKeys;
    ConditionsCarryTheKey(KeyOf(b));
    CollectedIsGathered(item.presentation.strs, KeyOf(b));
  }

  lemma DropdownKeyIsRead(opts: seq<AnswerOption>, keys: seq<string>)
    ensures DropdownAnswers(DropdownLids(opts, keys), DirectEquals(Conditions(KeyPairs(MultipleDropdown, opts))))
         == RetouchedAll(opts, Regroup(opts, keys))
  {
    ConditionsCarryTheKey(KeyPairs(MultipleDropdown, opts));
    DropdownsAreRead(opts, keys);
  }

  lemma PairsAreRead(n: Numbers, b: Body, item: Item)
    requires b.questionType.Matching? || b.questionType.Ordering? || b.questionType.Categorization?
    requires PresentationOf(b) == Some(item.presentation) && item.conditions == Conditions(KeyOf(b))
    ensures AnswersFrom(n, Degraded(b.questionType), item) == TripAnswers(b)
  {
    hide TrimSpace, Pairs, Pool, AllLabels, MatchingLids, LeftItems, MatchingTrip, Conditions, KeyPairs;
    MatchesAreRead(b.questionType, b.answers.options);
  }

  lemma HotSpotIsRead(n: Numbers, b: Body, item: Item)
    requires b.questionType.HotSpot? && PresentationOf(b) == Some(item.presentation)
    requires item.conditions == Conditions(KeyOf(b))
    ensures AnswersFrom(n, Degraded(b.questionType), item) == TripAnswers(b)
  {
    HotSpotKeyIsRead(b.answers.options);
  }

  lemma DropdownIsRead(n: Numbers, b: Body, item: Item)
    requires b.questionType.MultipleDropdown? && PresentationOf(b) == Some(item.presentation)
    requires item.conditions == Conditions(KeyOf(b))
    ensures AnswersFrom(n, Degraded(b.questionType), item) == TripAnswers(b)
  {
    hide TrimSpace, SortedKeys;
    DropdownKeyIsRead(b.answers.options, SortedKeys(BlankIDs(b.answers.options)));
  }

  lemma AnswersAreRead(n: Numbers, b: Body, item: Item)
    requires PresentationOf(b) == Some(item.presentation) && item.conditions == Conditions(KeyOf(b))
    requires ExactField(item.metadata) == ""
    ensures AnswersFrom(n, Degraded(b.questionType), item) == TripAnswers(b)
  {
    hide PresentationOf, Conditions, KeyOf, TrimSpace;
    match b.questionType
    case MultipleChoice | TrueFalse | MultipleAnswer => ChoicesAreRead(n, b, item);
    case ShortAnswer | FillInTheBlank | Numerical | Formula => TextsAreRead(n, b, item);
    case Matching | Ordering | Categorization => PairsAreRead(n, b, item);
    case HotSpot => HotSpotIsRead(n, b, item);
    case FillInMultipleBlanks => BlanksAreRead(n, b, item);
    case MultipleDropdown => DropdownIsRead(n, b, item);
    case Essay | FileUpload | TextOnly | Unlisted(_) =>
  }

  lemma ExportedMetadata(c: CanvasType, points: real)
    ensures var fields := [QuestionTypeField(c), PointsField(Some(points))];
      QuestionTypeEntry(fields) == c && PointsEntry(fields) == points && ExactField(fields) == ""
  {
    var fields := [QuestionTypeField(c), PointsField(Some(points))];
    assert Init(fields) == [QuestionTypeField(c)];
    assert Init([QuestionTypeField(c)]) == [];
    assert ExactField([QuestionTypeField(c)]) == "" && PointsEntry([QuestionTypeField(c)]) == 1.0;
  }

  /**
   * The round trip, for every question that exports: the importer accepts the item,
   * and the only question it can make of it is TripOf.
   */
  lemma RoundTrip(n: Numbers, q: Question, item: Item, r: Option<Body>)
    requires ItemOf(q) == Some(item)
    ensures Imports(n, item, r) <==> r == Some(TripOf(q.body))
  {
    var b := q.body;
    ExportedMetadata(CanvasTypeOf(b.questionType), PointsOf(b));
    TypesDegrade(b.questionType);
    AnswersAreRead(n, b, item);
    FirstMatTextOfOne(b.text);
    ConditionsCarryTheKey(KeyOf(b));
    if r.Some? {
      CommentsAreRead(b, r.value.correct);
      CommentsAreRead(b, r.value.incorrect);
      CommentsAreRead(b, r.value.neutral);
    }
  }

  /** The prompt and the comments come back trimmed, and the points as they were, or as 1 if there were none. */
  lemma FieldsAreRead(n: Numbers, q: Question, item: Item, r: Body)
    requires ItemOf(q) == Some(item) && Imports(n, item, Some(r))
    ensures r.text == TrimSpace(q.body.text)
    ensures r.points == if q.body.points.Some? then q.body.points else Some(1.0)
    ensures r.correct == TrimSpace(q.body.correct)
    ensures r.incorrect == TrimSpace(q.body.incorrect) && r.neutral == TrimSpace(q.body.neutral)
  {
    hide Imports, ItemOf, TrimSpace;
    RoundTrip(n, q, item, Some(r));
  }

  /** A question fails to export exactly when a type that lists options has undecodable ones. */
  lemma ExportFails(q: Question)
    ensures ItemOf(q).None? <==>
      !q.body.answers.Options? &&
      q.body.questionType in {MultipleChoice, TrueFalse, MultipleAnswer, Matching, Ordering, Categorization, HotSpot,
                              MultipleDropdown}
  {
  }

  // ---------- two trips ----------

  /** What a caller can check of a question before exporting it twice; true of all but three answer shapes. */
  ghost predicate Steady(b: Body) {
    match b.questionType
    case Matching | Ordering | Categorization => SteadyMatching(OptionsOrNone(b.answers))
    case FillInMultipleBlanks => SteadyBlanks(BlanksOrNone(b.answers))
    case MultipleDropdown => SteadyDropdown(OptionsOrNone(b.answers))
    case _ => true
  }

  lemma TextAnswersTwice(b: Body)
    requires IsTextKeyed(b.questionType)
    ensures TripAnswers(TripOf(b)) == TripAnswers(b)
  {
    var texts := PositiveTexts(OptionsOrNone(b.answers));
    PositiveTextsOfShort(texts);
    PositiveTextsOfNumbers(NonBlank(texts));
    NonBlankTwice(texts);
  }

  lemma ChoicesTwice(b: Body)
    requires IsChoice(b.questionType) || b.questionType.HotSpot?
    ensures TripAnswers(TripOf(b)) == TripAnswers(b)
  {
    ChoiceTripTwice(OptionsOrNone(b.answers));
  }

  lemma MatchesTwice(b: Body)
    requires b.questionType.Matching? || b.questionType.Ordering? || b.questionType.Categorization?
    ensures TripAnswers(TripOf(b)) == TripAnswers(b) <==> SteadyMatching(OptionsOrNone(b.answers))
  {
    hide MatchingTrip, SteadyMatching;
    MatchingTripTwice(OptionsOrNone(b.answers));
  }

  lemma BlanksTwice(b: Body)
    requires b.questionType.FillInMultipleBlanks?
    ensures TripAnswers(TripOf(b)) == TripAnswers(b) <==> SteadyBlanks(BlanksOrNone(b.answers))
  {
    hide SteadyBlanks, BlanksTrip;
    BlanksTripTwice(BlanksOrNone(b.answers));
  }

  lemma DropdownsTwice(b: Body)
    requires b.questionType.MultipleDropdown?
    ensures TripAnswers(TripOf(b)) == TripAnswers(b) <==> SteadyDropdown(OptionsOrNone(b.answers))
  {
    hide SteadyDropdown, DropdownTrip;
    DropdownTripTwice(OptionsOrNone(b.answers));
  }

  lemma AnswersTwice(b: Body)
    ensures TripAnswers(TripOf(b)) == TripAnswers(b) <==> Steady(b)
  {
    hide SteadyMatching, SteadyBlanks, SteadyDropdown;
    match b.questionType
    case MultipleChoice | TrueFalse | MultipleAnswer | HotSpot => ChoicesTwice(b);
    case ShortAnswer | FillInTheBlank | Numerical | Formula => TextAnswersTwice(b);
    case Matching | Ordering | Categorization => MatchesTwice(b);
    case FillInMultipleBlanks => BlanksTwice(b);
    case MultipleDropdown => DropdownsTwice(b);
    case Essay | FileUpload | TextOnly | Unlisted(_) =>
  }

  /** Exporting and importing a re-imported question again returns it unchanged exactly when it is steady. */
  lemma TripTwice(b: Body)
    ensures TripOf(TripOf(b)) == TripOf(b) <==> Steady(b)
  {
    TrimSpaceTwice(b.text);
    TrimSpaceTwice(b.correct);
    TrimSpaceTwice(b.incorrect);
    TrimSpaceTwice(b.neutral);
    AnswersTwice(b);
  }

  /** No ident with the response_ prefix anywhere is enough for a question to be steady. */
  lemma BareIsSteady(b: Body)
    requires b.answers.Options? ==>
      forall o :: o in b.answers.options ==>
        !Prefixed(o.id) && !Prefixed(o.blankID) && (o.id == "" ==> !Prefixed(o.left))
    requires forall k :: k in BlanksOrNone(b.answers) ==> !Prefixed(k)
    ensures Steady(b)
  {
    var opts := OptionsOrNone(b.answers);
    LeftsAreOptions(opts);
    forall o, p | o in opts && p in opts && Less(o.blankID, p.blankID) && Less(p.blankID, o.blankID)
      ensures false
    {
      LessIsTransitive(o.blankID, p.blankID, o.blankID);
      LessIsIrreflexive(o.blankID);
    }
  }

  /** The prefix matters: the second trip renames the left item of this matching question. */
  lemma PrefixBreaksSecondTrip() returns (b: Body)
    ensures b.questionType == Matching && !Steady(b) && TripOf(TripOf(b)) != TripOf(b)
  {
    var o := AnswerOption("response_response_x", "", 100.0, rightID := "r");
    b := Body(Matching, "", None, Options([o]), "", "", "");
    assert LeftItems([]) == [] && Init([o]) == [];
    assert LeftItems([o]) == [o];
    assert Bare(o.id) == "response_x";
    assert o in LeftItems([o]);
    TripTwice(b);
  }
}
