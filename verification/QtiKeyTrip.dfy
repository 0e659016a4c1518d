/**
 * The round trip of choice, short answer, numerical, matching and hot spot answers: which pairs of the exported key the
 * importer finds again, and what it makes of each option.
 */
module QtiKeyTrip {
  import opened QtiModel
  import opened Text
  import opened QtiExporter
  import opened QtiParserClassic

  // ---------- reading an exported answer key ----------

  lemma {:induction false} ConditionsCarryTheKey(pairs: seq<VarEqual>)
    ensures AllEquals(Conditions(pairs)) == pairs
    ensures DirectEquals(Conditions(pairs)) == pairs
    ensures Links(Conditions(pairs)) == []
  {
    if pairs != [] {
      ConditionsCarryTheKey(Init(pairs));
      assert Init(Conditions(pairs)) == Conditions(Init(pairs));
      assert Last(Conditions(pairs)) == Scoring(Last(pairs));
      assert EqualsOf(Scoring(Last(pairs))) == [Last(pairs)];
      assert pairs == Init(pairs) + [Last(pairs)];
    }
  }

  /** The first value paired with ident that is not blank, trimmed. */
  ghost function RightOf(pairs: seq<VarEqual>, ident: string): string {
    if pairs == [] then ""
    else if pairs[0].respident == ident && TrimSpace(pairs[0].value) != "" then TrimSpace(pairs[0].value)
    else RightOf(pairs[1..], ident)
  }

  lemma {:induction false} CorrectRightOfKey(pairs: seq<VarEqual>, ident: string)
    ensures CorrectRight(Conditions(pairs), ident) == RightOf(pairs, ident)
  {
    if pairs != [] {
      CorrectRightOfKey(pairs[1..], ident);
      assert Conditions(pairs)[1..] == Conditions(pairs[1..]);
      assert FirstValue([], ident) == "";
      assert [pairs[0]][1..] == [];
      assert FirstValue([pairs[0]], ident) == if pairs[0].respident == ident then TrimSpace(pairs[0].value) else "";
    }
  }

  lemma {:induction false} KeyPairsMembers(t: QuestionType, opts: seq<AnswerOption>, ve: VarEqual)
    ensures ve in KeyPairs(t, opts) <==> exists o :: o in opts && KeyPair(t, o) == Some(ve)
  {
    if opts != [] {
      KeyPairsMembers(t, Init(opts), ve);
      assert opts == Init(opts) + [Last(opts)];
    }
  }

  // ---------- choice ----------

  predicate IsChoice(t: QuestionType) {
    t.MultipleChoice? || t.TrueFalse? || t.MultipleAnswer?
  }

  /** Some option with this id carries a positive weight. */
  ghost predicate Keyed(opts: seq<AnswerOption>, id: string) {
    exists o :: o in opts && o.weight > 0.0 && o.id == id
  }

  ghost function ChoiceTrip(opts: seq<AnswerOption>): seq<AnswerOption> {
    seq(|opts|, i requires 0 <= i < |opts| =>
      AnswerOption(opts[i].id, TrimSpace(opts[i].text), if Keyed(opts, opts[i].id) then 100.0 else 0.0))
  }

  lemma FirstMatTextOfOne(s: string)
    ensures FirstMatText([s]) == TrimSpace(s)
  {
    assert [s][1..] == [];
    assert FirstMatText([]) == "";
  }

  lemma ChoiceKeyIDs(t: QuestionType, opts: seq<AnswerOption>, id: string)
    requires IsChoice(t)
    ensures id in CorrectIDs(KeyPairs(t, opts), RESPONSE1) <==> Keyed(opts, id)
  {
    var pairs := KeyPairs(t, opts);
    if id in CorrectIDs(pairs, RESPONSE1) {
      var ve :| ve in pairs && ve.value == id;
      KeyPairsMembers(t, opts, ve);
    }
    if Keyed(opts, id) {
      var o :| o in opts && o.weight > 0.0 && o.id == id;
      assert KeyPair(t, o) == Some(VarEqual(RESPONSE1, id));
      KeyPairsMembers(t, opts, VarEqual(RESPONSE1, id));
    }
  }

  lemma ChoiceKeyIsRead(t: QuestionType, opts: seq<AnswerOption>)
    requires IsChoice(t)
    ensures ChoiceAnswers([ResponseLid(RESPONSE1, [], ChoiceLabels(opts))], Conditions(KeyPairs(t, opts)))
         == ChoiceTrip(opts)
  {
    ConditionsCarryTheKey(KeyPairs(t, opts));
    forall i | 0 <= i < |opts|
      ensures FirstMatText([opts[i].text]) == TrimSpace(opts[i].text)
      ensures opts[i].id in CorrectIDs(KeyPairs(t, opts), RESPONSE1) <==> Keyed(opts, opts[i].id)
    {
      FirstMatTextOfOne(opts[i].text);
      ChoiceKeyIDs(t, opts, opts[i].id);
    }
  }

  lemma ChoiceTripTwice(opts: seq<AnswerOption>)
    ensures ChoiceTrip(ChoiceTrip(opts)) == ChoiceTrip(opts)
  {
    var once := ChoiceTrip(opts);
    forall i | 0 <= i < |opts|
      ensures Keyed(once, opts[i].id) <==> Keyed(opts, opts[i].id)
      ensures TrimSpace(once[i].text) == once[i].text
    {
      TrimSpaceTwice(opts[i].text);
      if Keyed(opts, opts[i].id) {
        assert once[i] in once;
      }
    }
  }

  // ---------- short and numerical answers ----------

  /** The texts of the options with a positive weight. */
  ghost function PositiveTexts(opts: seq<AnswerOption>): seq<string> {
    if opts == [] then []
    else PositiveTexts(Init(opts)) + (if Last(opts).weight > 0.0 then [Last(opts).text] else [])
  }

  ghost function ShortTrip(texts: seq<string>): seq<AnswerOption> {
    seq(|texts|, i requires 0 <= i < |texts| => AnswerOption(NumberedID(i + 1), texts[i], 100.0))
  }

  predicate IsTextKeyed(t: QuestionType) {
    t.ShortAnswer? || t.FillInTheBlank? || t.Numerical? || t.Formula?
  }

  lemma {:induction false} TextKeys(t: QuestionType, opts: seq<AnswerOption>)
    requires IsTextKeyed(t)
    ensures KeyPairs(t, opts) == Accepting(RESPONSE1, PositiveTexts(opts))
  {
    if opts != [] {
      TextKeys(t, Init(opts));
    }
  }

  lemma ShortKeyIsRead(t: QuestionType, opts: seq<AnswerOption>)
    requires IsTextKeyed(t)
    ensures ShortAnswers(AllEquals(Conditions(KeyPairs(t, opts)))) == ShortTrip(PositiveTexts(opts))
  {
    ConditionsCarryTheKey(KeyPairs(t, opts));
    TextKeys(t, opts);
  }

  lemma {:induction false} PositiveTextsOfShort(texts: seq<string>)
    ensures PositiveTexts(ShortTrip(texts)) == texts
  {
    if texts != [] {
      PositiveTextsOfShort(Init(texts));
      assert Init(ShortTrip(texts)) == ShortTrip(Init(texts));
    }
  }

  /** The trimmed texts that are not blank. */
  ghost function NonBlank(texts: seq<string>): seq<string> {
    if texts == [] then []
    else NonBlank(Init(texts)) + (if TrimSpace(Last(texts)) != "" then [TrimSpace(Last(texts))] else [])
  }

  ghost function NumericalTrip(texts: seq<string>): seq<AnswerOption> {
    seq(|texts|, i requires 0 <= i < |texts| => Numbered(i + 1, ExactEntry(texts[i])))
  }

  /** An exported condition has no bounds: its entry is the trimmed value, unless that is blank. */
  lemma BoundlessEntry(n: Numbers, p: VarEqual)
    ensures NumericalEntry(n, Scoring(p).cond)
         == if TrimSpace(p.value) != "" then Some(ExactEntry(TrimSpace(p.value))) else None
  {
    var nothing: seq<string> := [];
    assert nothing + nothing == nothing;
  }

  lemma {:induction false} NumbersAreDecoded(n: Numbers, texts: seq<string>)
    ensures DecodedNumbers(n, Conditions(Accepting(RESPONSE1, texts))) == NumericalTrip(NonBlank(texts))
  {
    hide TrimSpace, NumericalEntry;
    if texts != [] {
      NumbersAreDecoded(n, Init(texts));
      BoundlessEntry(n, VarEqual(RESPONSE1, Last(texts)));
      assert Init(Conditions(Accepting(RESPONSE1, texts))) == Conditions(Accepting(RESPONSE1, Init(texts)));
    }
  }

  lemma {:induction false} PositiveTextsOfNumbers(texts: seq<string>)
    ensures PositiveTexts(NumericalTrip(texts)) == texts
  {
    if texts != [] {
      PositiveTextsOfNumbers(Init(texts));
      assert Init(NumericalTrip(texts)) == NumericalTrip(Init(texts));
    }
  }

  lemma {:induction false} NonBlankTwice(texts: seq<string>)
    ensures NonBlank(NonBlank(texts)) == NonBlank(texts)
  {
    if texts != [] {
      NonBlankTwice(Init(texts));
      TrimSpaceTwice(Last(texts));
      var n := NonBlank(texts);
      if TrimSpace(Last(texts)) != "" {
        assert Init(n) == NonBlank(Init(texts)) && Last(n) == TrimSpace(Last(texts));
        assert NonBlank(n) == NonBlank(Init(n)) + [Last(n)];
      } else {
        assert n == NonBlank(Init(texts));
      }
    }
  }

  // ---------- matching ----------

  ghost function MatchingTrip(opts: seq<AnswerOption>): seq<AnswerOption> {
    var lefts := LeftItems(opts);
    seq(|lefts|, i requires 0 <= i < |lefts| => PairTrip(LeftIdent(lefts[i]), KeyPairs(Matching, opts)))
  }

  ghost function PairTrip(ident: string, pairs: seq<VarEqual>): AnswerOption {
    AnswerOption(Bare(ident), Bare(ident), 100.0, left := Bare(ident), rightID := RightOf(pairs, ident))
  }

  lemma {:induction false} MatchingKeysAgree(t: QuestionType, opts: seq<AnswerOption>)
    requires t.Ordering? || t.Categorization?
    ensures KeyPairs(t, opts) == KeyPairs(Matching, opts)
  {
    if opts != [] {
      MatchingKeysAgree(t, Init(opts));
    }
  }

  lemma {:induction false} BlankLabelsMakeNoPool(labels: seq<ResponseLabel>)
    requires forall i :: 0 <= i < |labels| ==> FirstMatText(labels[i].material) == ""
    ensures Pool(labels) == []
  {
    if labels != [] {
      BlankLabelsMakeNoPool(Init(labels));
    }
  }

  lemma {:induction false} PlaceholdersAreNoPool(lids: seq<ResponseLid>)
    requires forall i :: 0 <= i < |lids| ==> lids[i].labels == [ResponseLabel("opt1", [""])]
    ensures forall i :: 0 <= i < |AllLabels(lids)| ==> AllLabels(lids)[i].material == [""]
  {
    if lids != [] {
      PlaceholdersAreNoPool(Init(lids));
    }
  }

  lemma MatchingHasNoPool(lefts: seq<AnswerOption>)
    ensures Pool(AllLabels(MatchingLids(lefts))) == []
  {
    PlaceholdersAreNoPool(MatchingLids(lefts));
    FirstMatTextOfOne("");
    BlankLabelsMakeNoPool(AllLabels(MatchingLids(lefts)));
  }

  lemma {:induction false} LeftsAreOptions(opts: seq<AnswerOption>)
    ensures forall o :: o in LeftItems(opts) ==> o in opts
  {
    if opts != [] {
      LeftsAreOptions(Init(opts));
      assert opts == Init(opts) + [Last(opts)];
    }
  }

  lemma MatchingKeyIsRead(opts: seq<AnswerOption>)
    ensures Pairs(MatchingLids(LeftItems(opts)), Conditions(KeyPairs(Matching, opts)))
         == MatchingTrip(opts)
  {
    forall i | 0 <= i < |LeftItems(opts)| {
      CorrectRightOfKey(KeyPairs(Matching, opts), LeftIdent(LeftItems(opts)[i]));
    }
  }

  /**
   * Caller-side condition on matching questions: no left item's ident carries the
   * response_ prefix twice, and left items whose idents agree up to one prefix agree on their right id.
   */
  ghost predicate SteadyMatching(opts: seq<AnswerOption>) {
    var lefts, pairs := LeftItems(opts), KeyPairs(Matching, opts);
    && (forall o :: o in lefts ==> !HasPrefix(Bare(LeftIdent(o)), RESPONSE_PREFIX))
    && (forall o, o' :: o in lefts && o' in lefts && Bare(LeftIdent(o)) == Bare(LeftIdent(o')) ==>
      RightOf(pairs, LeftIdent(o)) == RightOf(pairs, LeftIdent(o')))
  }

  lemma {:induction false} NoPoolMeansAllLeft(opts: seq<AnswerOption>)
    requires forall i :: 0 <= i < |opts| ==> !InPool(opts[i])
    ensures LeftItems(opts) == opts
  {
    hide InPool;
    if opts != [] {
      NoPoolMeansAllLeft(Init(opts));
      assert opts == Init(opts) + [Last(opts)];
    }
  }

  /** The key pairs of an option list, read from the front. */
  lemma {:induction false} KeyPairsFront(t: QuestionType, opts: seq<AnswerOption>)
    requires opts != []
    ensures KeyPairs(t, opts)
         == (match KeyPair(t, opts[0]) case Some(p) => [p] case None => []) + KeyPairs(t, opts[1..])
  {
    if |opts| == 1 {
      assert Init(opts) == [] && opts[1..] == [];
    } else {
      KeyPairsFront(t, Init(opts));
      assert Init(opts)[1..] == Init(opts[1..]);
    }
  }

  /** Trimmed right ids, the same for equal ids, are read back by id. */
  lemma {:induction false} RightOfTripped(opts: seq<AnswerOption>, id: string, right: string)
    requires forall o :: o in opts && o.id == id ==> o.rightID == right
    requires TrimSpace(right) == right
    requires exists o :: o in opts && o.id == id
    ensures RightOf(KeyPairs(Matching, opts), id) == right
  {
    if right == "" {
      NoRightMeansNone(opts, id);
    } else {
      KeyPairsFront(Matching, opts);
      assert opts[0] in opts;
      var pairs := KeyPairs(Matching, opts);
      if opts[0].id != id {
        assert opts == [opts[0]] + opts[1..];
        RightOfTripped(opts[1..], id, right);
        assert pairs == KeyPairs(Matching, opts[1..]) || pairs[1..] == KeyPairs(Matching, opts[1..]);
      }
    }
  }

  lemma {:induction false} NoRightMeansNone(opts: seq<AnswerOption>, id: string)
    requires forall o :: o in opts && o.id == id ==> o.rightID == ""
    ensures RightOf(KeyPairs(Matching, opts), id) == ""
  {
    if opts != [] {
      KeyPairsFront(Matching, opts);
      assert opts[0] in opts;
      NoRightMeansNone(opts[1..], id);
      var pairs := KeyPairs(Matching, opts);
      assert pairs == KeyPairs(Matching, opts[1..]) || pairs[1..] == KeyPairs(Matching, opts[1..]);
    }
  }

  lemma {:induction false} RightOfIsTrimmed(pairs: seq<VarEqual>, ident: string)
    ensures TrimSpace(RightOf(pairs, ident)) == RightOf(pairs, ident)
  {
    if pairs != [] {
      RightOfIsTrimmed(pairs[1..], ident);
      TrimSpaceTwice(pairs[0].value);
    }
  }

  lemma TrippedIdents(opts: seq<AnswerOption>, i: nat)
    requires i < |MatchingTrip(opts)|
    ensures LeftIdent(MatchingTrip(opts)[i]) == MatchingTrip(opts)[i].id
    ensures !InPool(MatchingTrip(opts)[i])
  {
  }

  /** The second trip of a matching question, item by item. */
  lemma MatchingTripAgain(opts: seq<AnswerOption>, i: nat)
    requires i < |LeftItems(opts)|
    ensures |MatchingTrip(MatchingTrip(opts))| == |MatchingTrip(opts)|
    ensures MatchingTrip(MatchingTrip(opts))[i]
         == PairTrip(MatchingTrip(opts)[i].id, KeyPairs(Matching, MatchingTrip(opts)))
  {
    var once := MatchingTrip(opts);
    forall j | 0 <= j < |once| ensures !InPool(once[j]) {
      TrippedIdents(opts, j);
    }
    NoPoolMeansAllLeft(once);
    TrippedIdents(opts, i);
  }

  lemma SteadyKeepsItem(opts: seq<AnswerOption>, i: nat)
    requires SteadyMatching(opts) && i < |LeftItems(opts)|
    ensures i < |MatchingTrip(MatchingTrip(opts))| && MatchingTrip(MatchingTrip(opts))[i] == MatchingTrip(opts)[i]
  {
    var lefts, pairs, once := LeftItems(opts), KeyPairs(Matching, opts), MatchingTrip(opts);
    assert lefts[i] in lefts && once[i] in once;
    forall o | o in once && o.id == once[i].id ensures o.rightID == once[i].rightID {
      var j :| 0 <= j < |once| && once[j] == o;
      assert lefts[j] in lefts;
    }
    RightOfIsTrimmed(pairs, LeftIdent(lefts[i]));
    RightOfTripped(once, once[i].id, once[i].rightID);
    MatchingTripAgain(opts, i);
  }

  lemma KeptMeansSteady(opts: seq<AnswerOption>)
    requires MatchingTrip(MatchingTrip(opts)) == MatchingTrip(opts)
    ensures SteadyMatching(opts)
  {
    var lefts, once := LeftItems(opts), MatchingTrip(opts);
    forall i | 0 <= i < |lefts|
      ensures !HasPrefix(Bare(LeftIdent(lefts[i])), RESPONSE_PREFIX)
      ensures RightOf(KeyPairs(Matching, opts), LeftIdent(lefts[i]))
           == RightOf(KeyPairs(Matching, once), Bare(LeftIdent(lefts[i])))
    {
      MatchingTripAgain(opts, i);
    }
  }

  lemma SecondTripCounts(opts: seq<AnswerOption>)
    ensures |MatchingTrip(MatchingTrip(opts))| == |MatchingTrip(opts)| == |LeftItems(opts)|
  {
    forall j | 0 <= j < |MatchingTrip(opts)| ensures !InPool(MatchingTrip(opts)[j]) {
      TrippedIdents(opts, j);
    }
    NoPoolMeansAllLeft(MatchingTrip(opts));
  }

  /** A second trip of a matching question keeps its answers exactly when it is steady. */
  lemma MatchingTripTwice(opts: seq<AnswerOption>)
    ensures MatchingTrip(MatchingTrip(opts)) == MatchingTrip(opts) <==> SteadyMatching(opts)
  {
    hide MatchingTrip, SteadyMatching, LeftItems;
    var once := MatchingTrip(opts);
    SecondTripCounts(opts);
    if SteadyMatching(opts) {
      forall i | 0 <= i < |once| ensures MatchingTrip(once)[i] == once[i] {
        SteadyKeepsItem(opts, i);
      }
    } else if MatchingTrip(once) == once {
      KeptMeansSteady(opts);
    }
  }

  // ---------- hot spots ----------

  /** A hot spot comes back as one untitled choice, correct only when its first region's key says "opt1". */
  ghost function HotSpotTrip(opts: seq<AnswerOption>): seq<AnswerOption> {
    var lefts := LeftItems(opts);
    if lefts == [] then []
    else [AnswerOption("opt1", "",
      if "opt1" in CorrectIDs(KeyPairs(HotSpot, opts), LeftIdent(lefts[0])) then 100.0 else 0.0)]
  }

  lemma HotSpotKeyIsRead(opts: seq<AnswerOption>)
    ensures ChoiceAnswers(MatchingLids(LeftItems(opts)), Conditions(KeyPairs(HotSpot, opts))) == HotSpotTrip(opts)
  {
    ConditionsCarryTheKey(KeyPairs(HotSpot, opts));
    FirstMatTextOfOne("");
  }

  // ---------- the answer key survives ----------

  /** With distinct ids, every choice comes back in place, correct exactly when its own weight was positive. */
  lemma ChoiceKeySurvives(opts: seq<AnswerOption>, i: nat)
    requires forall a, b :: 0 <= a < b < |opts| ==> opts[a].id != opts[b].id
    requires i < |opts|
    ensures |ChoiceTrip(opts)| == |opts|
    ensures ChoiceTrip(opts)[i]
         == AnswerOption(opts[i].id, TrimSpace(opts[i].text), if opts[i].weight > 0.0 then 100.0 else 0.0)
  {
    if Keyed(opts, opts[i].id) {
      var o :| o in opts && o.weight > 0.0 && o.id == opts[i].id;
      var j :| 0 <= j < |opts| && opts[j] == o;
    }
  }
}
