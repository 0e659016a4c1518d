/** Canvas Classic export of questions: internal/qti/exporter.go. */
module QtiExporter {
  import opened QtiModel
  import opened Text

  const MATCH_POOL := "_match_options_"
  const RESPONSE1 := "response1"
  const FULL_SCORE := 100.0

  /** parseAnswerOptions: None when the JSON is not an array of options. */
  function ParseAnswerOptions(a: Answers): Option<seq<AnswerOption>> {
    if a.Options? then Some(a.options) else None
  }

  /** `opts, _ := parseAnswerOptions(...)` */
  function OptionsOrNone(a: Answers): seq<AnswerOption> {
    if a.Options? then a.options else []
  }

  /** json.Unmarshal into map[string][]string, with the error dropped. */
  function BlanksOrNone(a: Answers): map<string, seq<string>> {
    match a
    case Blanks(blanks) => blanks
    case PartialBlanks(decoded) => decoded
    case _ => map[]
  }

  // ---------- what the exported tree is ----------

  ghost function ChoiceLabels(opts: seq<AnswerOption>): seq<ResponseLabel> {
    seq(|opts|, i requires 0 <= i < |opts| => ResponseLabel(opts[i].id, [opts[i].text]))
  }

  function LeftIdent(o: AnswerOption): string {
    if o.id == "" then o.left else o.id
  }

  /** Entries of the right-hand match pool, which are no left items. */
  predicate InPool(o: AnswerOption) {
    o.blankID == MATCH_POOL
  }

  ghost function LeftItems(opts: seq<AnswerOption>): seq<AnswerOption> {
    if opts == [] then []
    else LeftItems(Init(opts)) + (if InPool(Last(opts)) then [] else [Last(opts)])
  }

  ghost function MatchingLids(lefts: seq<AnswerOption>): seq<ResponseLid> {
    seq(|lefts|, i requires 0 <= i < |lefts| =>
      ResponseLid(LeftIdent(lefts[i]), [], [ResponseLabel("opt1", [""])]))
  }

  ghost function BlankIDs(opts: seq<AnswerOption>): set<string> {
    set o | o in opts :: o.blankID
  }

  ghost function InBlank(opts: seq<AnswerOption>, blank: string): seq<AnswerOption> {
    if opts == [] then []
    else InBlank(Init(opts), blank) + (if Last(opts).blankID == blank then [Last(opts)] else [])
  }

  ghost function DropdownLids(opts: seq<AnswerOption>, keys: seq<string>): seq<ResponseLid> {
    seq(|keys|, i requires 0 <= i < |keys| => ResponseLid(keys[i], [], ChoiceLabels(InBlank(opts, keys[i]))))
  }

  ghost function BlankStrs(keys: seq<string>): seq<ResponseStr> {
    seq(|keys|, i requires 0 <= i < |keys| => ResponseStr(keys[i]))
  }

  /** The interaction elements of a question; None when its answers do not parse. */
  ghost function PresentationOf(b: Body): Option<Presentation> {
    match b.questionType
    case MultipleChoice | TrueFalse | MultipleAnswer =>
      if b.answers.Options?
      then Some(Presentation([ResponseLid(RESPONSE1, [], ChoiceLabels(b.answers.options))], []))
      else None
    case ShortAnswer | FillInTheBlank | Numerical | Formula | Essay =>
      Some(Presentation([], [ResponseStr(RESPONSE1)]))
    case Matching | Ordering | Categorization | HotSpot =>
      if b.answers.Options? then Some(Presentation(MatchingLids(LeftItems(b.answers.options)), [])) else None
    case MultipleDropdown =>
      if b.answers.Options?
      then Some(Presentation(DropdownLids(b.answers.options, SortedKeys(BlankIDs(b.answers.options))), []))
      else None
    case FillInMultipleBlanks =>
      Some(Presentation([], BlankStrs(SortedKeys(BlanksOrNone(b.answers).Keys))))
    case FileUpload | TextOnly | Unlisted(_) => Some(Presentation([], []))
  }

  /** The (respident, value) pair an option contributes to resprocessing, by question type. */
  function KeyPair(t: QuestionType, o: AnswerOption): Option<VarEqual> {
    match t
    case MultipleChoice | TrueFalse | MultipleAnswer =>
      if o.weight > 0.0 then Some(VarEqual(RESPONSE1, o.id)) else None
    case ShortAnswer | FillInTheBlank | Numerical | Formula =>
      if o.weight > 0.0 then Some(VarEqual(RESPONSE1, o.text)) else None
    case Matching | Ordering | Categorization | HotSpot =>
      if o.rightID != "" then Some(VarEqual(o.id, o.rightID)) else None
    case MultipleDropdown =>
      if o.weight > 0.0 then Some(VarEqual(o.blankID, o.id)) else None
    case _ => None
  }

  ghost function KeyPairs(t: QuestionType, opts: seq<AnswerOption>): seq<VarEqual> {
    if opts == [] then []
    else KeyPairs(t, Init(opts)) + (match KeyPair(t, Last(opts)) case Some(p) => [p] case None => [])
  }

  ghost function Accepting(blank: string, accepted: seq<string>): seq<VarEqual> {
    seq(|accepted|, i requires 0 <= i < |accepted| => VarEqual(blank, accepted[i]))
  }

  ghost function BlankPairs(blanks: map<string, seq<string>>, keys: seq<string>): seq<VarEqual>
    requires forall k :: k in keys ==> k in blanks
  {
    if keys == [] then []
    else BlankPairs(blanks, Init(keys)) + Accepting(Last(keys), blanks[Last(keys)])
  }

  function Scoring(p: VarEqual): RespCondition {
    RespCondition(FULL_SCORE, ConditionVar([p]))
  }

  ghost function Conditions(pairs: seq<VarEqual>): seq<RespCondition> {
    seq(|pairs|, i requires 0 <= i < |pairs| => Scoring(pairs[i]))
  }

  /** The answer key a question is exported with. */
  ghost function KeyOf(b: Body): seq<VarEqual> {
    if b.questionType.FillInMultipleBlanks?
    then BlankPairs(BlanksOrNone(b.answers), SortedKeys(BlanksOrNone(b.answers).Keys))
    else KeyPairs(b.questionType, OptionsOrNone(b.answers))
  }

  function FeedbackOf(b: Body): seq<Feedback> {
    (if b.correct != "" then [Feedback("correct_fb", [b.correct])] else []) +
    (if b.incorrect != "" then [Feedback("incorrect_fb", [b.incorrect])] else []) +
    (if b.neutral != "" then [Feedback("general_fb", [b.neutral])] else [])
  }

  function CanvasTypeOf(t: QuestionType): CanvasType {
    match MapUnifiedToCanvasClassic(t)
    case Some(c) => c
    case None => EssayQuestion
  }

  function PointsOf(b: Body): real {
    if b.points.Some? then b.points.value else 1.0
  }

  /** The item a question is exported as. */
  ghost function ItemOf(q: Question): Option<Item> {
    match PresentationOf(q.body)
    case None => None
    case Some(p) => Some(Item(
      if q.id == 0 then ByPosition(q.position) else ById(q.id),
      [QuestionTypeField(CanvasTypeOf(q.body.questionType)), PointsField(Some(PointsOf(q.body)))],
      [q.body.text], p, Conditions(KeyOf(q.body)), FeedbackOf(q.body)))
  }

  /** Items of different questions have different idents: by id, and without one by position. */
  lemma IdentsAreApart(q: Question, r: Question)
    requires ItemOf(q).Some? && ItemOf(r).Some?
    ensures ItemOf(q).value.ident == ItemOf(r).value.ident <==> q.id == r.id && (q.id == 0 ==> q.position == r.position)
  {
    hide PresentationOf, KeyOf, FeedbackOf;
  }

  ghost predicate HasResponse(p: Presentation, ident: string) {
    || (exists i :: 0 <= i < |p.lids| && p.lids[i].ident == ident)
    || (exists i :: 0 <= i < |p.strs| && p.strs[i].ident == ident)
  }

  /** In a type that is written with left items, no left item with an id gives the pair. */
  ghost predicate IsStray(b: Body, p: VarEqual) {
    && b.questionType in {Matching, Ordering, Categorization, HotSpot}
    && forall o :: o in OptionsOrNone(b.answers) && o.rightID == p.value && o.id == p.respident ==>
         InPool(o) || o.id == ""
  }

  lemma {:induction false} LeftItemsByPlace(opts: seq<AnswerOption>, o: AnswerOption)
    ensures o in LeftItems(opts) <==> o in opts && !InPool(o)
  {
    if opts != [] {
      LeftItemsByPlace(Init(opts), o);
      assert opts == Init(opts) + [Last(opts)];
    }
  }

  lemma {:induction false} PairHasOption(t: QuestionType, opts: seq<AnswerOption>, p: VarEqual)
    returns (o: AnswerOption)
    requires p in KeyPairs(t, opts)
    ensures o in opts && KeyPair(t, o) == Some(p)
  {
    if p in KeyPairs(t, Init(opts)) {
      o := PairHasOption(t, Init(opts), p);
    } else {
      o := Last(opts);
    }
  }

  lemma {:induction false} BlankPairHasKey(blanks: map<string, seq<string>>, keys: seq<string>, p: VarEqual)
    requires (forall k :: k in keys ==> k in blanks) && p in BlankPairs(blanks, keys)
    ensures p.respident in keys
  {
    if keys != [] {
      assert keys == Init(keys) + [Last(keys)];
      if p in BlankPairs(blanks, Init(keys)) {
        BlankPairHasKey(blanks, Init(keys), p);
      }
    }
  }

  /** Every scoring condition of an item is for a response that it offers, unless a pair has no id or is in the pool. */
  lemma KeyNamesResponses(b: Body, p: VarEqual)
    requires PresentationOf(b).Some? && p in KeyOf(b) && !IsStray(b, p)
    ensures HasResponse(PresentationOf(b).value, p.respident)
  {
    hide LeftItems, InBlank, ChoiceLabels, SortedKeys;
    var presentation, t := PresentationOf(b).value, b.questionType;
    if t.FillInMultipleBlanks? {
      var keys := SortedKeys(BlanksOrNone(b.answers).Keys);
      BlankPairHasKey(BlanksOrNone(b.answers), keys, p);
      var i :| 0 <= i < |keys| && keys[i] == p.respident;
      assert presentation.strs[i].ident == p.respident;
    } else {
      var opts := OptionsOrNone(b.answers);
      var o := PairHasOption(t, opts, p);
      if t in {Matching, Ordering, Categorization, HotSpot} {
        var left :| left in opts && left.rightID == p.value && left.id == p.respident && !InPool(left) && left.id != "";
        LeftItemsByPlace(opts, left);
        var i :| 0 <= i < |LeftItems(opts)| && LeftItems(opts)[i] == left;
        assert presentation.lids[i].ident == p.respident;
      } else if t.MultipleDropdown? {
        var keys := SortedKeys(BlankIDs(opts));
        assert o.blankID in keys;
        var i :| 0 <= i < |keys| && keys[i] == p.respident;
        assert presentation.lids[i].ident == p.respident;
      } else if t in {MultipleChoice, TrueFalse, MultipleAnswer} {
        assert presentation.lids[0].ident == RESPONSE1;
      } else {
        assert presentation.strs[0].ident == RESPONSE1;
      }
    }
  }

  // ---------- the writers ----------

  method WriteChoiceLabels(opts: seq<AnswerOption>) returns (labels: seq<ResponseLabel>)
    ensures labels == ChoiceLabels(opts)
  {
    labels := [];
    for i := 0 to |opts|
      invariant labels == ChoiceLabels(opts)[..i]
    {
      labels := labels + [ResponseLabel(opts[i].id, [opts[i].text])];
    }
  }

  method WriteMatchingLikePresentation(opts: seq<AnswerOption>) returns (lids: seq<ResponseLid>)
    ensures lids == MatchingLids(LeftItems(opts))
  {
    lids := [];
    for i := 0 to |opts|
      invariant lids == MatchingLids(LeftItems(opts[..i]))
    {
      TakeMore(opts, i);
      if InPool(opts[i]) {
        continue;
      }
      lids := lids + [ResponseLid(LeftIdent(opts[i]), [], [ResponseLabel("opt1", [""])])];
    }
    assert opts[..|opts|] == opts;
  }

  lemma InBlankMore(opts: seq<AnswerOption>, i: nat, blank: string)
    requires i < |opts|
    ensures InBlank(opts[..i + 1], blank)
         == InBlank(opts[..i], blank) + (if opts[i].blankID == blank then [opts[i]] else [])
  {
    TakeMore(opts, i);
  }

  lemma InBlankEmpty(opts: seq<AnswerOption>, blank: string)
    ensures InBlank(opts, blank) == [] <==> blank !in BlankIDs(opts)
  {
    if opts != [] {
      InBlankEmpty(Init(opts), blank);
      assert forall o :: o in opts <==> o in Init(opts) || o == Last(opts);
    }
  }

  lemma NothingInBlank()
    ensures forall blank :: InBlank([], blank) == []
  {
  }

  /** Groups the options by blank id, keeping their order. */
  method GroupByBlank(opts: seq<AnswerOption>) returns (blanks: map<string, seq<AnswerOption>>)
    ensures blanks.Keys == BlankIDs(opts)
    ensures forall k :: k in blanks ==> blanks[k] == InBlank(opts, k)
  {
    hide InBlank;
    NothingInBlank();
    blanks := map[];
    for i := 0 to |opts|
      invariant blanks.Keys == BlankIDs(opts[..i])
      invariant forall k :: k in blanks ==> blanks[k] == InBlank(opts[..i], k)
    {
      var k := opts[i].blankID;
      forall b { InBlankMore(opts, i, b); }
      InBlankEmpty(opts[..i], k);
      assert opts[..i + 1] == opts[..i] + [opts[i]];
      blanks := blanks[k := (if k in blanks then blanks[k] else []) + [opts[i]]];
    }
    assert opts[..|opts|] == opts;
  }

  method WriteDropdownPresentation(opts: seq<AnswerOption>) returns (lids: seq<ResponseLid>)
    ensures lids == DropdownLids(opts, SortedKeys(BlankIDs(opts)))
  {
    hide SortedKeys, BlankIDs, InBlank, ChoiceLabels;
    var blanks := GroupByBlank(opts);
    var keys := CollectAndSort(blanks.Keys);
    lids := [];
    for i := 0 to |keys|
      invariant |lids| == i
      invariant forall j :: 0 <= j < i ==> lids[j] == ResponseLid(keys[j], [], ChoiceLabels(InBlank(opts, keys[j])))
    {
      assert keys[i] in keys;
      var labels := WriteChoiceLabels(blanks[keys[i]]);
      lids := lids + [ResponseLid(keys[i], [], labels)];
    }
  }

  method WriteBlankStrs(blanks: map<string, seq<string>>) returns (strs: seq<ResponseStr>)
    ensures strs == BlankStrs(SortedKeys(blanks.Keys))
  {
    hide SortedKeys;
    var keys := CollectAndSort(blanks.Keys);
    strs := [];
    for i := 0 to |keys|
      invariant strs == BlankStrs(keys)[..i]
    {
      strs := strs + [ResponseStr(keys[i])];
    }
  }

  method WriteItemPresentation(b: Body) returns (r: Option<Presentation>)
    ensures r == PresentationOf(b)
  {
    match b.questionType
    case MultipleChoice | TrueFalse | MultipleAnswer =>
      var opts := ParseAnswerOptions(b.answers);
      if opts.None? { return None; }
      var labels := WriteChoiceLabels(opts.value);
      return Some(Presentation([ResponseLid(RESPONSE1, [], labels)], []));
    case ShortAnswer | FillInTheBlank | Numerical | Formula | Essay =>
      return Some(Presentation([], [ResponseStr(RESPONSE1)]));
    case Matching | Ordering | Categorization | HotSpot =>
      var opts := ParseAnswerOptions(b.answers);
      if opts.None? { return None; }
      var lids := WriteMatchingLikePresentation(opts.value);
      return Some(Presentation(lids, []));
    case MultipleDropdown =>
      var opts := ParseAnswerOptions(b.answers);
      if opts.None? { return None; }
      var lids := WriteDropdownPresentation(opts.value);
      return Some(Presentation(lids, []));
    case FillInMultipleBlanks =>
      var strs := WriteBlankStrs(BlanksOrNone(b.answers));
      return Some(Presentation([], strs));
    case FileUpload | TextOnly | Unlisted(_) =>
      return Some(Presentation([], []));
  }

  method WriteAccepting(blank: string, accepted: seq<string>) returns (conditions: seq<RespCondition>)
    ensures conditions == Conditions(Accepting(blank, accepted))
  {
    conditions := [];
    for i := 0 to |accepted|
      invariant conditions == Conditions(Accepting(blank, accepted[..i]))
    {
      conditions := conditions + [Scoring(VarEqual(blank, accepted[i]))];
    }
    assert accepted[..|accepted|] == accepted;
  }

  lemma BlankPairsMore(blanks: map<string, seq<string>>, keys: seq<string>, i: nat)
    requires i < |keys| && forall k :: k in keys ==> k in blanks
    ensures keys[i] in blanks
    ensures Conditions(BlankPairs(blanks, keys[..i + 1]))
         == Conditions(BlankPairs(blanks, keys[..i])) + Conditions(Accepting(keys[i], blanks[keys[i]]))
  {
    TakeMore(keys, i);
    assert keys[i] in keys;
  }

  method WriteBlankConditions(blanks: map<string, seq<string>>, keys: seq<string>)
    returns (conditions: seq<RespCondition>)
    requires forall k :: k in keys ==> k in blanks
    ensures conditions == Conditions(BlankPairs(blanks, keys))
  {
    conditions := [];
    for i := 0 to |keys|
      invariant conditions == Conditions(BlankPairs(blanks, keys[..i]))
    {
      BlankPairsMore(blanks, keys, i);
      var more := WriteAccepting(keys[i], blanks[keys[i]]);
      conditions := conditions + more;
    }
    assert keys[..|keys|] == keys;
  }

  method WriteOptionConditions(t: QuestionType, opts: seq<AnswerOption>) returns (conditions: seq<RespCondition>)
    ensures conditions == Conditions(KeyPairs(t, opts))
  {
    conditions := [];
    for i := 0 to |opts|
      invariant conditions == Conditions(KeyPairs(t, opts[..i]))
    {
      TakeMore(opts, i);
      var pair := KeyPair(t, opts[i]);
      if pair.Some? {
        conditions := conditions + [Scoring(pair.value)];
      }
    }
    assert opts[..|opts|] == opts;
  }

  method WriteItemRespProcessing(b: Body) returns (conditions: seq<RespCondition>)
    ensures conditions == Conditions(KeyOf(b))
    ensures forall c :: c in conditions ==> c.score == 100.0
  {
    if b.questionType.FillInMultipleBlanks? {
      var keys := CollectAndSort(BlanksOrNone(b.answers).Keys);
      conditions := WriteBlankConditions(BlanksOrNone(b.answers), keys);
    } else {
      conditions := WriteOptionConditions(b.questionType, OptionsOrNone(b.answers));
    }
  }

  method BuildItem(q: Question) returns (item: Option<Item>)
    ensures item == ItemOf(q)
  {
    var presentation := WriteItemPresentation(q.body);
    if presentation.None? { return None; }
    var conditions := WriteItemRespProcessing(q.body);
    return Some(Item(
      if q.id == 0 then ByPosition(q.position) else ById(q.id),
      [QuestionTypeField(CanvasTypeOf(q.body.questionType)), PointsField(Some(PointsOf(q.body)))],
      [q.body.text], presentation.value, conditions, FeedbackOf(q.body)));
  }
}
