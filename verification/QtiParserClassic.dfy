/** Canvas Classic import of items: internal/qti/parser_classic.go. */
module QtiParserClassic {
  import opened QtiModel
  import opened Text

  const RESPONSE_PREFIX := "response_"

  /** The blank or answer name inside a response ident. */
  function Bare(ident: string): string {
    TrimPrefix(ident, RESPONSE_PREFIX)
  }

  /** firstMatText: the first text that is not blank, trimmed. */
  function FirstMatText(material: seq<string>): string {
    if material == [] then ""
    else if TrimSpace(material[0]) != "" then TrimSpace(material[0])
    else FirstMatText(material[1..])
  }

  // ---------- answer keys ----------

  function EqualsOf(rc: RespCondition): seq<VarEqual> {
    rc.cond.direct + rc.cond.underAnd + rc.cond.underOr
  }

  /** Every varequal of the scoring conditions, in order. */
  ghost function AllEquals(rcs: seq<RespCondition>): seq<VarEqual> {
    if rcs == [] then []
    else AllEquals(Init(rcs)) + (if Last(rcs).score > 0.0 then EqualsOf(Last(rcs)) else [])
  }

  /** The varequals that are direct children of scoring conditions, in order. */
  ghost function DirectEquals(rcs: seq<RespCondition>): seq<VarEqual> {
    if rcs == [] then []
    else DirectEquals(Init(rcs)) + (if Last(rcs).score > 0.0 then Last(rcs).cond.direct else [])
  }

  /** The option ids a response's scoring conditions accept. */
  ghost function CorrectIDs(equals: seq<VarEqual>, respident: string): set<string> {
    set ve | ve in equals && (ve.respident == "" || ve.respident == respident) :: ve.value
  }

  method ClassicCorrectIDs(rcs: seq<RespCondition>, respident: string) returns (correct: set<string>)
    ensures correct == CorrectIDs(AllEquals(rcs), respident)
  {
    var equals := CollectEquals(rcs);
    correct := {};
    for i := 0 to |equals|
      invariant correct == CorrectIDs(equals[..i], respident)
    {
      assert equals[..i + 1] == equals[..i] + [equals[i]];
      if equals[i].respident == "" || equals[i].respident == respident {
        correct := correct + {equals[i].value};
      }
    }
    assert equals[..|equals|] == equals;
  }

  method CollectEquals(rcs: seq<RespCondition>) returns (equals: seq<VarEqual>)
    ensures equals == AllEquals(rcs)
  {
    equals := [];
    for i := 0 to |rcs|
      invariant equals == AllEquals(rcs[..i])
    {
      TakeMore(rcs, i);
      if rcs[i].score <= 0.0 {
        continue;
      }
      equals := equals + EqualsOf(rcs[i]);
    }
    assert rcs[..|rcs|] == rcs;
  }

  // ---------- choice ----------

  function Weighed(rl: ResponseLabel, correct: bool): AnswerOption {
    AnswerOption(rl.ident, FirstMatText(rl.material), if correct then 100.0 else 0.0)
  }

  ghost function ChoiceAnswers(lids: seq<ResponseLid>, rcs: seq<RespCondition>): seq<AnswerOption> {
    if lids == [] then []
    else
      var labels := lids[0].labels;
      var correct := CorrectIDs(AllEquals(rcs), lids[0].ident);
      seq(|labels|, i requires 0 <= i < |labels| => Weighed(labels[i], labels[i].ident in correct))
  }

  method BuildChoiceAnswers(lids: seq<ResponseLid>, rcs: seq<RespCondition>) returns (answers: seq<AnswerOption>)
    ensures answers == ChoiceAnswers(lids, rcs)
  {
    answers := [];
    if lids == [] { return; }
    var correct := ClassicCorrectIDs(rcs, lids[0].ident);
    for i := 0 to |lids[0].labels|
      invariant answers == ChoiceAnswers(lids, rcs)[..i]
    {
      var rl := lids[0].labels[i];
      answers := answers + [Weighed(rl, rl.ident in correct)];
    }
  }

  // ---------- short answer ----------

  function NumberedID(n: nat): string {
    "a" + Decimal(n)
  }

  ghost function ShortAnswers(equals: seq<VarEqual>): seq<AnswerOption> {
    seq(|equals|, i requires 0 <= i < |equals| => AnswerOption(NumberedID(i + 1), equals[i].value, 100.0))
  }

  method BuildShortAnswerAnswers(rcs: seq<RespCondition>) returns (answers: seq<AnswerOption>)
    ensures answers == ShortAnswers(AllEquals(rcs))
  {
    var accepted := CollectEquals(rcs);
    answers := [];
    for i := 0 to |accepted|
      invariant answers == ShortAnswers(accepted)[..i]
    {
      answers := answers + [AnswerOption(NumberedID(i + 1), accepted[i].value, 100.0)];
    }
  }

  // ---------- numerical ----------

  ghost function ExactField(fields: seq<MetaField>): string {
    if fields == [] then ""
    else if Last(fields).AnswerExactField? then Last(fields).entry else ExactField(Init(fields))
  }

  ghost function MarginField(fields: seq<MetaField>): string {
    if fields == [] then ""
    else if Last(fields).AnswerMarginField? then Last(fields).entry else MarginField(Init(fields))
  }

  /** strconv.ParseFloat of a trimmed text */
  function Float(n: Numbers, s: string): Option<real> {
    n.float(TrimSpace(s))
  }

  /** The first text that is a number. */
  function FirstFloat(n: Numbers, texts: seq<string>): Option<real> {
    if texts == [] then None
    else if Float(n, texts[0]).Some? then Float(n, texts[0])
    else FirstFloat(n, texts[1..])
  }

  lemma {:induction false} FirstFloatAppend(n: Numbers, a: seq<string>, b: seq<string>)
    ensures FirstFloat(n, a + b) == if FirstFloat(n, a).Some? then FirstFloat(n, a) else FirstFloat(n, b)
  {
    if a == [] {
      assert a + b == b;
    } else {
      FirstFloatAppend(n, a[1..], b);
      assert (a + b)[1..] == a[1..] + b;
    }
  }

  method FirstBound(n: Numbers, primary: seq<string>, secondary: seq<string>) returns (r: Option<real>)
    ensures r == FirstFloat(n, primary + secondary)
  {
    var lists := [primary, secondary];
    FirstFloatAppend(n, primary, secondary);
    for i := 0 to 2
      invariant i >= 1 ==> FirstFloat(n, primary) == None
      invariant i >= 2 ==> FirstFloat(n, secondary) == None
    {
      for j := 0 to |lists[i]|
        invariant FirstFloat(n, lists[i]) == FirstFloat(n, lists[i][j..])
      {
        r := Float(n, lists[i][j]);
        if r.Some? {
          return;
        }
      }
    }
    r := None;
  }

  /** An entry of an imported key before it is numbered. */
  function ExactEntry(exact: string, margin: string := ""): AnswerOption {
    AnswerOption("", exact, 0.0, num := NumberFields(numericalType := "exact_answer", exact := exact, margin := margin))
  }

  function RangeEntry(n: Numbers, text: string, lo: real, hi: real): AnswerOption {
    AnswerOption("", text, 0.0,
      num := NumberFields(numericalType := "range_answer", start := n.format(lo), end := n.format(hi)))
  }

  function RangeText(n: Numbers, lo: real, hi: real): string {
    n.format(lo) + ".." + n.format(hi)
  }

  /** Half the width of a band, computed in float64. */
  function HalfWidth(n: Numbers, lo: real, hi: real): real {
    var m := n.round(n.round(hi - lo) / 2.0);
    if m < 0.0 then -m else m
  }

  /** The entry of an <or> block with a varequal. */
  function BandEntry(n: Numbers, exact: string, band: Option<Bounds>): Option<AnswerOption> {
    var plain := if exact == "" then None else Some(ExactEntry(exact));
    if band.None? then plain
    else
      var lo, hi := FirstFloat(n, band.value.gte + band.value.gt), FirstFloat(n, band.value.lte);
      if lo.None? || hi.None? then plain
      else if band.value.gte == [] && band.value.gt != [] then Some(RangeEntry(n, exact, lo.value, hi.value))
      else if exact == "" then None
      else Some(ExactEntry(exact, n.format(HalfWidth(n, lo.value, hi.value))))
  }

  function NumericalEntry(n: Numbers, c: ConditionVar): Option<AnswerOption> {
    if c.underOr != [] then BandEntry(n, TrimSpace(c.underOr[0].value), c.band)
    else
      var lo, hi := FirstFloat(n, c.own.gte + c.wrapped.gte), FirstFloat(n, c.own.lte + c.wrapped.lte);
      if lo.Some? && hi.Some? then Some(RangeEntry(n, RangeText(n, lo.value, hi.value), lo.value, hi.value))
      else if c.direct != [] && TrimSpace(c.direct[0].value) != ""
      then Some(ExactEntry(TrimSpace(c.direct[0].value)))
      else None
  }

  method BandAnswer(n: Numbers, exact: string, band: Option<Bounds>) returns (r: Option<AnswerOption>)
    ensures r == BandEntry(n, exact, band)
  {
    hide Float, FirstFloat;
    var entry := ExactEntry(exact);
    if band.Some? {
      var lo := FirstBound(n, band.value.gte, band.value.gt);
      var hi := FirstBound(n, band.value.lte, []);
      assert band.value.lte + [] == band.value.lte;
      if lo.Some? && hi.Some? {
        if |band.value.gte| == 0 && |band.value.gt| > 0 {
          return Some(RangeEntry(n, exact, lo.value, hi.value));
        }
        var m := n.round(n.round(hi.value - lo.value) / 2.0);
        if m < 0.0 {
          m := -m;
        }
        entry := ExactEntry(exact, n.format(m));
      }
    }
    return if exact != "" then Some(entry) else None;
  }

  method NumericalAnswerFromCondition(n: Numbers, c: ConditionVar) returns (r: Option<AnswerOption>)
    ensures r == NumericalEntry(n, c)
  {
    hide Float, FirstFloat, TrimSpace, BandEntry;
    if c.underOr != [] {
      r := BandAnswer(n, TrimSpace(c.underOr[0].value), c.band);
      return;
    }
    var gte, lte := c.own.gte + c.wrapped.gte, c.own.lte + c.wrapped.lte;
    assert gte + [] == gte && lte + [] == lte;
    var lo := FirstBound(n, gte, []);
    var hi := FirstBound(n, lte, []);
    if lo.Some? && hi.Some? {
      return Some(RangeEntry(n, RangeText(n, lo.value, hi.value), lo.value, hi.value));
    }
    if |c.direct| > 0 {
      var exact := TrimSpace(c.direct[0].value);
      return if exact != "" then Some(ExactEntry(exact)) else None;
    }
    return None;
  }

  function Numbered(k: nat, entry: AnswerOption): AnswerOption {
    entry.(id := NumberedID(k), weight := 100.0)
  }

  ghost function DecodedNumbers(n: Numbers, rcs: seq<RespCondition>): seq<AnswerOption> {
    if rcs == [] then []
    else
      var before := DecodedNumbers(n, Init(rcs));
      match NumericalEntry(n, Last(rcs).cond)
      case Some(entry) => if Last(rcs).score > 0.0 then before + [Numbered(|before| + 1, entry)] else before
      case None => before
  }

  ghost function NumericalAnswers(n: Numbers, fields: seq<MetaField>, rcs: seq<RespCondition>): seq<AnswerOption> {
    if ExactField(fields) != ""
    then [AnswerOption("a1", ExactField(fields), 100.0, num := NumberFields(margin := MarginField(fields)))]
    else DecodedNumbers(n, rcs)
  }

  method BuildNumericalAnswers(n: Numbers, fields: seq<MetaField>, rcs: seq<RespCondition>)
    returns (answers: seq<AnswerOption>)
    ensures answers == NumericalAnswers(n, fields, rcs)
  {
    hide NumericalEntry;
    var exact, margin := "", "";
    for i := 0 to |fields|
      invariant exact == ExactField(fields[..i]) && margin == MarginField(fields[..i])
    {
      TakeMore(fields, i);
      match fields[i]
      case AnswerExactField(entry) => exact := entry;
      case AnswerMarginField(entry) => margin := entry;
      case _ =>
    }
    assert fields[..|fields|] == fields;
    if exact != "" {
      return [AnswerOption("a1", exact, 100.0, num := NumberFields(margin := margin))];
    }
    answers := [];
    for i := 0 to |rcs|
      invariant answers == DecodedNumbers(n, rcs[..i])
    {
      TakeMore(rcs, i);
      if rcs[i].score <= 0.0 {
        continue;
      }
      var entry := NumericalAnswerFromCondition(n, rcs[i].cond);
      if entry.Some? {
        answers := answers + [Numbered(|answers| + 1, entry.value)];
      }
    }
    assert rcs[..|rcs|] == rcs;
  }

  // ---------- matching ----------

  ghost function FirstValue(equals: seq<VarEqual>, respident: string): string {
    if equals == [] then ""
    else if equals[0].respident == respident then TrimSpace(equals[0].value)
    else FirstValue(equals[1..], respident)
  }

  /** The right id of a left item: the first one its scoring conditions give that is not blank. */
  ghost function CorrectRight(rcs: seq<RespCondition>, respident: string): string {
    if rcs == [] then ""
    else if rcs[0].score > 0.0 && FirstValue(rcs[0].cond.direct, respident) != ""
    then FirstValue(rcs[0].cond.direct, respident)
    else CorrectRight(rcs[1..], respident)
  }

  method FindFirstValue(equals: seq<VarEqual>, respident: string) returns (value: string)
    ensures value == FirstValue(equals, respident)
  {
    value := "";
    for i := 0 to |equals|
      invariant FirstValue(equals, respident) == FirstValue(equals[i..], respident)
    {
      if equals[i].respident == respident {
        value := TrimSpace(equals[i].value);
        return;
      }
    }
  }

  method FindCorrectRight(rcs: seq<RespCondition>, respident: string) returns (right: string)
    ensures right == CorrectRight(rcs, respident)
  {
    right := "";
    for i := 0 to |rcs|
      invariant CorrectRight(rcs, respident) == CorrectRight(rcs[i..], respident)
      invariant right == ""
    {
      if rcs[i].score <= 0.0 {
        continue;
      }
      right := FindFirstValue(rcs[i].cond.direct, respident);
      if right != "" {
        return;
      }
    }
  }

  function LeftLabel(lid: ResponseLid): string {
    if FirstMatText(lid.material) != "" then FirstMatText(lid.material) else Bare(lid.ident)
  }

  function Pair(lid: ResponseLid, right: string): AnswerOption {
    AnswerOption(Bare(lid.ident), LeftLabel(lid), 100.0, left := LeftLabel(lid), rightID := right)
  }

  ghost function Pairs(lids: seq<ResponseLid>, rcs: seq<RespCondition>): seq<AnswerOption> {
    seq(|lids|, i requires 0 <= i < |lids| => Pair(lids[i], CorrectRight(rcs, lids[i].ident)))
  }

  ghost function AllLabels(lids: seq<ResponseLid>): seq<ResponseLabel> {
    if lids == [] then [] else AllLabels(Init(lids)) + Last(lids).labels
  }

  /** The match pool: each labelled option once, at its first occurrence. */
  ghost function Pool(labels: seq<ResponseLabel>): seq<AnswerOption> {
    if labels == [] then []
    else
      var before := Pool(Init(labels));
      var l := Last(labels);
      if l.ident == "" || FirstMatText(l.material) == "" || l.ident in PoolIDs(before) then before
      else before + [AnswerOption(l.ident, FirstMatText(l.material), 0.0, blankID := "_match_options_")]
  }

  ghost function PoolIDs(pool: seq<AnswerOption>): set<string> {
    set o | o in pool :: o.id
  }

  method BuildPool(labels: seq<ResponseLabel>) returns (pool: seq<AnswerOption>)
    ensures pool == Pool(labels)
  {
    hide FirstMatText;
    var seen: set<string> := {};
    pool := [];
    for i := 0 to |labels|
      invariant pool == Pool(labels[..i])
      invariant seen == PoolIDs(pool)
    {
      TakeMore(labels, i);
      var text := FirstMatText(labels[i].material);
      if labels[i].ident == "" || text == "" || labels[i].ident in seen {
        continue;
      }
      seen := seen + {labels[i].ident};
      pool := pool + [AnswerOption(labels[i].ident, text, 0.0, blankID := "_match_options_")];
    }
    assert labels[..|labels|] == labels;
  }

  method BuildMatchingAnswers(lids: seq<ResponseLid>, rcs: seq<RespCondition>) returns (answers: seq<AnswerOption>)
    ensures answers == Pairs(lids, rcs) + Pool(AllLabels(lids))
  {
    hide Pool, CorrectRight, Pair;
    answers := [];
    var labels := [];
    for i := 0 to |lids|
      invariant answers == Pairs(lids, rcs)[..i]
      invariant labels == AllLabels(lids[..i])
    {
      TakeMore(lids, i);
      var right := FindCorrectRight(rcs, lids[i].ident);
      answers := answers + [Pair(lids[i], right)];
      labels := labels + lids[i].labels;
    }
    assert lids[..|lids|] == lids;
    var pool := BuildPool(labels);
    answers := answers + pool;
  }

  // ---------- dropdowns ----------

  /** canvasBlankID */
  function CanvasBlankID(lid: ResponseLid): string {
    if FirstMatText(lid.material) != "" then FirstMatText(lid.material) else Bare(lid.ident)
  }

  ghost function Marked(equals: seq<VarEqual>, respident: string): set<string> {
    set ve | ve in equals && ve.respident == respident :: TrimSpace(ve.value)
  }

  function DropdownOption(rl: ResponseLabel, correct: bool, blank: string): AnswerOption {
    Weighed(rl, correct).(blankID := blank)
  }

  ghost function DropdownOptions(lid: ResponseLid, equals: seq<VarEqual>): seq<AnswerOption> {
    seq(|lid.labels|, i requires 0 <= i < |lid.labels| =>
      DropdownOption(lid.labels[i], lid.labels[i].ident in Marked(equals, lid.ident), CanvasBlankID(lid)))
  }

  ghost function DropdownAnswers(lids: seq<ResponseLid>, equals: seq<VarEqual>): seq<AnswerOption> {
    if lids == [] then [] else DropdownAnswers(Init(lids), equals) + DropdownOptions(Last(lids), equals)
  }

  method CollectMarked(rcs: seq<RespCondition>, respident: string) returns (correct: set<string>)
    ensures correct == Marked(DirectEquals(rcs), respident)
  {
    hide TrimSpace;
    correct := {};
    for i := 0 to |rcs|
      invariant correct == Marked(DirectEquals(rcs[..i]), respident)
    {
      TakeMore(rcs, i);
      if rcs[i].score <= 0.0 {
        continue;
      }
      var direct := rcs[i].cond.direct;
      for j := 0 to |direct|
        invariant correct == Marked(DirectEquals(rcs[..i]) + direct[..j], respident)
      {
        assert direct[..j + 1] == direct[..j] + [direct[j]];
        if direct[j].respident == respident {
          correct := correct + {TrimSpace(direct[j].value)};
        }
      }
      assert direct[..|direct|] == direct;
    }
    assert rcs[..|rcs|] == rcs;
  }

  method BuildDropdown(lid: ResponseLid, rcs: seq<RespCondition>) returns (answers: seq<AnswerOption>)
    ensures answers == DropdownOptions(lid, DirectEquals(rcs))
  {
    answers := [];
    var correct := CollectMarked(rcs, lid.ident);
    for i := 0 to |lid.labels|
      invariant answers == DropdownOptions(lid, DirectEquals(rcs))[..i]
    {
      var rl := lid.labels[i];
      answers := answers + [DropdownOption(rl, rl.ident in correct, CanvasBlankID(lid))];
    }
  }

  method BuildMultipleDropdownAnswers(lids: seq<ResponseLid>, rcs: seq<RespCondition>)
    returns (answers: seq<AnswerOption>)
    ensures answers == DropdownAnswers(lids, DirectEquals(rcs))
  {
    answers := [];
    for i := 0 to |lids|
      invariant answers == DropdownAnswers(lids[..i], DirectEquals(rcs))
    {
      TakeMore(lids, i);
      var options := BuildDropdown(lids[i], rcs);
      answers := answers + options;
    }
    assert lids[..|lids|] == lids;
  }

  // ---------- fill in multiple blanks ----------

  type Accepted = map<string, seq<string>>

  function AcceptedFor(accepted: Accepted, blank: string): seq<string> {
    if blank in accepted then accepted[blank] else []
  }

  /** The add closure: trims, drops blanks and repetitions. */
  function Add(accepted: Accepted, blank: string, text: string): Accepted {
    var t := TrimSpace(text);
    if blank == "" || t == "" || t in AcceptedFor(accepted, blank) then accepted
    else accepted[blank := AcceptedFor(accepted, blank) + [t]]
  }

  ghost function AddLabels(accepted: Accepted, blank: string, labels: seq<ResponseLabel>): Accepted {
    if labels == [] then accepted
    else Add(AddLabels(accepted, blank, Init(labels)), blank, FirstMatText(Last(labels).material))
  }

  ghost function LidAccepted(lids: seq<ResponseLid>): Accepted {
    if lids == [] then map[]
    else AddLabels(LidAccepted(Init(lids)), CanvasBlankID(Last(lids)), Last(lids).labels)
  }

  ghost function LabelTexts(labels: seq<ResponseLabel>): map<string, string> {
    if labels == [] then map[]
    else LabelTexts(Init(labels))[Last(labels).ident := FirstMatText(Last(labels).material)]
  }

  ghost function LabelText(lids: seq<ResponseLid>): map<string, map<string, string>> {
    if lids == [] then map[] else LabelText(Init(lids))[Last(lids).ident := LabelTexts(Last(lids).labels)]
  }

  ghost function LidBlanks(lids: seq<ResponseLid>): map<string, string> {
    if lids == [] then map[] else LidBlanks(Init(lids))[Last(lids).ident := CanvasBlankID(Last(lids))]
  }

  ghost function BlankByRespident(lids: seq<ResponseLid>, strs: seq<ResponseStr>): map<string, string> {
    if strs == [] then LidBlanks(lids)
    else BlankByRespident(lids, Init(strs))[Last(strs).ident := Bare(Last(strs).ident)]
  }

  /** The text a varequal accepts: its value, or the text of the label its value names. */
  function ValueOf(ve: VarEqual, labelText: map<string, map<string, string>>): string {
    var key := TrimSpace(ve.value);
    if ve.respident in labelText && key in labelText[ve.respident] && labelText[ve.respident][key] != ""
    then labelText[ve.respident][key] else ve.value
  }

  function BlankFor(respident: string, blankBy: map<string, string>): string {
    if respident in blankBy then blankBy[respident] else Bare(respident)
  }

  ghost function Collected(
    base: Accepted, equals: seq<VarEqual>,
    blankBy: map<string, string>, labelText: map<string, map<string, string>>): Accepted
  {
    if equals == [] then base
    else
      var before := Collected(base, Init(equals), blankBy, labelText);
      var ve := Last(equals);
      if ve.respident == "" then before
      else Add(before, BlankFor(ve.respident, blankBy), ValueOf(ve, labelText))
  }

  ghost function BlankAnswers(p: Presentation, equals: seq<VarEqual>): Accepted {
    Collected(LidAccepted(p.lids), equals, BlankByRespident(p.lids, p.strs), LabelText(p.lids))
  }

  /** The seen sets the closure keeps beside the lists: their elements. */
  ghost predicate Mirrors(seen: map<string, set<string>>, accepted: Accepted) {
    && seen.Keys == accepted.Keys
    && forall k :: k in seen ==> seen[k] == set t | t in accepted[k]
  }

  method AddText(accepted: Accepted, seen: map<string, set<string>>, blank: string, text: string)
    returns (accepted': Accepted, seen': map<string, set<string>>)
    requires Mirrors(seen, accepted)
    ensures accepted' == Add(accepted, blank, text) && Mirrors(seen', accepted')
  {
    var t := TrimSpace(text);
    accepted', seen' := accepted, seen;
    if blank == "" || t == "" {
      return;
    }
    var known := if blank in seen then seen[blank] else {};
    if t in known {
      return;
    }
    seen' := seen[blank := known + {t}];
    accepted' := accepted[blank := AcceptedFor(accepted, blank) + [t]];
  }

  method CollectLid(lid: ResponseLid, accepted: Accepted, seen: map<string, set<string>>)
    returns (accepted': Accepted, seen': map<string, set<string>>, texts: map<string, string>)
    requires Mirrors(seen, accepted)
    ensures accepted' == AddLabels(accepted, CanvasBlankID(lid), lid.labels) && Mirrors(seen', accepted')
    ensures texts == LabelTexts(lid.labels)
  {
    accepted', seen', texts := accepted, seen, map[];
    for i := 0 to |lid.labels|
      invariant Mirrors(seen', accepted')
      invariant accepted' == AddLabels(accepted, CanvasBlankID(lid), lid.labels[..i])
      invariant texts == LabelTexts(lid.labels[..i])
    {
      TakeMore(lid.labels, i);
      var text := FirstMatText(lid.labels[i].material);
      texts := texts[lid.labels[i].ident := text];
      accepted', seen' := AddText(accepted', seen', CanvasBlankID(lid), text);
    }
    assert lid.labels[..|lid.labels|] == lid.labels;
  }

  method CollectLids(lids: seq<ResponseLid>)
    returns (accepted: Accepted, seen: map<string, set<string>>,
             blankBy: map<string, string>, labelText: map<string, map<string, string>>)
    ensures accepted == LidAccepted(lids) && Mirrors(seen, accepted)
    ensures blankBy == LidBlanks(lids) && labelText == LabelText(lids)
  {
    accepted, seen, blankBy, labelText := map[], map[], map[], map[];
    for i := 0 to |lids|
      invariant accepted == LidAccepted(lids[..i]) && Mirrors(seen, accepted)
      invariant blankBy == LidBlanks(lids[..i]) && labelText == LabelText(lids[..i])
    {
      TakeMore(lids, i);
      var texts;
      accepted, seen, texts := CollectLid(lids[i], accepted, seen);
      blankBy := blankBy[lids[i].ident := CanvasBlankID(lids[i])];
      labelText := labelText[lids[i].ident := texts];
    }
    assert lids[..|lids|] == lids;
  }

  method CollectStrs(lids: seq<ResponseLid>, strs: seq<ResponseStr>, lidBlanks: map<string, string>)
    returns (blankBy: map<string, string>)
    requires lidBlanks == LidBlanks(lids)
    ensures blankBy == BlankByRespident(lids, strs)
  {
    blankBy := lidBlanks;
    for i := 0 to |strs|
      invariant blankBy == BlankByRespident(lids, strs[..i])
    {
      TakeMore(strs, i);
      blankBy := blankBy[strs[i].ident := Bare(strs[i].ident)];
    }
    assert strs[..|strs|] == strs;
  }

  method BuildFillInMultipleBlanksAnswers(p: Presentation, rcs: seq<RespCondition>) returns (answers: Accepted)
    ensures answers == BlankAnswers(p, AllEquals(rcs))
  {
    var accepted, seen, lidBlanks, labelText := CollectLids(p.lids);
    var blankBy := CollectStrs(p.lids, p.strs, lidBlanks);
    var equals := CollectEquals(rcs);
    answers := accepted;
    for i := 0 to |equals|
      invariant Mirrors(seen, answers)
      invariant answers == Collected(accepted, equals[..i], blankBy, labelText)
    {
      TakeMore(equals, i);
      if equals[i].respident == "" {
        continue;
      }
      answers, seen := AddText(answers, seen, BlankFor(equals[i].respident, blankBy), ValueOf(equals[i], labelText));
    }
    assert equals[..|equals|] == equals;
  }

  // ---------- feedback ----------

  datatype Role = CorrectRole | IncorrectRole | GeneralRole | NoRole

  /**
   * unicode.ToLower, exact on its ASCII results: besides A-Z only U+0130 and U+212A
   * lower to ASCII letters; any other code point lowers to one outside ASCII.
   */
  function Lower(c: char): char {
    if 'A' <= c <= 'Z' then (c as int + 32) as char
    else if c == '\U{130}' then 'i'
    else if c == '\U{212A}' then 'k'
    else c
  }

  function ToLower(s: string): (r: string)
    ensures |r| == |s| && forall i :: 0 <= i < |s| ==> r[i] == Lower(s[i])
  {
    seq(|s|, i requires 0 <= i < |s| => Lower(s[i]))
  }

  predicate SaysIncorrect(l: string) {
    HasPrefix(l, "incorrect") || Contains(l, "incorrect_")
  }

  /** normalizeFeedbackIdent */
  function NormalizeFeedbackIdent(id: string): Role {
    var l := ToLower(id);
    if Contains(l, "correct_fb") || HasPrefix(l, "correct") || Contains(l, "correct_comment") then
      if SaysIncorrect(l) then IncorrectRole else CorrectRole
    else if SaysIncorrect(l) then IncorrectRole
    else if Contains(l, "general") || Contains(l, "neutral") then GeneralRole
    else NoRole
  }

  ghost function FeedbackIndex(feedback: seq<Feedback>): map<string, string> {
    if feedback == [] then map[]
    else
      var before := FeedbackIndex(Init(feedback));
      var text := FirstMatText(Last(feedback).material);
      if Last(feedback).ident != "" && text != "" then before[Last(feedback).ident := text] else before
  }

  ghost function Links(rcs: seq<RespCondition>): seq<string> {
    if rcs == [] then [] else Links(Init(rcs)) + Last(rcs).displayFeedback
  }

  /** The text of the last link with this role that names an indexed feedback block. */
  ghost function Linked(links: seq<string>, index: map<string, string>, role: Role): string {
    if links == [] then ""
    else if Last(links) in index && NormalizeFeedbackIdent(Last(links)) == role then index[Last(links)]
    else Linked(Init(links), index, role)
  }

  /** Some comment the importer may pick: a linked one first, else any block whose ident has the role. */
  ghost predicate Resolves(index: map<string, string>, links: seq<string>, role: Role, text: string) {
    var linked := Linked(links, index, role);
    if linked != "" then text == linked
    else if exists id :: id in index && NormalizeFeedbackIdent(id) == role
    then exists id :: id in index && NormalizeFeedbackIdent(id) == role && index[id] == text
    else text == ""
  }

  method IndexFeedback(feedback: seq<Feedback>) returns (index: map<string, string>)
    ensures index == FeedbackIndex(feedback)
  {
    index := map[];
    for i := 0 to |feedback|
      invariant index == FeedbackIndex(feedback[..i])
    {
      TakeMore(feedback, i);
      var text := FirstMatText(feedback[i].material);
      if feedback[i].ident != "" && text != "" {
        index := index[feedback[i].ident := text];
      }
    }
    assert feedback[..|feedback|] == feedback;
  }

  lemma IndexedTextsAreNonempty(feedback: seq<Feedback>)
    ensures forall id :: id in FeedbackIndex(feedback) ==> FeedbackIndex(feedback)[id] != ""
  {
  }

  method FollowLinks(rcs: seq<RespCondition>, index: map<string, string>, role: Role) returns (text: string)
    ensures text == Linked(Links(rcs), index, role)
  {
    text := "";
    for i := 0 to |rcs|
      invariant text == Linked(Links(rcs[..i]), index, role)
    {
      TakeMore(rcs, i);
      var links := rcs[i].displayFeedback;
      assert Links(rcs[..i]) + links[..0] == Links(rcs[..i]);
      for j := 0 to |links|
        invariant text == Linked(Links(rcs[..i]) + links[..j], index, role)
      {
        assert Init(Links(rcs[..i]) + links[..j + 1]) == Links(rcs[..i]) + links[..j];
        if links[j] in index && NormalizeFeedbackIdent(links[j]) == role {
          text := index[links[j]];
        }
      }
      assert links[..|links|] == links;
    }
    assert rcs[..|rcs|] == rcs;
  }

  method ResolveComment(rcs: seq<RespCondition>, feedback: seq<Feedback>, index: map<string, string>, role: Role)
    returns (text: string)
    requires index == FeedbackIndex(feedback)
    ensures Resolves(index, Links(rcs), role, text)
  {
    IndexedTextsAreNonempty(feedback);
    var linked := FollowLinks(rcs, index, role);
    text := linked;
    var todo := index.Keys;
    while todo != {}
      invariant todo <= index.Keys
      invariant linked != "" ==> text == linked
      invariant linked == "" && text == "" ==>
        forall id :: id in index && NormalizeFeedbackIdent(id) == role ==> id in todo
      invariant linked == "" && text != "" ==>
        exists id :: id in index && NormalizeFeedbackIdent(id) == role && index[id] == text
      decreases |todo|
    {
      var id :| id in todo;
      if NormalizeFeedbackIdent(id) == role && text == "" {
        text := index[id];
      }
      todo := todo - {id};
    }
  }

  // ---------- items ----------

  ghost function QuestionTypeEntry(fields: seq<MetaField>): CanvasType {
    if fields == [] then Foreign("")
    else if Last(fields).QuestionTypeField? then Last(fields).canvasType else QuestionTypeEntry(Init(fields))
  }

  ghost function PointsEntry(fields: seq<MetaField>): real {
    if fields == [] then 1.0
    else if Last(fields).PointsField? && Last(fields).points.Some? then Last(fields).points.value
    else PointsEntry(Init(fields))
  }

  method ReadMetadata(fields: seq<MetaField>) returns (canvasType: CanvasType, points: real)
    ensures canvasType == QuestionTypeEntry(fields) && points == PointsEntry(fields)
  {
    canvasType, points := Foreign(""), 1.0;
    for i := 0 to |fields|
      invariant canvasType == QuestionTypeEntry(fields[..i]) && points == PointsEntry(fields[..i])
    {
      TakeMore(fields, i);
      match fields[i]
      case QuestionTypeField(c) => canvasType := c;
      case PointsField(Some(p)) => points := p;
      case _ =>
    }
    assert fields[..|fields|] == fields;
  }

  /** buildClassicAnswers, for items without a calculated block. */
  ghost function AnswersFrom(n: Numbers, t: QuestionType, item: Item): Answers {
    var p, rcs := item.presentation, item.conditions;
    match t
    case MultipleChoice | TrueFalse | MultipleAnswer => Options(ChoiceAnswers(p.lids, rcs))
    case ShortAnswer | FillInTheBlank => Options(ShortAnswers(AllEquals(rcs)))
    case Numerical | Formula => Options(NumericalAnswers(n, item.metadata, rcs))
    case Matching => Options(Pairs(p.lids, rcs) + Pool(AllLabels(p.lids)))
    case FillInMultipleBlanks => Blanks(BlankAnswers(p, AllEquals(rcs)))
    case MultipleDropdown => Options(DropdownAnswers(p.lids, DirectEquals(rcs)))
    case _ => Options([])
  }

  method BuildClassicAnswers(n: Numbers, t: QuestionType, item: Item) returns (answers: Answers)
    ensures answers == AnswersFrom(n, t, item)
  {
    var p, rcs := item.presentation, item.conditions;
    match t
    case MultipleChoice | TrueFalse | MultipleAnswer =>
      var options := BuildChoiceAnswers(p.lids, rcs);
      answers := Options(options);
    case ShortAnswer | FillInTheBlank =>
      var options := BuildShortAnswerAnswers(rcs);
      answers := Options(options);
    case Numerical | Formula =>
      var options := BuildNumericalAnswers(n, item.metadata, rcs);
      answers := Options(options);
    case Matching =>
      var options := BuildMatchingAnswers(p.lids, rcs);
      answers := Options(options);
    case FillInMultipleBlanks =>
      var blanks := BuildFillInMultipleBlanksAnswers(p, rcs);
      answers := Blanks(blanks);
    case MultipleDropdown =>
      var options := BuildMultipleDropdownAnswers(p.lids, rcs);
      answers := Options(options);
    case _ =>
      answers := Options([]);
  }

  /** What classicItemToQuestion may return for an item: its body, or None for an unknown item type. */
  ghost predicate Imports(n: Numbers, item: Item, r: Option<Body>) {
    match MapCanvasClassicType(QuestionTypeEntry(item.metadata))
    case None => r.None?
    case Some(t) =>
      var index, links := FeedbackIndex(item.feedback), Links(item.conditions);
      && r.Some?
      && r.value.questionType == t
      && r.value.text == FirstMatText(item.material)
      && r.value.points == Some(PointsEntry(item.metadata))
      && r.value.answers == AnswersFrom(n, t, item)
      && Resolves(index, links, CorrectRole, r.value.correct)
      && Resolves(index, links, IncorrectRole, r.value.incorrect)
      && Resolves(index, links, GeneralRole, r.value.neutral)
  }

  method ClassicItemToQuestion(n: Numbers, item: Item) returns (r: Option<Body>)
    ensures Imports(n, item, r)
  {
    var canvasType, points := ReadMetadata(item.metadata);
    var t := MapCanvasClassicType(canvasType);
    if t.None? {
      return None;
    }
    var index := IndexFeedback(item.feedback);
    var correct := ResolveComment(item.conditions, item.feedback, index, CorrectRole);
    var incorrect := ResolveComment(item.conditions, item.feedback, index, IncorrectRole);
    var neutral := ResolveComment(item.conditions, item.feedback, index, GeneralRole);
    var answers := BuildClassicAnswers(n, t.value, item);
    return Some(Body(t.value, FirstMatText(item.material), Some(points), answers, correct, incorrect, neutral));
  }
}
