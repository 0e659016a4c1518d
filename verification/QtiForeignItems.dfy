/** What the importer reads out of any Canvas item, whoever wrote it, position by position. */
module QtiForeignItems {
  import opened QtiModel
  import opened Text
  import opened QtiParserClassic

  // ---------- conditions ----------

  ghost predicate Names(ves: seq<VarEqual>, respident: string, value: string) {
    exists k :: 0 <= k < |ves| && ves[k].value == value && (ves[k].respident == "" || ves[k].respident == respident)
  }

  /** A condition with a positive score names the value for the response, directly, under <and> or under <or>. */
  ghost predicate Accepts(rc: RespCondition, respident: string, value: string) {
    && rc.score > 0.0
    && (|| Names(rc.cond.direct, respident, value) || Names(rc.cond.underAnd, respident, value)
        || Names(rc.cond.underOr, respident, value))
  }

  ghost predicate Scores(rc: RespCondition, ve: VarEqual) {
    rc.score > 0.0 && (ve in rc.cond.direct || ve in rc.cond.underAnd || ve in rc.cond.underOr)
  }

  lemma {:induction false} InAllEquals(rcs: seq<RespCondition>, ve: VarEqual)
    ensures ve in AllEquals(rcs) <==> exists j :: 0 <= j < |rcs| && Scores(rcs[j], ve)
  {
    if rcs != [] {
      InAllEquals(Init(rcs), ve);
      assert ve in EqualsOf(Last(rcs)) && Last(rcs).score > 0.0 <==> Scores(rcs[|rcs| - 1], ve);
      assert forall j :: 0 <= j < |rcs| - 1 ==> Init(rcs)[j] == rcs[j];
    }
  }

  lemma NamesAnElement(ves: seq<VarEqual>, respident: string, value: string)
    ensures Names(ves, respident, value) <==>
      exists ve :: ve in ves && ve.value == value && (ve.respident == "" || ve.respident == respident)
  {
    if Names(ves, respident, value) {
      var k :| 0 <= k < |ves| && ves[k].value == value && (ves[k].respident == "" || ves[k].respident == respident);
      assert ves[k] in ves;
    }
  }

  lemma {:induction false} CorrectIDsByPlace(rcs: seq<RespCondition>, respident: string, value: string)
    ensures value in CorrectIDs(AllEquals(rcs), respident)
       <==> exists j :: 0 <= j < |rcs| && Accepts(rcs[j], respident, value)
  {
    hide AllEquals, Names;
    if value in CorrectIDs(AllEquals(rcs), respident) {
      var ve :| ve in AllEquals(rcs) && ve.value == value && (ve.respident == "" || ve.respident == respident);
      InAllEquals(rcs, ve);
      var j :| 0 <= j < |rcs| && Scores(rcs[j], ve);
      var c := rcs[j].cond;
      NamesAnElement(c.direct, respident, value);
      NamesAnElement(c.underAnd, respident, value);
      NamesAnElement(c.underOr, respident, value);
      assert Accepts(rcs[j], respident, value);
    }
    if j :| 0 <= j < |rcs| && Accepts(rcs[j], respident, value) {
      var c := rcs[j].cond;
      NamesAnElement(c.direct, respident, value);
      NamesAnElement(c.underAnd, respident, value);
      NamesAnElement(c.underOr, respident, value);
      var ve :| Scores(rcs[j], ve) && ve.value == value && (ve.respident == "" || ve.respident == respident);
      InAllEquals(rcs, ve);
    }
  }

  // ---------- texts ----------

  /** The first text that is not blank is read, trimmed; without one the empty text. */
  lemma {:induction false} FirstTextIsRead(material: seq<string>)
    ensures if exists i :: 0 <= i < |material| && TrimSpace(material[i]) != "" then
              exists i :: 0 <= i < |material| && FirstMatText(material) == TrimSpace(material[i]) != ""
                && forall j :: 0 <= j < i ==> TrimSpace(material[j]) == ""
            else FirstMatText(material) == ""
  {
    hide TrimSpace;
    if material != [] && TrimSpace(material[0]) == "" {
      FirstTextIsRead(material[1..]);
      assert forall i :: 0 <= i < |material| - 1 ==> material[1..][i] == material[i + 1];
      if exists i :: 0 <= i < |material[1..]| && TrimSpace(material[1..][i]) != "" {
        var i :| 0 <= i < |material| - 1 && FirstMatText(material[1..]) == TrimSpace(material[1..][i]) != ""
          && forall j :: 0 <= j < i ==> TrimSpace(material[1..][j]) == "";
        assert FirstMatText(material) == TrimSpace(material[i + 1]);
        assert forall j :: 0 < j < i + 1 ==> TrimSpace(material[j]) == TrimSpace(material[1..][j - 1]);
      } else {
        assert forall i :: 0 < i < |material| ==> TrimSpace(material[i]) == TrimSpace(material[1..][i - 1]);
      }
    }
  }

  // ---------- choice ----------

  /**
   * A choice question takes the labels of its first response in order; option i is correct exactly when a condition of
   * positive score has, directly or under <and> or <or>, a varequal with that label's ident for the response or none.
   */
  lemma ChoiceItemIsRead(n: Numbers, item: Item, r: Option<Body>)
    requires Imports(n, item, r) && r.Some? && r.value.questionType in {MultipleChoice, TrueFalse, MultipleAnswer}
    ensures r.value.answers.Options?
    ensures var lids, opts := item.presentation.lids, r.value.answers.options;
      if lids == [] then opts == []
      else
        && |opts| == |lids[0].labels|
        && forall i :: 0 <= i < |opts| ==>
             && opts[i].id == lids[0].labels[i].ident && opts[i].text == FirstMatText(lids[0].labels[i].material)
             && opts[i].weight == if exists j :: 0 <= j < |item.conditions|
                                         && Accepts(item.conditions[j], lids[0].ident, lids[0].labels[i].ident)
                                  then 100.0 else 0.0
  {
    hide Accepts, CorrectIDs, AllEquals, Resolves;
    var lids := item.presentation.lids;
    if lids != [] {
      forall i | 0 <= i < |lids[0].labels| {
        CorrectIDsByPlace(item.conditions, lids[0].ident, lids[0].labels[i].ident);
      }
    }
  }

  /** Two right options under one <and>. */
  lemma AndKeyIsRead(n: Numbers, item: Item, r: Option<Body>)
    requires Imports(n, item, r) && item.metadata == [QuestionTypeField(MultipleAnswersQuestion)]
    requires item.presentation.lids == [ResponseLid("response1", [],
      [ResponseLabel("x", ["X"]), ResponseLabel("y", ["Y"]), ResponseLabel("z", ["Z"])])]
    requires item.conditions == [RespCondition(100.0, ConditionVar(
      [], underAnd := [VarEqual("response1", "x"), VarEqual("response1", "y")]))]
    ensures r.Some? && r.value.answers.Options? && |r.value.answers.options| == 3
    ensures var o := r.value.answers.options; o[0].weight == 100.0 && o[1].weight == 100.0 && o[2].weight == 0.0
  {
    hide AnswersFrom, Resolves, Accepts, FirstMatText;
    AndAccepts();
    ChoiceItemIsRead(n, item, r);
  }

  lemma AndAccepts()
    ensures var rc := RespCondition(
        100.0, ConditionVar([], underAnd := [VarEqual("response1", "x"), VarEqual("response1", "y")]));
      Accepts(rc, "response1", "x") && Accepts(rc, "response1", "y") && !Accepts(rc, "response1", "z")
  {
    var ves := [VarEqual("response1", "x"), VarEqual("response1", "y")];
    assert ves[0].value == "x" && ves[1].value == "y";
  }

  // ---------- short answers ----------

  /** How many varequals count. */
  function Counted(rcs: seq<RespCondition>): nat {
    if rcs == [] then 0
    else
      var c := Last(rcs).cond;
      Counted(Init(rcs)) + if Last(rcs).score > 0.0 then |c.direct| + |c.underAnd| + |c.underOr| else 0
  }

  /** The values stand in s from place p on. */
  ghost predicate ValuesAt(s: seq<AnswerOption>, p: nat, ves: seq<VarEqual>) {
    p + |ves| <= |s| && forall k :: 0 <= k < |ves| ==> s[p + k].text == ves[k].value
  }

  ghost predicate EqualsAt(s: seq<VarEqual>, p: nat, ves: seq<VarEqual>) {
    p + |ves| <= |s| && s[p..p + |ves|] == ves
  }

  lemma {:induction false} AllEqualsByPlace(rcs: seq<RespCondition>, j: nat)
    requires j < |rcs|
    ensures |AllEquals(rcs)| == Counted(rcs)
    ensures rcs[j].score > 0.0 ==> EqualsAt(AllEquals(rcs), Counted(rcs[..j]), EqualsOf(rcs[j]))
  {
    hide EqualsOf;
    var n := |rcs| - 1;
    EqualsCount(rcs[n]);
    if n > 0 {
      AllEqualsByPlace(Init(rcs), if j < n then j else 0);
    }
    var p, more := Counted(rcs[..j]), if rcs[n].score > 0.0 then EqualsOf(rcs[n]) else [];
    SlicesOfAppend(AllEquals(Init(rcs)), more, p, p + |EqualsOf(rcs[j])|);
    if j < n {
      assert Init(rcs)[..j] == rcs[..j];
    } else {
      assert Init(rcs) == rcs[..j];
    }
  }

  lemma EqualsCount(rc: RespCondition)
    ensures |EqualsOf(rc)| == |rc.cond.direct| + |rc.cond.underAnd| + |rc.cond.underOr|
  {
  }

  /** Every value that counts is an accepted answer: condition by condition, direct ones first, then and, then or. */
  lemma ShortAnswerItemIsRead(n: Numbers, item: Item, r: Option<Body>)
    requires Imports(n, item, r) && r.Some? && r.value.questionType in {ShortAnswer, FillInTheBlank}
    ensures r.value.answers.Options?
    ensures var rcs, opts := item.conditions, r.value.answers.options;
      && |opts| == Counted(rcs)
      && (forall i :: 0 <= i < |opts| ==> opts[i] == AnswerOption("a" + Decimal(i + 1), opts[i].text, 100.0))
      && forall j :: 0 <= j < |rcs| && rcs[j].score > 0.0 ==>
           var c, p := rcs[j].cond, Counted(rcs[..j]);
           && ValuesAt(opts, p, c.direct)
           && ValuesAt(opts, p + |c.direct|, c.underAnd)
           && ValuesAt(opts, p + |c.direct| + |c.underAnd|, c.underOr)
  {
    hide Resolves, AllEquals, Counted, Decimal;
    var rcs, opts := item.conditions, r.value.answers.options;
    var equals := AllEquals(rcs);
    assert opts == ShortAnswers(equals);
    if rcs == [] {
      NothingCounts();
    } else {
      AllEqualsByPlace(rcs, 0);
    }
    forall j | 0 <= j < |rcs| && rcs[j].score > 0.0
      ensures var c, p := rcs[j].cond, Counted(rcs[..j]);
        && ValuesAt(opts, p, c.direct)
        && ValuesAt(opts, p + |c.direct|, c.underAnd)
        && ValuesAt(opts, p + |c.direct| + |c.underAnd|, c.underOr)
    {
      AllEqualsByPlace(rcs, j);
      ValuesInOrder(equals, Counted(rcs[..j]), rcs[j]);
    }
  }

  lemma NothingCounts()
    ensures Counted([]) == 0 && AllEquals([]) == []
  {
  }

  lemma PartInOrder(equals: seq<VarEqual>, p: nat, all: seq<VarEqual>, from: nat, ves: seq<VarEqual>)
    requires EqualsAt(equals, p, all) && from + |ves| <= |all| && all[from..from + |ves|] == ves
    ensures ValuesAt(ShortAnswers(equals), p + from, ves)
  {
    forall k | 0 <= k < |ves| ensures equals[p + from + k] == ves[k] {
      assert equals[p + from + k] == equals[p..p + |all|][from + k] == all[from..from + |ves|][k];
    }
  }

  lemma {:induction false} ValuesInOrder(equals: seq<VarEqual>, p: nat, rc: RespCondition)
    requires EqualsAt(equals, p, EqualsOf(rc))
    ensures ValuesAt(ShortAnswers(equals), p, rc.cond.direct)
    ensures ValuesAt(ShortAnswers(equals), p + |rc.cond.direct|, rc.cond.underAnd)
    ensures ValuesAt(ShortAnswers(equals), p + |rc.cond.direct| + |rc.cond.underAnd|, rc.cond.underOr)
  {
    hide ShortAnswers, ValuesAt, EqualsAt;
    var all, c := EqualsOf(rc), rc.cond;
    PartInOrder(equals, p, all, 0, c.direct);
    PartInOrder(equals, p, all, |c.direct|, c.underAnd);
    PartInOrder(equals, p, all, |c.direct| + |c.underAnd|, c.underOr);
  }

  // ---------- matching ----------

  /** The first varequal for exactly this response. */
  ghost predicate FirstFor(ves: seq<VarEqual>, respident: string, k: int) {
    0 <= k < |ves| && ves[k].respident == respident && forall i :: 0 <= i < k ==> ves[i].respident != respident
  }

  /** A condition of positive score gives the response this value: its first direct one, which is not blank. */
  ghost predicate Gives(rc: RespCondition, respident: string, value: string) {
    && rc.score > 0.0 && value != ""
    && exists k :: FirstFor(rc.cond.direct, respident, k) && TrimSpace(rc.cond.direct[k].value) == value
  }

  lemma {:induction false} FirstValueByPlace(ves: seq<VarEqual>, respident: string)
    ensures if exists k :: FirstFor(ves, respident, k)
            then exists k :: FirstFor(ves, respident, k) && FirstValue(ves, respident) == TrimSpace(ves[k].value)
            else FirstValue(ves, respident) == ""
  {
    hide TrimSpace;
    if ves != [] {
      if ves[0].respident == respident {
        assert FirstFor(ves, respident, 0);
      } else {
        FirstValueByPlace(ves[1..], respident);
        assert forall i :: 0 <= i < |ves| - 1 ==> ves[1..][i] == ves[i + 1];
        if k :| FirstFor(ves[1..], respident, k) && FirstValue(ves[1..], respident) == TrimSpace(ves[1..][k].value) {
          assert forall i :: 0 < i < k + 1 ==> ves[i] == ves[1..][i - 1];
          assert FirstFor(ves, respident, k + 1);
        } else {
          forall k ensures !FirstFor(ves, respident, k) {
            assert FirstFor(ves, respident, k) ==> k > 0 && FirstFor(ves[1..], respident, k - 1);
          }
        }
      }
    }
  }

  lemma {:induction false} GivesFirstValue(rc: RespCondition, respident: string, value: string)
    ensures Gives(rc, respident, value)
       <==> rc.score > 0.0 && value != "" && FirstValue(rc.cond.direct, respident) == value
  {
    hide FirstValue, TrimSpace;
    FirstValueByPlace(rc.cond.direct, respident);
    assert forall k, m :: FirstFor(rc.cond.direct, respident, k) && FirstFor(rc.cond.direct, respident, m) ==> k == m;
  }

  ghost predicate IsRight(rcs: seq<RespCondition>, respident: string, right: string) {
    if right == "" then forall j, v :: 0 <= j < |rcs| ==> !Gives(rcs[j], respident, v)
    else exists j :: 0 <= j < |rcs| && Gives(rcs[j], respident, right)
           && forall i, v :: 0 <= i < j ==> !Gives(rcs[i], respident, v)
  }

  lemma {:induction false} CorrectRightByPlace(rcs: seq<RespCondition>, respident: string)
    ensures IsRight(rcs, respident, CorrectRight(rcs, respident))
  {
    hide Gives, FirstValue;
    if rcs != [] {
      var right := CorrectRight(rcs, respident);
      forall v { GivesFirstValue(rcs[0], respident, v); }
      if Gives(rcs[0], respident, right) {
        assert rcs[0].score > 0.0;
      } else {
        CorrectRightByPlace(rcs[1..], respident);
        assert forall i :: 0 <= i < |rcs| - 1 ==> rcs[1..][i] == rcs[i + 1];
        if right != "" {
          var j :| 0 <= j < |rcs[1..]| && Gives(rcs[1..][j], respident, right)
            && forall i, v :: 0 <= i < j ==> !Gives(rcs[1..][i], respident, v);
          assert Gives(rcs[j + 1], respident, right);
          forall i, v | 0 <= i < j + 1 ensures !Gives(rcs[i], respident, v) {
            if i > 0 { assert !Gives(rcs[1..][i - 1], respident, v); }
          }
        } else {
          forall j, v | 0 <= j < |rcs| ensures !Gives(rcs[j], respident, v) {
            if j > 0 { assert !Gives(rcs[1..][j - 1], respident, v); }
          }
        }
      }
    }
  }

  /** How many labels there are before the response. */
  function LabelCount(lids: seq<ResponseLid>): nat {
    if lids == [] then 0 else LabelCount(Init(lids)) + |Last(lids).labels|
  }

  lemma {:induction false} LabelsByPlace(lids: seq<ResponseLid>, i: nat)
    requires i < |lids|
    ensures |AllLabels(lids)| == LabelCount(lids)
    ensures var p := LabelCount(lids[..i]);
      p + |lids[i].labels| <= |AllLabels(lids)| && AllLabels(lids)[p..p + |lids[i].labels|] == lids[i].labels
  {
    var n := |lids| - 1;
    if n > 0 {
      LabelsByPlace(Init(lids), if i < n then i else 0);
    }
    var p := LabelCount(lids[..i]);
    SlicesOfAppend(AllLabels(Init(lids)), lids[n].labels, p, if i < n then p + |lids[i].labels| else p);
    if i < n {
      assert Init(lids)[..i] == lids[..i];
    }
  }

  predicate Offered(l: ResponseLabel) {
    l.ident != "" && FirstMatText(l.material) != ""
  }

  /** The label is offered for the first time. */
  ghost predicate FirstOffer(labels: seq<ResponseLabel>, i: int) {
    && 0 <= i < |labels| && Offered(labels[i])
    && forall j :: 0 <= j < i && Offered(labels[j]) ==> labels[j].ident != labels[i].ident
  }

  function PoolEntry(l: ResponseLabel): AnswerOption {
    AnswerOption(l.ident, FirstMatText(l.material), 0.0, blankID := "_match_options_")
  }

  /** The places of the first offers, in order. */
  ghost predicate FirstOffers(labels: seq<ResponseLabel>, at: seq<int>) {
    && (forall i, j :: 0 <= i < j < |at| ==> at[i] < at[j])
    && (forall i :: i in at <==> FirstOffer(labels, i))
  }

  ghost predicate EntriesAt(pool: seq<AnswerOption>, labels: seq<ResponseLabel>, at: seq<int>) {
    && |at| == |pool|
    && forall m :: 0 <= m < |at| ==> 0 <= at[m] < |labels| && pool[m] == PoolEntry(labels[at[m]])
  }

  /** The pool holds the labels at these places, in order. */
  ghost predicate PoolAt(pool: seq<AnswerOption>, labels: seq<ResponseLabel>, at: seq<int>) {
    FirstOffers(labels, at) && EntriesAt(pool, labels, at)
  }

  lemma {:induction false} PoolByPlace(labels: seq<ResponseLabel>) returns (at: seq<int>)
    ensures PoolAt(Pool(labels), labels, at)
  {
    if labels == [] {
      at := [];
    } else {
      var before := PoolByPlace(Init(labels));
      PoolGrows(labels, before);
      at := if FirstOffer(labels, |labels| - 1) then before + [|labels| - 1] else before;
    }
  }

  lemma OffersStay(labels: seq<ResponseLabel>)
    requires labels != []
    ensures forall i :: i < |labels| - 1 ==> (FirstOffer(Init(labels), i) <==> FirstOffer(labels, i))
    ensures FirstOffer(labels, |labels| - 1) <==>
      Offered(Last(labels)) && !IsOffered(Init(labels), Last(labels).ident)
  {
    hide Offered;
    var n := |labels| - 1;
    assert forall j :: 0 <= j < n ==> Init(labels)[j] == labels[j];
    if IsOffered(Init(labels), Last(labels).ident) {
      var j :| 0 <= j < n && Offered(Init(labels)[j]) && Init(labels)[j].ident == labels[n].ident;
      assert Offered(labels[j]);
    }
  }

  lemma OffersGrow(labels: seq<ResponseLabel>, at: seq<int>)
    requires labels != [] && FirstOffers(Init(labels), at)
    ensures var n := |labels| - 1; FirstOffers(labels, if FirstOffer(labels, n) then at + [n] else at)
  {
    hide FirstOffer, Offered, IsOffered;
    var n := |labels| - 1;
    OffersStay(labels);
    OffersInside(labels);
    OffersInside(Init(labels));
    forall k | 0 <= k < |at| ensures at[k] < n {
      assert at[k] in at;
    }
    assert forall i :: i in at + [n] <==> i in at || i == n;
  }

  lemma EntriesGrow(pool: seq<AnswerOption>, labels: seq<ResponseLabel>, at: seq<int>)
    requires labels != [] && EntriesAt(pool, Init(labels), at)
    ensures EntriesAt(pool, labels, at)
    ensures EntriesAt(pool + [PoolEntry(Last(labels))], labels, at + [|labels| - 1])
  {
    hide PoolEntry;
  }

  lemma {:induction false} PoolGrows(labels: seq<ResponseLabel>, at: seq<int>)
    requires labels != [] && PoolAt(Pool(Init(labels)), Init(labels), at)
    ensures var n := |labels| - 1;
      PoolAt(Pool(labels), labels, if FirstOffer(labels, n) then at + [n] else at)
  {
    hide Offered, FirstOffer, FirstOffers, EntriesAt, Pool, IsOffered, PoolIDs;
    var pool := Pool(Init(labels));
    IdentsOfPool(pool, Init(labels), at);
    OffersStay(labels);
    PoolOneMore(labels);
    OffersGrow(labels, at);
    EntriesGrow(pool, labels, at);
  }

  lemma PoolOneMore(labels: seq<ResponseLabel>)
    requires labels != []
    ensures var pool, l := Pool(Init(labels)), Last(labels);
      Pool(labels) == if Offered(l) && l.ident !in PoolIDs(pool) then pool + [PoolEntry(l)] else pool
  {
    hide FirstMatText;
  }

  lemma OffersInside(labels: seq<ResponseLabel>)
    ensures forall i :: FirstOffer(labels, i) ==> i < |labels|
  {
  }

  ghost predicate IsOffered(labels: seq<ResponseLabel>, id: string) {
    exists j :: 0 <= j < |labels| && Offered(labels[j]) && labels[j].ident == id
  }

  lemma {:induction false} IdentsOfPool(pool: seq<AnswerOption>, labels: seq<ResponseLabel>, at: seq<int>)
    requires PoolAt(pool, labels, at)
    ensures forall id :: id in PoolIDs(pool) <==> IsOffered(labels, id)
  {
    hide FirstMatText;
    forall id ensures id in PoolIDs(pool) <==> IsOffered(labels, id) {
      if o :| o in pool && o.id == id {
        var m :| 0 <= m < |pool| && pool[m] == o;
        assert at[m] in at;
      }
      if IsOffered(labels, id) {
        var j :| 0 <= j < |labels| && Offered(labels[j]) && labels[j].ident == id;
        var i := FirstOfferOf(labels, j);
        var m :| 0 <= m < |at| && at[m] == i;
        assert pool[m] in pool;
      }
    }
  }

  lemma {:induction false} FirstOfferOf(labels: seq<ResponseLabel>, j: nat) returns (i: nat)
    requires j < |labels| && Offered(labels[j])
    ensures FirstOffer(labels, i) && labels[i].ident == labels[j].ident
  {
    i := j;
    if k :| 0 <= k < j && Offered(labels[k]) && labels[k].ident == labels[j].ident {
      i := FirstOfferOf(labels, k);
    }
  }

  /**
   * A matching question has one entry per response, in order, with its own first right id, and then the labels of all
   * responses, each ident once at its first offer.
   */
  lemma MatchingItemIsRead(n: Numbers, item: Item, r: Option<Body>) returns (at: seq<int>)
    requires Imports(n, item, r) && r.Some? && r.value.questionType.Matching?
    ensures r.value.answers.Options? && |item.presentation.lids| <= |r.value.answers.options|
    ensures var lids, opts := item.presentation.lids, r.value.answers.options;
      && (forall i :: 0 <= i < |lids| ==>
           var text := FirstMatText(lids[i].material);
           var left := if text != "" then text else TrimPrefix(lids[i].ident, "response_");
           && opts[i] == AnswerOption(TrimPrefix(lids[i].ident, "response_"), left, 100.0,
                                      left := left, rightID := opts[i].rightID)
           && IsRight(item.conditions, lids[i].ident, opts[i].rightID))
      && PoolAt(opts[|lids|..], AllLabels(lids), at)
  {
    hide FirstMatText, CorrectRight, Pool, AllLabels, IsRight, Resolves;
    var lids, opts := item.presentation.lids, r.value.answers.options;
    assert opts == Pairs(lids, item.conditions) + Pool(AllLabels(lids));
    assert opts[|lids|..] == Pool(AllLabels(lids));
    forall i | 0 <= i < |lids| { CorrectRightByPlace(item.conditions, lids[i].ident); }
    at := PoolByPlace(AllLabels(lids));
  }

  // ---------- dropdowns ----------

  /** A condition of positive score has a direct varequal for exactly this response with this value. */
  ghost predicate Marks(rc: RespCondition, respident: string, id: string) {
    && rc.score > 0.0
    && exists k :: 0 <= k < |rc.cond.direct|
         && rc.cond.direct[k].respident == respident && TrimSpace(rc.cond.direct[k].value) == id
  }

  ghost predicate IsMarked(rcs: seq<RespCondition>, respident: string, id: string) {
    exists j :: 0 <= j < |rcs| && Marks(rcs[j], respident, id)
  }

  lemma {:induction false} InDirectEquals(rcs: seq<RespCondition>, ve: VarEqual)
    ensures ve in DirectEquals(rcs) <==> exists j :: 0 <= j < |rcs| && rcs[j].score > 0.0 && ve in rcs[j].cond.direct
  {
    if rcs != [] {
      InDirectEquals(Init(rcs), ve);
      assert forall j :: 0 <= j < |rcs| - 1 ==> Init(rcs)[j] == rcs[j];
    }
  }

  lemma {:induction false} MarkedByPlace(rcs: seq<RespCondition>, respident: string, id: string)
    ensures id in Marked(DirectEquals(rcs), respident) <==> IsMarked(rcs, respident, id)
  {
    hide DirectEquals, TrimSpace;
    if id in Marked(DirectEquals(rcs), respident) {
      var ve :| ve in DirectEquals(rcs) && ve.respident == respident && TrimSpace(ve.value) == id;
      InDirectEquals(rcs, ve);
      var j :| 0 <= j < |rcs| && rcs[j].score > 0.0 && ve in rcs[j].cond.direct;
      var k :| 0 <= k < |rcs[j].cond.direct| && rcs[j].cond.direct[k] == ve;
      assert Marks(rcs[j], respident, id);
    }
    if j :| 0 <= j < |rcs| && Marks(rcs[j], respident, id) {
      var k :| 0 <= k < |rcs[j].cond.direct|
        && rcs[j].cond.direct[k].respident == respident && TrimSpace(rcs[j].cond.direct[k].value) == id;
      InDirectEquals(rcs, rcs[j].cond.direct[k]);
    }
  }

  lemma OneOptionPerLabel(lid: ResponseLid, equals: seq<VarEqual>)
    ensures |DropdownOptions(lid, equals)| == |lid.labels|
  {
  }

  lemma {:induction false} DropdownsByPlace(lids: seq<ResponseLid>, equals: seq<VarEqual>, i: nat)
    requires i < |lids|
    ensures |DropdownAnswers(lids, equals)| == LabelCount(lids)
    ensures var p, q := LabelCount(lids[..i]), LabelCount(lids[..i]) + |lids[i].labels|;
      q <= LabelCount(lids) && DropdownAnswers(lids, equals)[p..q] == DropdownOptions(lids[i], equals)
  {
    hide DropdownOptions;
    var n := |lids| - 1;
    OneOptionPerLabel(lids[n], equals);
    if n > 0 {
      DropdownsByPlace(Init(lids), equals, if i < n then i else 0);
    }
    var p := LabelCount(lids[..i]);
    SlicesOfAppend(DropdownAnswers(Init(lids), equals), DropdownOptions(lids[n], equals), p, p + |lids[i].labels|);
    if i < n {
      assert Init(lids)[..i] == lids[..i];
    }
  }

  /** The option of a label under the blank of its response. */
  ghost function MarkedOption(rcs: seq<RespCondition>, o: ResponseLid, l: ResponseLabel): AnswerOption {
    AnswerOption(
      l.ident, FirstMatText(l.material), if IsMarked(rcs, o.ident, l.ident) then 100.0 else 0.0,
      blankID := if FirstMatText(o.material) != "" then FirstMatText(o.material) else TrimPrefix(o.ident, "response_"))
  }

  /** The option of label k of response i stands after those of all labels before. */
  ghost predicate OptionAt(
    opts: seq<AnswerOption>, rcs: seq<RespCondition>, lids: seq<ResponseLid>, i: nat, k: nat)
    requires i < |lids| && k < |lids[i].labels|
  {
    var p := LabelCount(lids[..i]) + k;
    p < |opts| && opts[p] == MarkedOption(rcs, lids[i], lids[i].labels[k])
  }

  lemma OneDropdownOption(rcs: seq<RespCondition>, o: ResponseLid, k: nat)
    requires k < |o.labels|
    ensures |DropdownOptions(o, DirectEquals(rcs))| == |o.labels|
    ensures DropdownOptions(o, DirectEquals(rcs))[k] == MarkedOption(rcs, o, o.labels[k])
  {
    hide FirstMatText, IsMarked, DirectEquals, Marked;
    MarkedByPlace(rcs, o.ident, o.labels[k].ident);
  }

  /** A dropdown question has the labels of all responses in order, each under its response's blank. */
  lemma DropdownItemIsRead(n: Numbers, item: Item, r: Option<Body>)
    requires Imports(n, item, r) && r.Some? && r.value.questionType.MultipleDropdown?
    ensures r.value.answers.Options? && |r.value.answers.options| == LabelCount(item.presentation.lids)
    ensures var lids, opts := item.presentation.lids, r.value.answers.options;
      forall i, k :: 0 <= i < |lids| && 0 <= k < |lids[i].labels| ==> OptionAt(opts, item.conditions, lids, i, k)
  {
    hide DirectEquals, Resolves, DropdownAnswers, DropdownOptions, LabelCount, MarkedOption;
    var lids, opts, equals := item.presentation.lids, r.value.answers.options, DirectEquals(item.conditions);
    assert opts == DropdownAnswers(lids, equals);
    if lids == [] {
      NoDropdowns(equals);
    } else {
      DropdownsByPlace(lids, equals, 0);
    }
    forall i, k | 0 <= i < |lids| && 0 <= k < |lids[i].labels|
      ensures OptionAt(opts, item.conditions, lids, i, k)
    {
      DropdownsByPlace(lids, equals, i);
      OneDropdownOption(item.conditions, lids[i], k);
      var p := LabelCount(lids[..i]);
      assert opts[p + k] == opts[p..p + |lids[i].labels|][k];
    }
  }

  lemma NoDropdowns(equals: seq<VarEqual>)
    ensures LabelCount([]) == 0 && DropdownAnswers([], equals) == []
  {
  }
}
