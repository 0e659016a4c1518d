/** The blanks of any Canvas item: which texts the importer accepts where. */
module QtiForeignBlanks {
  import opened QtiModel
  import opened Text
  import opened QtiParserClassic
  import opened QtiForeignItems

  // ---------- the last of several with one ident counts ----------

  ghost predicate LastLid(lids: seq<ResponseLid>, ident: string, i: int) {
    0 <= i < |lids| && lids[i].ident == ident && forall j :: i < j < |lids| ==> lids[j].ident != ident
  }

  ghost predicate LastLabel(labels: seq<ResponseLabel>, ident: string, i: int) {
    0 <= i < |labels| && labels[i].ident == ident && forall j :: i < j < |labels| ==> labels[j].ident != ident
  }

  /** The blank a varequal for this response fills: that of the response, unless a text response has its name too. */
  ghost predicate Fills(p: Presentation, respident: string, blank: string) {
    if (exists i :: LastLid(p.lids, respident, i)) && forall j :: 0 <= j < |p.strs| ==> p.strs[j].ident != respident
    then exists i :: LastLid(p.lids, respident, i) && CanvasBlankID(p.lids[i]) == blank
    else blank == TrimPrefix(respident, "response_")
  }

  /** The value names a label of the response, and this is the label's text. */
  ghost predicate NamesLabel(lids: seq<ResponseLid>, ve: VarEqual, text: string) {
    text != "" && exists i, k :: LastLid(lids, ve.respident, i) && LastLabel(lids[i].labels, TrimSpace(ve.value), k)
                                 && FirstMatText(lids[i].labels[k].material) == text
  }

  /** The text a varequal accepts: that of the label it names, otherwise its value. */
  ghost predicate Says(lids: seq<ResponseLid>, ve: VarEqual, text: string) {
    NamesLabel(lids, ve, text) || (text == ve.value && forall t :: !NamesLabel(lids, ve, t))
  }

  ghost predicate Labels(labels: seq<ResponseLabel>, text: string) {
    exists k :: 0 <= k < |labels| && TrimSpace(FirstMatText(labels[k].material)) == text
  }

  ghost predicate OfferedIn(lids: seq<ResponseLid>, blank: string, text: string) {
    exists i :: 0 <= i < |lids| && CanvasBlankID(lids[i]) == blank && Labels(lids[i].labels, text)
  }

  ghost predicate Filled(p: Presentation, ve: VarEqual, blank: string, text: string) {
    ve.respident != "" && Fills(p, ve.respident, blank) && exists t :: Says(p.lids, ve, t) && TrimSpace(t) == text
  }

  ghost predicate Demanded(p: Presentation, rcs: seq<RespCondition>, blank: string, text: string) {
    exists j, ve :: 0 <= j < |rcs| && Scores(rcs[j], ve) && Filled(p, ve, blank, text)
  }

  // ---------- the closure ----------

  /** Lists are neither empty nor repeat a text. */
  ghost predicate Neat(a: Accepted) {
    forall b :: b in a ==> a[b] != [] && forall i, j :: 0 <= i < j < |a[b]| ==> a[b][i] != a[b][j]
  }

  ghost predicate Has(a: Accepted, blank: string, text: string) {
    blank in a && text in a[blank]
  }

  lemma AddAdds(a: Accepted, blank: string, text: string)
    requires Neat(a)
    ensures Neat(Add(a, blank, text))
    ensures forall b, t ::
      Has(Add(a, blank, text), b, t) <==> Has(a, b, t) || (b == blank && b != "" && t == TrimSpace(text) && t != "")
  {
    hide TrimSpace;
  }

  lemma {:induction false} AddLabelsAdds(a: Accepted, blank: string, labels: seq<ResponseLabel>)
    requires Neat(a)
    ensures Neat(AddLabels(a, blank, labels))
    ensures forall b, t ::
      Has(AddLabels(a, blank, labels), b, t) <==>
        Has(a, b, t) || (b == blank && b != "" && t != "" && Labels(labels, t))
  {
    hide TrimSpace, FirstMatText, Has, Neat, Add;
    if labels != [] {
      AddLabelsAdds(a, blank, Init(labels));
      AddAdds(AddLabels(a, blank, Init(labels)), blank, FirstMatText(Last(labels).material));
      assert forall k :: 0 <= k < |labels| - 1 ==> Init(labels)[k] == labels[k];
    }
  }

  lemma {:induction false} LidsAdd(lids: seq<ResponseLid>)
    ensures Neat(LidAccepted(lids))
    ensures forall b, t :: Has(LidAccepted(lids), b, t) <==> b != "" && t != "" && OfferedIn(lids, b, t)
  {
    hide TrimSpace, FirstMatText, AddLabels, CanvasBlankID;
    if lids != [] {
      LidsAdd(Init(lids));
      AddLabelsAdds(LidAccepted(Init(lids)), CanvasBlankID(Last(lids)), Last(lids).labels);
      assert forall i :: 0 <= i < |lids| - 1 ==> Init(lids)[i] == lids[i];
    }
  }

  // ---------- the two indexes ----------

  lemma {:induction false} LabelTextsByPlace(labels: seq<ResponseLabel>, ident: string)
    ensures if exists k :: LastLabel(labels, ident, k) then
              ident in LabelTexts(labels)
              && exists k ::
                   LastLabel(labels, ident, k) && LabelTexts(labels)[ident] == FirstMatText(labels[k].material)
            else ident !in LabelTexts(labels)
  {
    hide FirstMatText;
    if labels != [] {
      var n := |labels| - 1;
      LabelTextsByPlace(Init(labels), ident);
      if labels[n].ident == ident {
        assert LastLabel(labels, ident, n);
      } else {
        assert forall k :: LastLabel(labels, ident, k) <==> LastLabel(Init(labels), ident, k);
      }
    }
  }

  lemma {:induction false} LabelTextByPlace(lids: seq<ResponseLid>, ident: string)
    ensures if exists i :: LastLid(lids, ident, i) then
              ident in LabelText(lids)
              && exists i :: LastLid(lids, ident, i) && LabelText(lids)[ident] == LabelTexts(lids[i].labels)
            else ident !in LabelText(lids)
  {
    hide LabelTexts;
    if lids != [] {
      var n := |lids| - 1;
      LabelTextByPlace(Init(lids), ident);
      if lids[n].ident == ident {
        assert LastLid(lids, ident, n);
      } else {
        assert forall k :: LastLid(lids, ident, k) <==> LastLid(Init(lids), ident, k);
      }
    }
  }

  lemma {:induction false} LidBlanksByPlace(lids: seq<ResponseLid>, ident: string)
    ensures if exists i :: LastLid(lids, ident, i) then
              ident in LidBlanks(lids)
              && exists i :: LastLid(lids, ident, i) && LidBlanks(lids)[ident] == CanvasBlankID(lids[i])
            else ident !in LidBlanks(lids)
  {
    hide CanvasBlankID;
    if lids != [] {
      var n := |lids| - 1;
      LidBlanksByPlace(Init(lids), ident);
      if lids[n].ident == ident {
        assert LastLid(lids, ident, n);
      } else {
        assert forall k :: LastLid(lids, ident, k) <==> LastLid(Init(lids), ident, k);
      }
    }
  }

  lemma {:induction false} StrsOverride(lids: seq<ResponseLid>, strs: seq<ResponseStr>, ident: string)
    ensures var names := BlankByRespident(lids, strs);
      if exists j :: 0 <= j < |strs| && strs[j].ident == ident then ident in names && names[ident] == Bare(ident)
      else (ident in names <==> ident in LidBlanks(lids)) && (ident in names ==> names[ident] == LidBlanks(lids)[ident])
  {
    hide Bare;
    if strs != [] {
      StrsOverride(lids, Init(strs), ident);
      assert forall j :: 0 <= j < |strs| - 1 ==> Init(strs)[j] == strs[j];
      assert strs[|strs| - 1] == Last(strs);
    }
  }

  lemma BlankForFills(p: Presentation, respident: string, blank: string)
    ensures Fills(p, respident, blank) <==> blank == BlankFor(respident, BlankByRespident(p.lids, p.strs))
  {
    hide Bare, CanvasBlankID, BlankByRespident, LidBlanks;
    LidBlanksByPlace(p.lids, respident);
    StrsOverride(p.lids, p.strs, respident);
    assert Bare(respident) == TrimPrefix(respident, "response_") by { BareDrops(respident); }
    assert forall i, j :: LastLid(p.lids, respident, i) && LastLid(p.lids, respident, j) ==> i == j;
  }

  lemma BareDrops(ident: string)
    ensures Bare(ident) == TrimPrefix(ident, "response_")
  {
  }

  /** What the index of label texts makes of a varequal. */
  lemma {:induction false} LabelIsNamed(lids: seq<ResponseLid>, ve: VarEqual, text: string)
    ensures var labels, key := LabelText(lids), TrimSpace(ve.value);
      NamesLabel(lids, ve, text) <==>
        ve.respident in labels && key in labels[ve.respident] && labels[ve.respident][key] == text != ""
  {
    hide TrimSpace, FirstMatText, LabelText, LabelTexts;
    var key := TrimSpace(ve.value);
    LabelTextByPlace(lids, ve.respident);
    assert forall i, j :: LastLid(lids, ve.respident, i) && LastLid(lids, ve.respident, j) ==> i == j;
    if i :| LastLid(lids, ve.respident, i) {
      LabelTextsByPlace(lids[i].labels, key);
      assert forall j, k :: LastLabel(lids[i].labels, key, j) && LastLabel(lids[i].labels, key, k) ==> j == k;
    }
  }

  lemma {:induction false} ValueIsSaid(lids: seq<ResponseLid>, ve: VarEqual, text: string)
    ensures Says(lids, ve, text) <==> text == ValueOf(ve, LabelText(lids))
  {
    hide TrimSpace, LabelText, NamesLabel;
    forall t { LabelIsNamed(lids, ve, t); }
    var texts, key := LabelText(lids), TrimSpace(ve.value);
    if ve.respident in texts && key in texts[ve.respident] && texts[ve.respident][key] != "" {
      assert NamesLabel(lids, ve, texts[ve.respident][key]);
    }
  }

  // ---------- conditions ----------

  lemma FilledBy(p: Presentation, ve: VarEqual, blank: string, text: string)
    ensures Filled(p, ve, blank, text) <==>
      ve.respident != "" && blank == BlankFor(ve.respident, BlankByRespident(p.lids, p.strs))
      && text == TrimSpace(ValueOf(ve, LabelText(p.lids)))
  {
    hide TrimSpace, Fills, Says, BlankFor, ValueOf;
    BlankForFills(p, ve.respident, blank);
    forall t { ValueIsSaid(p.lids, ve, t); }
  }

  ghost predicate FilledByOne(p: Presentation, equals: seq<VarEqual>, blank: string, text: string) {
    exists ve :: ve in equals && Filled(p, ve, blank, text)
  }

  lemma {:induction false} CollectedHas(p: Presentation, base: Accepted, equals: seq<VarEqual>)
    requires Neat(base)
    ensures var a := Collected(base, equals, BlankByRespident(p.lids, p.strs), LabelText(p.lids));
      && Neat(a)
      && forall b, t :: Has(a, b, t) <==> Has(base, b, t) || (b != "" && t != "" && FilledByOne(p, equals, b, t))
  {
    hide TrimSpace, Has, Neat, Add, BlankByRespident, LabelText, Filled, ValueOf, BlankFor;
    if equals != [] {
      var blanks, texts, ve := BlankByRespident(p.lids, p.strs), LabelText(p.lids), Last(equals);
      CollectedHas(p, base, Init(equals));
      AddAdds(Collected(base, Init(equals), blanks, texts), BlankFor(ve.respident, blanks), ValueOf(ve, texts));
      forall b, t { FilledBy(p, ve, b, t); }
      assert equals == Init(equals) + [ve];
      forall b, t
        ensures FilledByOne(p, equals, b, t) <==> FilledByOne(p, Init(equals), b, t) || Filled(p, ve, b, t)
      {
      }
    }
  }

  /**
   * A question with blanks accepts a text for a blank exactly when a response with that blank offers it, or a condition
   * of positive score demands it, directly or under <and> or <or>; each list names a text once and none is empty.
   */
  lemma BlanksItemIsRead(n: Numbers, item: Item, r: Option<Body>)
    requires Imports(n, item, r) && r.Some? && r.value.questionType.FillInMultipleBlanks?
    ensures r.value.answers.Blanks? && Neat(r.value.answers.blanks)
    ensures forall b, t :: Has(r.value.answers.blanks, b, t) <==>
      && b != "" && t != ""
      && (OfferedIn(item.presentation.lids, b, t) || Demanded(item.presentation, item.conditions, b, t))
  {
    hide Has, Neat, OfferedIn, Filled, AllEquals, LidAccepted, Collected, BlankByRespident, LabelText, Resolves, Scores;
    var p, equals := item.presentation, AllEquals(item.conditions);
    assert r.value.answers.blanks == BlankAnswers(p, equals);
    LidsAdd(p.lids);
    CollectedHas(p, LidAccepted(p.lids), equals);
    forall ve { InAllEquals(item.conditions, ve); }
  }
}
