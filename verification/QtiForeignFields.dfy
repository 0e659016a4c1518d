/** The type, points and numbers of any Canvas item. */
module QtiForeignFields {
  import opened QtiModel
  import opened Text
  import opened QtiParserClassic

  // ---------- metadata ----------

  datatype Kind = TypeKind | PointsKind | ExactKind | MarginKind

  /** The field is of the kind; points count only if they are a number. */
  predicate IsOf(f: MetaField, kind: Kind) {
    match kind
    case TypeKind => f.QuestionTypeField?
    case PointsKind => f.PointsField? && f.points.Some?
    case ExactKind => f.AnswerExactField?
    case MarginKind => f.AnswerMarginField?
  }

  /** The last field of the kind stands here. */
  ghost predicate LastOf(fields: seq<MetaField>, kind: Kind, i: int) {
    0 <= i < |fields| && IsOf(fields[i], kind) && forall j :: i < j < |fields| ==> !IsOf(fields[j], kind)
  }

  lemma {:induction false} LastOfMore(fields: seq<MetaField>, kind: Kind)
    requires fields != []
    ensures if IsOf(Last(fields), kind) then LastOf(fields, kind, |fields| - 1)
            else forall i :: LastOf(fields, kind, i) <==> LastOf(Init(fields), kind, i)
  {
  }

  ghost predicate IsType(fields: seq<MetaField>, c: CanvasType) {
    exists i :: LastOf(fields, TypeKind, i) && fields[i].canvasType == c
  }

  lemma {:induction false} TypeByPlace(fields: seq<MetaField>)
    ensures
      || IsType(fields, QuestionTypeEntry(fields))
      || ((forall i :: 0 <= i < |fields| ==> !fields[i].QuestionTypeField?) && QuestionTypeEntry(fields) == Foreign(""))
  {
    if fields != [] {
      TypeByPlace(Init(fields));
      LastOfMore(fields, TypeKind);
      assert fields == Init(fields) + [Last(fields)];
    }
  }

  lemma {:induction false} PointsByPlace(fields: seq<MetaField>)
    ensures if exists i :: LastOf(fields, PointsKind, i)
            then exists i :: LastOf(fields, PointsKind, i) && fields[i].points == Some(PointsEntry(fields))
            else PointsEntry(fields) == 1.0
  {
    if fields != [] {
      PointsByPlace(Init(fields));
      LastOfMore(fields, PointsKind);
    }
  }

  /**
   * The last question_type field decides the type, and an item without one, or of an unknown type, is rejected; the
   * last points that are a number count, or else 1.
   */
  lemma MetadataIsRead(n: Numbers, item: Item, r: Option<Body>)
    requires Imports(n, item, r)
    ensures r.Some? <==> exists c :: IsType(item.metadata, c) && MapCanvasClassicType(c).Some?
    ensures r.Some? ==> exists c :: IsType(item.metadata, c) && MapCanvasClassicType(c) == Some(r.value.questionType)
    ensures r.Some? ==>
      if exists i :: LastOf(item.metadata, PointsKind, i)
      then exists i :: LastOf(item.metadata, PointsKind, i) && item.metadata[i].points == r.value.points
      else r.value.points == Some(1.0)
  {
    hide Resolves, AnswersFrom;
    TypeByPlace(item.metadata);
    PointsByPlace(item.metadata);
    assert forall c, d :: IsType(item.metadata, c) && IsType(item.metadata, d) ==> c == d;
  }

  // ---------- numbers ----------

  ghost predicate IsExact(fields: seq<MetaField>, text: string) {
    if exists i :: LastOf(fields, ExactKind, i)
    then exists i :: LastOf(fields, ExactKind, i) && fields[i].entry == text else text == ""
  }

  ghost predicate IsMargin(fields: seq<MetaField>, text: string) {
    if exists i :: LastOf(fields, MarginKind, i)
    then exists i :: LastOf(fields, MarginKind, i) && fields[i].entry == text else text == ""
  }

  lemma {:induction false} FieldsByPlace(fields: seq<MetaField>)
    ensures IsExact(fields, ExactField(fields)) && IsMargin(fields, MarginField(fields))
  {
    if fields != [] {
      FieldsByPlace(Init(fields));
      LastOfMore(fields, ExactKind);
      LastOfMore(fields, MarginKind);
    }
  }

  predicate Decodes(n: Numbers, rc: RespCondition) {
    rc.score > 0.0 && NumericalEntry(n, rc.cond).Some?
  }

  function DecodedCount(n: Numbers, rcs: seq<RespCondition>): nat {
    if rcs == [] then 0 else DecodedCount(n, Init(rcs)) + if Decodes(n, Last(rcs)) then 1 else 0
  }

  lemma {:induction false} NumbersByPlace(n: Numbers, rcs: seq<RespCondition>, j: nat)
    requires j < |rcs|
    ensures |DecodedNumbers(n, rcs)| == DecodedCount(n, rcs)
    ensures Decodes(n, rcs[j]) ==>
      var p := DecodedCount(n, rcs[..j]);
      && p < DecodedCount(n, rcs)
      && DecodedNumbers(n, rcs)[p] == NumericalEntry(n, rcs[j].cond).value.(id := "a" + Decimal(p + 1), weight := 100.0)
  {
    hide NumericalEntry, Decimal;
    var k := |rcs| - 1;
    if k > 0 {
      NumbersByPlace(n, Init(rcs), if j < k then j else 0);
    }
    if j < k {
      assert Init(rcs)[..j] == rcs[..j];
    }
  }

  /** An answer in the metadata is the only one; otherwise each scoring condition that can be decoded gives one. */
  lemma NumericalItemIsRead(n: Numbers, item: Item, r: Option<Body>) returns (exact: string, margin: string)
    requires Imports(n, item, r) && r.Some? && r.value.questionType in {Numerical, Formula}
    ensures r.value.answers.Options? && IsExact(item.metadata, exact) && IsMargin(item.metadata, margin)
    ensures exact != "" ==>
      r.value.answers.options == [AnswerOption("a1", exact, 100.0, num := NumberFields(margin := margin))]
    ensures exact == "" ==>
      var rcs, opts := item.conditions, r.value.answers.options;
      && |opts| == DecodedCount(n, rcs)
      && forall j :: 0 <= j < |rcs| && Decodes(n, rcs[j]) ==>
           var p := DecodedCount(n, rcs[..j]);
           && p < |opts|
           && opts[p] == NumericalEntry(n, rcs[j].cond).value.(id := "a" + Decimal(p + 1), weight := 100.0)
  {
    hide NumericalEntry, Decimal, Resolves, DecodedNumbers, DecodedCount, Decodes;
    var rcs := item.conditions;
    FieldsByPlace(item.metadata);
    exact, margin := ExactField(item.metadata), MarginField(item.metadata);
    if rcs == [] {
      NoNumbers(n);
    } else {
      NumbersByPlace(n, rcs, 0);
    }
    forall j | 0 <= j < |rcs| { NumbersByPlace(n, rcs, j); }
  }

  lemma NoNumbers(n: Numbers)
    ensures DecodedNumbers(n, []) == [] && DecodedCount(n, []) == 0
  {
  }

  // ---------- numerical conditions ----------

  /** x is the first of the texts that is a number. */
  ghost predicate FirstNumber(n: Numbers, texts: seq<string>, x: real) {
    exists i :: 0 <= i < |texts| && n.float(TrimSpace(texts[i])) == Some(x)
      && forall j :: 0 <= j < i ==> n.float(TrimSpace(texts[j])) == None
  }

  lemma {:induction false} FirstFloatByPlace(n: Numbers, texts: seq<string>)
    ensures forall x :: FirstNumber(n, texts, x) <==> FirstFloat(n, texts) == Some(x)
  {
    hide TrimSpace;
    if texts != [] {
      FirstFloatByPlace(n, texts[1..]);
      var first := n.float(TrimSpace(texts[0]));
      forall x
        ensures FirstNumber(n, texts, x) <==> first == Some(x) || (first == None && FirstNumber(n, texts[1..], x))
      {
        FirstOrLater(n, texts, x);
      }
    }
  }

  lemma FirstOrLater(n: Numbers, texts: seq<string>, x: real)
    requires texts != []
    ensures var first := n.float(TrimSpace(texts[0]));
      FirstNumber(n, texts, x) <==> first == Some(x) || (first == None && FirstNumber(n, texts[1..], x))
  {
    hide TrimSpace;
    var first, rest := n.float(TrimSpace(texts[0])), texts[1..];
    if first == None && FirstNumber(n, rest, x) {
      var i :| 0 <= i < |rest| && n.float(TrimSpace(rest[i])) == Some(x)
        && forall j :: 0 <= j < i ==> n.float(TrimSpace(rest[j])) == None;
      assert texts[i + 1] == rest[i];
      assert forall j :: 0 < j < i + 1 ==> n.float(TrimSpace(texts[j])) == n.float(TrimSpace(rest[j - 1]));
    }
    if FirstNumber(n, texts, x) && first != Some(x) {
      var i :| 0 <= i < |texts| && n.float(TrimSpace(texts[i])) == Some(x)
        && forall j :: 0 <= j < i ==> n.float(TrimSpace(texts[j])) == None;
      assert rest[i - 1] == texts[i];
      assert forall j :: 0 <= j < i - 1 ==> rest[j] == texts[j + 1];
    }
  }

  /** The block has a lower bound, with or without itself, and an upper one. */
  ghost predicate HasBand(n: Numbers, band: Option<Bounds>, lo: real, hi: real) {
    band.Some? && FirstNumber(n, band.value.gte + band.value.gt, lo) && FirstNumber(n, band.value.lte, hi)
  }

  /** Half the width of the band as float64 computes it, whichever end is the greater. */
  ghost predicate IsHalfWidth(n: Numbers, lo: real, hi: real, w: real) {
    var m := n.round(n.round(hi - lo) / 2.0);
    w >= 0.0 && (w == m || w == 0.0 - m)
  }

  function Exact(text: string): Option<AnswerOption> {
    if text == "" then None
    else Some(AnswerOption("", text, 0.0, num := NumberFields(numericalType := "exact_answer", exact := text)))
  }

  /**
   * A condition with a varequal under <or>: the first one with half the width of its band as margin, or the band as a
   * range if its lower bound excludes itself, or the value alone if the band is not complete.
   */
  lemma BandConditionIsRead(n: Numbers, c: ConditionVar)
    requires c.underOr != []
    ensures var r, v := NumericalEntry(n, c), TrimSpace(c.underOr[0].value);
      && (forall lo, hi :: HasBand(n, c.band, lo, hi) && c.band.value.gte == [] ==>
            r == Some(AnswerOption("", v, 0.0, num := NumberFields(
              numericalType := "range_answer", start := n.format(lo), end := n.format(hi)))))
      && (forall lo, hi, w :: HasBand(n, c.band, lo, hi) && c.band.value.gte != [] && IsHalfWidth(n, lo, hi, w) ==>
            r == if v == "" then None else Some(Exact(v).value.(num := Exact(v).value.num.(margin := n.format(w)))))
      && ((forall lo, hi :: !HasBand(n, c.band, lo, hi)) ==> r == Exact(v))
  {
    hide TrimSpace, Float, FirstFloat;
    if c.band.Some? {
      FirstFloatByPlace(n, c.band.value.gte + c.band.value.gt);
      FirstFloatByPlace(n, c.band.value.lte);
      forall lo, hi, w | IsHalfWidth(n, lo, hi, w) ensures w == HalfWidth(n, lo, hi) {
      }
      if c.band.value.gte == [] && c.band.value.gt == [] {
        NoFirstFloat(n);
        assert c.band.value.gte + c.band.value.gt == [];
      }
      var lo, hi := FirstFloat(n, c.band.value.gte + c.band.value.gt), FirstFloat(n, c.band.value.lte);
      assert lo.Some? && hi.Some? ==> HasBand(n, c.band, lo.value, hi.value);
    }
  }

  lemma NoFirstFloat(n: Numbers)
    ensures FirstFloat(n, []) == None
  {
  }

  /** Any other condition: a range if it has both bounds, bare or under <and>, otherwise its first direct value. */
  lemma PlainConditionIsRead(n: Numbers, c: ConditionVar)
    requires c.underOr == []
    ensures var r, gte, lte := NumericalEntry(n, c), c.own.gte + c.wrapped.gte, c.own.lte + c.wrapped.lte;
      && (forall lo, hi :: FirstNumber(n, gte, lo) && FirstNumber(n, lte, hi) ==>
            r == Some(AnswerOption("", n.format(lo) + ".." + n.format(hi), 0.0, num := NumberFields(
              numericalType := "range_answer", start := n.format(lo), end := n.format(hi)))))
      && ((forall lo, hi :: !(FirstNumber(n, gte, lo) && FirstNumber(n, lte, hi))) ==>
            r == if c.direct == [] then None else Exact(TrimSpace(c.direct[0].value)))
  {
    hide TrimSpace, Float, FirstFloat;
    var gte, lte := c.own.gte + c.wrapped.gte, c.own.lte + c.wrapped.lte;
    FirstFloatByPlace(n, gte);
    FirstFloatByPlace(n, lte);
    var lo, hi := FirstFloat(n, gte), FirstFloat(n, lte);
    assert lo.Some? && hi.Some? ==> FirstNumber(n, gte, lo.value) && FirstNumber(n, lte, hi.value);
  }
}
