/** Whole quizzes and item banks: sorting, the section walk, positions. */
module QtiAssessment {
  import opened QtiModel
  import opened Text
  import opened QtiExporter
  import opened QtiParserClassic
  import opened QtiRoundTrip

  // ---------- sort.SliceStable by position ----------

  ghost predicate Sorted(qs: seq<Question>) {
    forall i, j :: 0 <= i < j < |qs| ==> qs[i].position <= qs[j].position
  }

  ghost function AtPosition(qs: seq<Question>, p: int): seq<Question> {
    if qs == [] then [] else AtPosition(Init(qs), p) + (if Last(qs).position == p then [Last(qs)] else [])
  }

  /** sorted is in order, and questions that share a position keep their relative order. */
  ghost predicate StablySorts(qs: seq<Question>, sorted: seq<Question>) {
    Sorted(sorted) && forall p :: AtPosition(sorted, p) == AtPosition(qs, p)
  }

  lemma {:induction false} AtPositionAppend(a: seq<Question>, b: seq<Question>, p: int)
    ensures AtPosition(a + b, p) == AtPosition(a, p) + AtPosition(b, p)
  {
    if b == [] {
      assert a + b == a;
    } else {
      AtPositionAppend(a, Init(b), p);
      assert Init(a + b) == a + Init(b) && Last(a + b) == Last(b);
    }
  }

  lemma {:induction false} NoneAtPosition(qs: seq<Question>, p: int)
    requires forall i :: 0 <= i < |qs| ==> qs[i].position != p
    ensures AtPosition(qs, p) == []
  {
    if qs != [] {
      NoneAtPosition(Init(qs), p);
    }
  }

  function Place(qs: seq<Question>, p: int): (n: nat)
    ensures n <= |qs|
  {
    if qs != [] && Last(qs).position > p then Place(Init(qs), p) else |qs|
  }

  function InsertStable(qs: seq<Question>, q: Question): seq<Question> {
    var n := Place(qs, q.position);
    qs[..n] + [q] + qs[n..]
  }

  lemma {:induction false} PlaceSplits(qs: seq<Question>, p: int)
    requires Sorted(qs)
    ensures forall i :: 0 <= i < Place(qs, p) ==> qs[i].position <= p
    ensures forall i :: Place(qs, p) <= i < |qs| ==> qs[i].position > p
  {
    if qs != [] && Last(qs).position > p {
      PlaceSplits(Init(qs), p);
    }
  }

  lemma InsertedAtPosition(sorted: seq<Question>, q: Question, p: int)
    requires Sorted(sorted)
    ensures AtPosition(InsertStable(sorted, q), p) == AtPosition(sorted, p) + AtPosition([q], p)
  {
    hide Place;
    var n := Place(sorted, q.position);
    var low, high := sorted[..n], sorted[n..];
    assert sorted == low + high;
    AtPositionAppend(low + [q], high, p);
    AtPositionAppend(low, [q], p);
    AtPositionAppend(low, high, p);
    if p == q.position {
      PlaceSplits(sorted, p);
      NoneAtPosition(high, p);
    } else {
      NoneAtPosition([q], p);
    }
  }

  lemma InsertKeepsStability(qs: seq<Question>, sorted: seq<Question>, q: Question)
    requires StablySorts(qs, sorted)
    ensures StablySorts(qs + [q], InsertStable(sorted, q))
  {
    PlaceSplits(sorted, q.position);
    forall p ensures AtPosition(InsertStable(sorted, q), p) == AtPosition(qs + [q], p) {
      InsertedAtPosition(sorted, q, p);
      AtPositionAppend(qs, [q], p);
    }
  }

  ghost function StableSort(qs: seq<Question>): (sorted: seq<Question>)
    ensures StablySorts(qs, sorted)
  {
    if qs == [] then []
    else
      InsertKeepsStability(Init(qs), StableSort(Init(qs)), Last(qs));
      assert qs == Init(qs) + [Last(qs)];
      InsertStable(StableSort(Init(qs)), Last(qs))
  }

  method SortByPosition(qs: seq<Question>) returns (sorted: seq<Question>)
    ensures sorted == StableSort(qs)
  {
    sorted := [];
    for i := 0 to |qs|
      invariant sorted == StableSort(qs[..i])
    {
      TakeMore(qs, i);
      sorted := InsertStable(sorted, qs[i]);
    }
    assert qs[..|qs|] == qs;
  }

  lemma {:induction false} LastAtItsPosition(qs: seq<Question>)
    requires qs != []
    ensures AtPosition(qs, Last(qs).position) != [] && Last(AtPosition(qs, Last(qs).position)) == Last(qs)
  {
  }

  lemma {:induction false} AtPositionMeansPresent(qs: seq<Question>, p: int)
    requires AtPosition(qs, p) != []
    ensures exists i :: 0 <= i < |qs| && qs[i].position == p
  {
    if Last(qs).position != p {
      AtPositionMeansPresent(Init(qs), p);
    }
  }

  /** There is only one stable sort. */
  lemma {:induction false} StableSortIsUnique(qs: seq<Question>, a: seq<Question>, b: seq<Question>)
    requires StablySorts(qs, a) && StablySorts(qs, b)
    ensures a == b
    decreases |a|
  {
    if a != [] { LastAtItsPosition(a); AtPositionMeansPresent(b, Last(a).position); }
    if b != [] { LastAtItsPosition(b); AtPositionMeansPresent(a, Last(b).position); }
    if a != [] {
      assert Last(a).position == Last(b).position;
      forall p ensures AtPosition(Init(a), p) == AtPosition(Init(b), p) {
        if p == Last(a).position {
          assert AtPosition(Init(a), p) == Init(AtPosition(a, p));
          assert AtPosition(Init(b), p) == Init(AtPosition(b, p));
        } else {
          assert AtPosition(Init(a), p) == AtPosition(a, p);
          assert AtPosition(Init(b), p) == AtPosition(b, p);
        }
      }
      StableSortIsUnique(Init(a), Init(a), Init(b));
      assert a == Init(a) + [Last(a)] && b == Init(b) + [Last(b)];
    }
  }

  // ---------- export ----------

  /** The items of questions, in order; None as soon as one question does not export. */
  ghost predicate ExportedAs(qs: seq<Question>, items: Option<seq<Item>>) {
    match items
    case None => exists i :: 0 <= i < |qs| && ItemOf(qs[i]).None?
    case Some(s) => |s| == |qs| && forall i :: 0 <= i < |qs| ==> ItemOf(qs[i]) == Some(s[i])
  }

  method BuildAssessment(qs: seq<Question>) returns (items: Option<seq<Item>>)
    ensures ExportedAs(StableSort(qs), items)
  {
    var sorted := SortByPosition(qs);
    var out := [];
    for i := 0 to |sorted|
      invariant |out| == i && forall j :: 0 <= j < i ==> ItemOf(sorted[j]) == Some(out[j])
    {
      var item := BuildItem(sorted[i]);
      if item.None? {
        return None;
      }
      out := out + [item.value];
    }
    return Some(out);
  }

  // ---------- import ----------

  datatype Section = Section(sourceBank: string, items: seq<Item>)

  datatype ImportedQuestion =
    | FromItem(position: int, body: Body)
    | BankReference(position: int, bank: string)

  /** One source of a question inside a section. */
  datatype Entry = BankEntry(bank: string) | ItemEntry(item: Item)

  ghost function ItemEntries(items: seq<Item>): seq<Entry> {
    seq(|items|, i requires 0 <= i < |items| => ItemEntry(items[i]))
  }

  ghost function EntriesOf(s: Section): seq<Entry> {
    (if TrimSpace(s.sourceBank) != "" then [BankEntry(TrimSpace(s.sourceBank))] else []) + ItemEntries(s.items)
  }

  ghost function Entries(sections: seq<Section>): seq<Entry> {
    if sections == [] then [] else Entries(Init(sections)) + EntriesOf(Last(sections))
  }

  ghost predicate IsRejected(n: Numbers, entry: Entry) {
    entry.ItemEntry? && Imports(n, entry.item, None)
  }

  ghost predicate Makes(n: Numbers, entry: Entry, q: ImportedQuestion, position: int) {
    q.position == position &&
    match entry
    case BankEntry(bank) => q.BankReference? && q.bank == bank
    case ItemEntry(item) => q.FromItem? && Imports(n, item, Some(q.body))
  }

  /** The questions and rejected items a sequence of entries may be imported as. */
  ghost predicate Parsed(n: Numbers, entries: seq<Entry>, questions: seq<ImportedQuestion>, rejected: seq<Entry>) {
    if entries == [] then questions == [] && rejected == []
    else if IsRejected(n, Last(entries)) then
      rejected != [] && Last(rejected) == Last(entries) && Parsed(n, Init(entries), questions, Init(rejected))
    else
      && questions != [] && Makes(n, Last(entries), Last(questions), |questions| - 1)
      && Parsed(n, Init(entries), Init(questions), rejected)
  }

  method ParseItem(
    n: Numbers, item: Item, ghost entries: seq<Entry>, questions: seq<ImportedQuestion>, rejected: seq<Entry>)
    returns (questions': seq<ImportedQuestion>, rejected': seq<Entry>)
    requires Parsed(n, entries, questions, rejected)
    ensures Parsed(n, entries + [ItemEntry(item)], questions', rejected')
  {
    questions', rejected' := questions, rejected;
    var body := ClassicItemToQuestion(n, item);
    if body.None? {
      rejected' := rejected + [ItemEntry(item)];
    } else {
      questions' := questions + [FromItem(|questions|, body.value)];
    }
  }

  method ParseItems(
    n: Numbers, items: seq<Item>, ghost entries: seq<Entry>, questions: seq<ImportedQuestion>, rejected: seq<Entry>)
    returns (questions': seq<ImportedQuestion>, rejected': seq<Entry>)
    requires Parsed(n, entries, questions, rejected)
    ensures Parsed(n, entries + ItemEntries(items), questions', rejected')
  {
    hide Parsed;
    questions', rejected' := questions, rejected;
    assert entries + ItemEntries(items)[..0] == entries;
    for i := 0 to |items|
      invariant Parsed(n, entries + ItemEntries(items)[..i], questions', rejected')
    {
      questions', rejected' := ParseItem(n, items[i], entries + ItemEntries(items)[..i], questions', rejected');
      assert entries + ItemEntries(items)[..i + 1] == (entries + ItemEntries(items)[..i]) + [ItemEntry(items[i])];
    }
    assert ItemEntries(items)[..|items|] == ItemEntries(items);
  }

  method ParseSection(
    n: Numbers, s: Section, ghost entries: seq<Entry>, questions: seq<ImportedQuestion>, rejected: seq<Entry>)
    returns (questions': seq<ImportedQuestion>, rejected': seq<Entry>)
    requires Parsed(n, entries, questions, rejected)
    ensures Parsed(n, entries + EntriesOf(s), questions', rejected')
  {
    var bank := TrimSpace(s.sourceBank);
    if bank == "" {
      assert EntriesOf(s) == ItemEntries(s.items);
      questions', rejected' := ParseItems(n, s.items, entries, questions, rejected);
    } else {
      questions', rejected' :=
        ParseItems(
          n, s.items, entries + [BankEntry(bank)], questions + [BankReference(|questions|, bank)], rejected);
      assert (entries + [BankEntry(bank)]) + ItemEntries(s.items) == entries + EntriesOf(s);
    }
  }

  method ParseClassicAssessment(n: Numbers, sections: seq<Section>)
    returns (questions: seq<ImportedQuestion>, rejected: seq<Entry>)
    ensures Parsed(n, Entries(sections), questions, rejected)
  {
    questions, rejected := [], [];
    for i := 0 to |sections|
      invariant Parsed(n, Entries(sections[..i]), questions, rejected)
    {
      TakeMore(sections, i);
      questions, rejected := ParseSection(n, sections[i], Entries(sections[..i]), questions, rejected);
    }
    assert sections[..|sections|] == sections;
  }

  function EntryCount(sections: seq<Section>): nat {
    if sections == [] then 0
    else
      var s := Last(sections);
      EntryCount(Init(sections)) + (if TrimSpace(s.sourceBank) != "" then 1 else 0) + |s.items|
  }

  lemma EntriesOfOne(s: Section)
    ensures |EntriesOf(s)| == (if TrimSpace(s.sourceBank) != "" then 1 else 0) + |s.items|
    ensures TrimSpace(s.sourceBank) != "" ==> EntriesOf(s)[0] == BankEntry(TrimSpace(s.sourceBank))
    ensures forall k :: 0 <= k < |s.items| ==> EntriesOf(s)[|EntriesOf(s)| - |s.items| + k] == ItemEntry(s.items[k])
  {
    hide TrimSpace;
  }

  lemma EntriesOneMore(sections: seq<Section>)
    requires sections != []
    ensures Entries(sections) == Entries(Init(sections)) + EntriesOf(Last(sections))
    ensures EntryCount(sections) == EntryCount(Init(sections)) + |EntriesOf(Last(sections))|
  {
    hide TrimSpace, EntriesOf;
    EntriesOfOne(Last(sections));
  }

  lemma NoEntries()
    ensures Entries([]) == [] && EntryCount([]) == 0
  {
  }

  lemma {:induction false} EntriesInOrder(sections: seq<Section>, i: nat)
    requires i < |sections|
    ensures |Entries(sections)| == EntryCount(sections)
    ensures var p := EntryCount(sections[..i]);
      var q := p + |EntriesOf(sections[i])|;
      q <= |Entries(sections)| && Entries(sections)[p..q] == EntriesOf(sections[i])
  {
    hide Entries, EntryCount, EntriesOf;
    var n := |sections| - 1;
    EntriesOneMore(sections);
    NoEntries();
    if n > 0 {
      EntriesInOrder(Init(sections), if i < n then i else 0);
    }
    var p := EntryCount(sections[..i]);
    SlicesOfAppend(Entries(Init(sections)), EntriesOf(sections[n]), p, p + |EntriesOf(sections[i])|);
    if i < n {
      assert Init(sections)[..i] == sections[..i];
    } else {
      assert Init(sections) == sections[..i];
    }
  }

  /** The entries of a file: section by section its bank, if it names one, and then its items. */
  lemma EntriesByPlace(sections: seq<Section>, i: nat)
    requires i < |sections|
    ensures |Entries(sections)| == EntryCount(sections)
    ensures var s, p, all := sections[i], EntryCount(sections[..i]), Entries(sections);
      var q := if TrimSpace(s.sourceBank) != "" then p + 1 else p;
      && q + |s.items| <= |all|
      && (q == p + 1 ==> all[p] == BankEntry(TrimSpace(s.sourceBank)))
      && forall k :: 0 <= k < |s.items| ==> all[q + k] == ItemEntry(s.items[k])
  {
    hide TrimSpace, EntriesOf, Entries, EntryCount;
    var s, p, all := sections[i], EntryCount(sections[..i]), Entries(sections);
    EntriesOfOne(s);
    EntriesInOrder(sections, i);
    assert forall k :: 0 <= k < |EntriesOf(s)| ==> all[p + k] == all[p..p + |EntriesOf(s)|][k] == EntriesOf(s)[k];
  }

  ghost predicate Ascends(at: seq<int>) {
    forall i, j :: 0 <= i < j < |at| ==> at[i] < at[j]
  }

  ghost predicate MadeAt(n: Numbers, entries: seq<Entry>, questions: seq<ImportedQuestion>, made: seq<int>) {
    && |made| == |questions|
    && forall k :: 0 <= k < |made| ==> 0 <= made[k] < |entries| && Makes(n, entries[made[k]], questions[k], k)
  }

  ghost predicate DroppedAt(entries: seq<Entry>, rejected: seq<Entry>, dropped: seq<int>) {
    && |dropped| == |rejected|
    && forall k :: 0 <= k < |dropped| ==> 0 <= dropped[k] < |entries| && rejected[k] == entries[dropped[k]]
  }

  ghost predicate Covers(n: Numbers, entries: seq<Entry>, made: seq<int>, dropped: seq<int>) {
    forall i :: 0 <= i < |entries| ==> if IsRejected(n, entries[i]) then i in dropped else i in made
  }

  lemma MadeMore(n: Numbers, entries: seq<Entry>, questions: seq<ImportedQuestion>, made: seq<int>)
    requires entries != [] && Ascends(made)
    ensures MadeAt(n, Init(entries), questions, made) ==> MadeAt(n, entries, questions, made)
    ensures questions != [] && MadeAt(n, Init(entries), Init(questions), made)
            && Makes(n, Last(entries), Last(questions), |questions| - 1) ==>
      MadeAt(n, entries, questions, made + [|entries| - 1]) && Ascends(made + [|entries| - 1])
  {
    hide Makes;
  }

  lemma DroppedMore(entries: seq<Entry>, rejected: seq<Entry>, dropped: seq<int>)
    requires entries != [] && Ascends(dropped)
    ensures DroppedAt(Init(entries), rejected, dropped) ==> DroppedAt(entries, rejected, dropped)
    ensures rejected != [] && DroppedAt(Init(entries), Init(rejected), dropped) && Last(rejected) == Last(entries) ==>
      DroppedAt(entries, rejected, dropped + [|entries| - 1]) && Ascends(dropped + [|entries| - 1])
  {
  }

  lemma CoversMore(n: Numbers, entries: seq<Entry>, made: seq<int>, dropped: seq<int>)
    requires entries != [] && Covers(n, Init(entries), made, dropped)
    ensures var r, last := IsRejected(n, Last(entries)), [|entries| - 1];
      Covers(n, entries, if r then made else made + last, if r then dropped + last else dropped)
  {
    hide IsRejected;
    assert forall i :: 0 <= i < |entries| - 1 ==> Init(entries)[i] == entries[i];
  }

  /**
   * Every entry becomes a question or is rejected, in order, and the questions are numbered without regard to rejected
   * items: question k is made of entry made[k], rejection k of entry dropped[k].
   */
  lemma {:induction false} FileIsRead(
    n: Numbers, entries: seq<Entry>, questions: seq<ImportedQuestion>, rejected: seq<Entry>)
    returns (made: seq<int>, dropped: seq<int>)
    requires Parsed(n, entries, questions, rejected)
    ensures Ascends(made) && MadeAt(n, entries, questions, made)
    ensures Ascends(dropped) && DroppedAt(entries, rejected, dropped)
    ensures Covers(n, entries, made, dropped)
  {
    made, dropped := [], [];
    if entries != [] {
      hide Imports, Makes, IsRejected, MadeAt, DroppedAt, Covers, Ascends;
      var last := |entries| - 1;
      if IsRejected(n, entries[last]) {
        made, dropped := FileIsRead(n, Init(entries), questions, Init(rejected));
      } else {
        made, dropped := FileIsRead(n, Init(entries), Init(questions), rejected);
      }
      CoversMore(n, entries, made, dropped);
      MadeMore(n, entries, questions, made);
      DroppedMore(entries, rejected, dropped);
      if IsRejected(n, entries[last]) {
        dropped := dropped + [last];
      } else {
        made := made + [last];
      }
    }
  }

  /** Whatever a file holds, imported questions are numbered 0, 1, 2, ... */
  lemma {:induction false} PositionsAreConsecutive(
    n: Numbers, entries: seq<Entry>, questions: seq<ImportedQuestion>, rejected: seq<Entry>)
    requires Parsed(n, entries, questions, rejected)
    ensures forall i :: 0 <= i < |questions| ==> questions[i].position == i
    ensures |questions| + |rejected| == |entries|
  {
    hide Imports, IsRejected;
    if entries != [] {
      if IsRejected(n, Last(entries)) {
        PositionsAreConsecutive(n, Init(entries), questions, Init(rejected));
      } else {
        PositionsAreConsecutive(n, Init(entries), Init(questions), rejected);
      }
    }
  }

  lemma ExportedItemMakes(n: Numbers, q: Question, item: Item, r: ImportedQuestion, position: int)
    requires ItemOf(q) == Some(item)
    ensures !IsRejected(n, ItemEntry(item))
    ensures Makes(n, ItemEntry(item), r, position) ==> r == FromItem(position, TripOf(q.body))
  {
    RoundTrip(n, q, item, None);
    if r.FromItem? {
      RoundTrip(n, q, item, Some(r.body));
    }
  }

  /** When no entry is rejected, entry i makes question i. */
  lemma {:induction false} ParsedInOrder(
    n: Numbers, entries: seq<Entry>, questions: seq<ImportedQuestion>, rejected: seq<Entry>)
    requires Parsed(n, entries, questions, rejected)
    requires forall i :: 0 <= i < |entries| ==> !IsRejected(n, entries[i])
    ensures rejected == [] && |questions| == |entries|
    ensures forall i :: 0 <= i < |entries| ==> Makes(n, entries[i], questions[i], i)
  {
    hide Makes, IsRejected;
    if entries != [] {
      assert !IsRejected(n, Last(entries));
      ParsedInOrder(n, Init(entries), Init(questions), rejected);
    }
  }

  /**
   * The whole quiz: when every question exports, no item is rejected and question i of the import is,
   * at position i, the trip of question i of the originals stably sorted by position.
   */
  lemma QuizRoundTrip(
    n: Numbers, qs: seq<Question>, items: seq<Item>, questions: seq<ImportedQuestion>, rejected: seq<Entry>)
    requires ExportedAs(StableSort(qs), Some(items))
    requires Parsed(n, Entries([Section("", items)]), questions, rejected)
    ensures rejected == [] && |questions| == |StableSort(qs)|
    ensures forall i :: 0 <= i < |questions| ==> questions[i] == FromItem(i, TripOf(StableSort(qs)[i].body))
  {
    var s := Section("", items);
    assert TrimSpace("") == "";
    assert Init([s]) == [];
    assert Entries([s]) == ItemEntries(items);
    forall i | 0 <= i < |items| ensures !IsRejected(n, ItemEntries(items)[i]) {
      ExportedItemMakes(n, StableSort(qs)[i], items[i], BankReference(0, ""), 0);
    }
    ParsedInOrder(n, ItemEntries(items), questions, rejected);
    forall i | 0 <= i < |items| ensures questions[i] == FromItem(i, TripOf(StableSort(qs)[i].body)) {
      ExportedItemMakes(n, StableSort(qs)[i], items[i], questions[i], i);
    }
  }

  // ---------- item banks ----------

  datatype BankItem = BankItem(position: int, body: Body)

  /** buildBankXML's synthetic question: it has no id, and a bank item without points is worth 0, not 1. */
  function AsQuestion(b: BankItem): Question {
    Question(0, b.position, b.body.(points := Some(if b.body.points.Some? then b.body.points.value else 0.0)))
  }

  ghost function AsQuestions(bank: seq<BankItem>): seq<Question> {
    seq(|bank|, i requires 0 <= i < |bank| => AsQuestion(bank[i]))
  }

  method BuildBank(bank: seq<BankItem>) returns (items: Option<seq<Item>>)
    ensures ExportedAs(AsQuestions(bank), items)
  {
    var out := [];
    for i := 0 to |bank|
      invariant |out| == i && forall j :: 0 <= j < i ==> ItemOf(AsQuestions(bank)[j]) == Some(out[j])
    {
      var item := BuildItem(AsQuestion(bank[i]));
      if item.None? {
        assert ItemOf(AsQuestions(bank)[i]).None?;
        return None;
      }
      out := out + [item.value];
    }
    return Some(out);
  }

  /** The bank a file's items may be read as: rejected items are dropped, the others keep their index as position. */
  ghost predicate BankParsed(n: Numbers, items: seq<Item>, bank: seq<BankItem>) {
    if items == [] then bank == []
    else if Imports(n, Last(items), None) then BankParsed(n, Init(items), bank)
    else
      && bank != [] && Last(bank).position == |items| - 1 && Imports(n, Last(items), Some(Last(bank).body))
      && BankParsed(n, Init(items), Init(bank))
  }

  lemma BankParsedMore(n: Numbers, items: seq<Item>, i: nat, bank: seq<BankItem>, body: Option<Body>)
    requires i < |items| && BankParsed(n, items[..i], bank) && Imports(n, items[i], body)
    ensures BankParsed(n, items[..i + 1], if body.None? then bank else bank + [BankItem(i, body.value)])
  {
    TakeMore(items, i);
    if body.Some? {
      var more := bank + [BankItem(i, body.value)];
      assert Init(more) == bank && Last(more) == BankItem(i, body.value);
    }
  }

  method ParseClassicBank(n: Numbers, items: seq<Item>) returns (bank: seq<BankItem>)
    ensures BankParsed(n, items, bank)
  {
    bank := [];
    assert BankParsed(n, items[..0], bank);
    hide BankParsed, Imports;
    for i := 0 to |items|
      invariant BankParsed(n, items[..i], bank)
    {
      var body := ClassicItemToQuestion(n, items[i]);
      BankParsedMore(n, items, i, bank, body);
      if body.None? {
        continue;
      }
      bank := bank + [BankItem(i, body.value)];
    }
    assert items[..|items|] == items;
  }

  /** A bank's positions ascend and leave a gap for every rejected item. */
  lemma {:induction false} BankPositionsAscend(n: Numbers, items: seq<Item>, bank: seq<BankItem>)
    requires BankParsed(n, items, bank)
    ensures |bank| <= |items|
    ensures forall i :: 0 <= i < |bank| ==>
      i <= bank[i].position < |items| && Imports(n, items[bank[i].position], Some(bank[i].body))
    ensures forall i, j :: 0 <= i < j < |bank| ==> bank[i].position < bank[j].position
  {
    hide Imports;
    if items != [] {
      if Imports(n, Last(items), None) {
        BankPositionsAscend(n, Init(items), bank);
      } else {
        BankPositionsAscend(n, Init(items), Init(bank));
        assert bank == Init(bank) + [Last(bank)];
      }
    }
  }

  lemma PointsOfBankItem(b: BankItem)
    ensures TripOf(AsQuestion(b).body).points == if b.body.points.Some? then b.body.points else Some(0.0)
  {
    hide TripAnswers, Degraded, TrimSpace;
  }

  lemma {:induction false} ExportedBankIsRead(n: Numbers, bank: seq<BankItem>, items: seq<Item>, again: seq<BankItem>)
    requires |items| == |bank|
    requires forall i :: 0 <= i < |bank| ==> ItemOf(AsQuestion(bank[i])) == Some(items[i])
    requires BankParsed(n, items, again)
    ensures |again| == |bank|
    ensures forall i :: 0 <= i < |bank| ==> again[i] == BankItem(i, TripOf(AsQuestion(bank[i]).body))
  {
    hide Imports, ItemOf, TripOf, AsQuestion;
    if items != [] {
      RoundTrip(n, AsQuestion(Last(bank)), Last(items), None);
      RoundTrip(n, AsQuestion(Last(bank)), Last(items), Some(Last(again).body));
      ExportedBankIsRead(n, Init(bank), Init(items), Init(again));
      assert again == Init(again) + [Last(again)];
    }
  }

  /**
   * The whole bank: when every item exports, item i comes back as its own trip, renumbered to position i, and without
   * points it comes back with 0.
   */
  lemma BankRoundTrip(n: Numbers, bank: seq<BankItem>, items: seq<Item>, again: seq<BankItem>)
    requires ExportedAs(AsQuestions(bank), Some(items)) && BankParsed(n, items, again)
    ensures |again| == |bank|
    ensures forall i :: 0 <= i < |bank| ==> again[i] == BankItem(i, TripOf(AsQuestion(bank[i]).body))
    ensures forall i :: 0 <= i < |bank| ==>
      again[i].body.points == if bank[i].body.points.Some? then bank[i].body.points else Some(0.0)
  {
    forall i | 0 <= i < |bank| { PointsOfBankItem(bank[i]); }
    hide Imports, ItemOf, TripOf, AsQuestion, BankParsed;
    forall i | 0 <= i < |bank| ensures ItemOf(AsQuestion(bank[i])) == Some(items[i]) {
      assert AsQuestions(bank)[i] == AsQuestion(bank[i]);
    }
    ExportedBankIsRead(n, bank, items, again);
  }
}
