/**
 * The round trip of dropdown answers, which are grouped by their blanks in ascending order: what one trip keeps of an
 * option, and exactly when a second trip changes nothing.
 */
module QtiDropdownTrip {
  import opened QtiModel
  import opened Text
  import opened QtiExporter
  import opened QtiParserClassic
  import opened QtiBlanksTrip

  // ---------- grouping ----------

  /** The options, blank by blank in the order of keys. */
  ghost function Regroup(opts: seq<AnswerOption>, keys: seq<string>): seq<AnswerOption> {
    if keys == [] then [] else Regroup(opts, Init(keys)) + InBlank(opts, Last(keys))
  }

  ghost function Grouped(opts: seq<AnswerOption>): seq<AnswerOption> {
    Regroup(opts, SortedKeys(BlankIDs(opts)))
  }

  ghost predicate InBlankOrder(opts: seq<AnswerOption>) {
    forall i, j :: 0 <= i < j < |opts| ==> !Less(opts[j].blankID, opts[i].blankID)
  }

  lemma {:induction false} InBlankMembers(opts: seq<AnswerOption>, blank: string, o: AnswerOption)
    ensures o in InBlank(opts, blank) <==> o in opts && o.blankID == blank
  {
    if opts != [] {
      InBlankMembers(Init(opts), blank, o);
      assert opts == Init(opts) + [Last(opts)];
    }
  }

  lemma {:induction false} RegroupMembers(opts: seq<AnswerOption>, keys: seq<string>, o: AnswerOption)
    ensures o in Regroup(opts, keys) <==> o in opts && o.blankID in keys
  {
    if keys != [] {
      RegroupMembers(opts, Init(keys), o);
      InBlankMembers(opts, Last(keys), o);
      assert keys == Init(keys) + [Last(keys)];
    }
  }

  lemma GroupedMembers(opts: seq<AnswerOption>, o: AnswerOption)
    ensures o in Grouped(opts) <==> o in opts
  {
    RegroupMembers(opts, SortedKeys(BlankIDs(opts)), o);
  }

  lemma {:induction false} RegroupIsOrdered(opts: seq<AnswerOption>, keys: seq<string>)
    requires Ascending(keys)
    ensures InBlankOrder(Regroup(opts, keys))
  {
    if keys != [] {
      RegroupIsOrdered(opts, Init(keys));
      var before, more := Regroup(opts, Init(keys)), InBlank(opts, Last(keys));
      forall j | 0 <= j < |more| ensures more[j].blankID == Last(keys) {
        InBlankMembers(opts, Last(keys), more[j]);
      }
      LessIsIrreflexive(Last(keys));
      forall i | 0 <= i < |before| ensures !Less(Last(keys), before[i].blankID) {
        RegroupMembers(opts, Init(keys), before[i]);
        var k :| 0 <= k < |Init(keys)| && Init(keys)[k] == before[i].blankID;
        assert Less(before[i].blankID, Last(keys));
        if Less(Last(keys), before[i].blankID) {
          LessIsTransitive(Last(keys), before[i].blankID, Last(keys));
        }
      }
    }
  }

  lemma {:induction false} RegroupSkips(opts: seq<AnswerOption>, keys: seq<string>)
    requires opts != [] && Last(opts).blankID !in keys
    ensures Regroup(opts, keys) == Regroup(Init(opts), keys)
  {
    if keys != [] {
      assert keys == Init(keys) + [Last(keys)];
      RegroupSkips(opts, Init(keys));
    }
  }

  ghost predicate KeysOf(opts: seq<AnswerOption>, keys: seq<string>) {
    Ascending(keys) && forall k :: k in keys <==> k in BlankIDs(opts)
  }

  /** The blank of the last option in blank order is the last key. */
  lemma LastBlankIsLastKey(opts: seq<AnswerOption>, keys: seq<string>)
    requires opts != [] && InBlankOrder(opts) && KeysOf(opts, keys)
    ensures keys != [] && Last(keys) == Last(opts).blankID
    ensures Last(keys) !in Init(keys)
  {
    var k := Last(opts).blankID;
    assert Last(opts) in opts;
    assert k in keys;
    var i :| 0 <= i < |keys| && keys[i] == k;
    assert Last(keys) in keys;
    var o :| o in opts && o.blankID == Last(keys);
    LessIsIrreflexive(k);
    LessIsIrreflexive(Last(keys));
  }

  lemma KeysOfInit(opts: seq<AnswerOption>, keys: seq<string>)
    requires opts != [] && InBlankOrder(opts) && KeysOf(opts, keys)
    ensures keys != [] && InBlankOrder(Init(opts))
    ensures KeysOf(Init(opts), if Last(opts).blankID in BlankIDs(Init(opts)) then keys else Init(keys))
  {
    LastBlankIsLastKey(opts, keys);
    assert opts == Init(opts) + [Last(opts)] && keys == Init(keys) + [Last(keys)];
    assert BlankIDs(opts) == BlankIDs(Init(opts)) + {Last(opts).blankID};
  }

  lemma RegroupLast(opts: seq<AnswerOption>, keys: seq<string>)
    requires opts != [] && keys != [] && Last(keys) == Last(opts).blankID && Last(keys) !in Init(keys)
    ensures Regroup(opts, keys) == Regroup(Init(opts), keys) + [Last(opts)]
  {
    RegroupSkips(opts, Init(keys));
  }

  lemma RegroupLastOfNewBlank(opts: seq<AnswerOption>, keys: seq<string>)
    requires keys != [] && Last(keys) !in BlankIDs(opts)
    ensures Regroup(opts, keys) == Regroup(opts, Init(keys))
  {
    InBlankEmpty(opts, Last(keys));
  }

  /** Grouping options that are already in blank order changes nothing. */
  lemma RegroupNothing(keys: seq<string>)
    requires KeysOf([], keys)
    ensures Regroup([], keys) == []
  {
    assert keys != [] ==> keys[0] in keys;
  }

  lemma {:induction false} RegroupingOrdered(opts: seq<AnswerOption>, keys: seq<string>)
    requires InBlankOrder(opts) && KeysOf(opts, keys)
    ensures Regroup(opts, keys) == opts
  {
    hide InBlankOrder, InBlank, Less, Regroup, KeysOf, Ascending;
    if opts == [] {
      RegroupNothing(keys);
    } else {
      var before, k := Init(opts), Last(opts).blankID;
      LastBlankIsLastKey(opts, keys);
      KeysOfInit(opts, keys);
      RegroupLast(opts, keys);
      if k in BlankIDs(before) {
        RegroupingOrdered(before, keys);
      } else {
        RegroupLastOfNewBlank(before, keys);
        RegroupingOrdered(before, Init(keys));
      }
      assert opts == before + [Last(opts)];
    }
  }

  lemma GroupingOrdered(opts: seq<AnswerOption>)
    requires InBlankOrder(opts)
    ensures Grouped(opts) == opts
  {
    RegroupingOrdered(opts, SortedKeys(BlankIDs(opts)));
  }

  // ---------- the trip ----------

  /** Some option of the blank with a positive weight has this id, up to surrounding whitespace. */
  ghost predicate Chosen(opts: seq<AnswerOption>, blank: string, id: string) {
    exists o :: o in opts && o.weight > 0.0 && o.blankID == blank && TrimSpace(o.id) == id
  }

  ghost function Retouched(opts: seq<AnswerOption>, o: AnswerOption): AnswerOption {
    AnswerOption(o.id, TrimSpace(o.text), if Chosen(opts, o.blankID, o.id) then 100.0 else 0.0,
                 blankID := Bare(o.blankID))
  }

  ghost function RetouchedAll(opts: seq<AnswerOption>, s: seq<AnswerOption>): seq<AnswerOption> {
    seq(|s|, i requires 0 <= i < |s| => Retouched(opts, s[i]))
  }

  ghost function DropdownTrip(opts: seq<AnswerOption>): seq<AnswerOption> {
    RetouchedAll(opts, Grouped(opts))
  }

  lemma {:induction false} DropdownPairs(opts: seq<AnswerOption>, ve: VarEqual)
    ensures ve in KeyPairs(MultipleDropdown, opts)
      <==> exists o :: o in opts && o.weight > 0.0 && ve == VarEqual(o.blankID, o.id)
  {
    if opts != [] {
      DropdownPairs(Init(opts), ve);
      assert opts == Init(opts) + [Last(opts)];
    }
  }

  lemma MarkedIsChosen(opts: seq<AnswerOption>, blank: string, id: string)
    ensures id in Marked(KeyPairs(MultipleDropdown, opts), blank) <==> Chosen(opts, blank, id)
  {
    var pairs := KeyPairs(MultipleDropdown, opts);
    if id in Marked(pairs, blank) {
      var ve :| ve in pairs && ve.respident == blank && TrimSpace(ve.value) == id;
      DropdownPairs(opts, ve);
    }
    if Chosen(opts, blank, id) {
      var o :| o in opts && o.weight > 0.0 && o.blankID == blank && TrimSpace(o.id) == id;
      DropdownPairs(opts, VarEqual(blank, o.id));
    }
  }

  lemma DropdownIsRead(opts: seq<AnswerOption>, blank: string)
    ensures var lid := ResponseLid(blank, [], ChoiceLabels(InBlank(opts, blank)));
      DropdownOptions(lid, KeyPairs(MultipleDropdown, opts))
         == RetouchedAll(opts, InBlank(opts, blank))
  {
    var s := InBlank(opts, blank);
    forall i | 0 <= i < |s|
      ensures s[i].blankID == blank
      ensures s[i].id in Marked(KeyPairs(MultipleDropdown, opts), blank) <==> Chosen(opts, blank, s[i].id)
      ensures FirstMatText([s[i].text]) == TrimSpace(s[i].text)
    {
      InBlankMembers(opts, blank, s[i]);
      MarkedIsChosen(opts, blank, s[i].id);
    }
  }

  lemma {:induction false} DropdownsAreRead(opts: seq<AnswerOption>, keys: seq<string>)
    ensures DropdownAnswers(DropdownLids(opts, keys), KeyPairs(MultipleDropdown, opts))
         == RetouchedAll(opts, Regroup(opts, keys))
  {
    if keys != [] {
      DropdownsAreRead(opts, Init(keys));
      DropdownIsRead(opts, Last(keys));
      var lids := DropdownLids(opts, keys);
      assert Init(lids) == DropdownLids(opts, Init(keys));
      assert Last(lids) == ResponseLid(Last(keys), [], ChoiceLabels(InBlank(opts, Last(keys))));
    }
  }

  // ---------- the answer key survives ----------

  /** With trimmed ids, distinct within each blank, an option's correctness is its own weight's. */
  lemma DropdownKeySurvives(opts: seq<AnswerOption>, i: nat)
    requires forall o :: o in opts ==> TrimSpace(o.id) == o.id && !Prefixed(o.blankID)
    requires forall a, b :: 0 <= a < b < |opts| && opts[a].blankID == opts[b].blankID ==> opts[a].id != opts[b].id
    requires i < |Grouped(opts)|
    ensures |DropdownTrip(opts)| == |Grouped(opts)|
    ensures var o, r := Grouped(opts)[i], DropdownTrip(opts)[i];
      r == AnswerOption(o.id, TrimSpace(o.text), if o.weight > 0.0 then 100.0 else 0.0, blankID := o.blankID)
  {
    var o := Grouped(opts)[i];
    GroupedMembers(opts, o);
    var a :| 0 <= a < |opts| && opts[a] == o;
    if Chosen(opts, o.blankID, o.id) {
      var p :| p in opts && p.weight > 0.0 && p.blankID == o.blankID && TrimSpace(p.id) == o.id;
      var b :| 0 <= b < |opts| && opts[b] == p;
    }
  }

  // ---------- when a second trip changes nothing ----------

  /**
   * Caller-side condition on dropdown questions: no blank carries the prefix twice, dropping the prefix
   * does not swap two blanks, and options that meet under one bare blank id with one id agree on being chosen.
   */
  ghost predicate SteadyDropdown(opts: seq<AnswerOption>) {
    && (forall o :: o in opts ==> !Prefixed(Bare(o.blankID)))
    && (forall o, p :: o in opts && p in opts && Less(o.blankID, p.blankID) ==>
      !Less(Bare(p.blankID), Bare(o.blankID)))
    && (forall o, p :: o in opts && p in opts && Bare(o.blankID) == Bare(p.blankID) && o.id == p.id ==>
      (Chosen(opts, o.blankID, o.id) <==> Chosen(opts, p.blankID, p.id)))
  }

  lemma SteadyIsOrdered(opts: seq<AnswerOption>)
    requires SteadyDropdown(opts)
    ensures InBlankOrder(DropdownTrip(opts))
  {
    var g, once := Grouped(opts), DropdownTrip(opts);
    RegroupIsOrdered(opts, SortedKeys(BlankIDs(opts)));
    forall i, j | 0 <= i < j < |once| ensures !Less(once[j].blankID, once[i].blankID) {
      GroupedMembers(opts, g[i]);
      GroupedMembers(opts, g[j]);
      LessIsTotal(g[i].blankID, g[j].blankID);
      LessIsIrreflexive(once[i].blankID);
    }
  }

  lemma ChosenIdsAreTrimmed(opts: seq<AnswerOption>, blank: string, id: string)
    requires Chosen(opts, blank, id)
    ensures TrimSpace(id) == id
  {
    var o :| o in opts && TrimSpace(o.id) == id;
    TrimSpaceTwice(o.id);
  }

  lemma SteadyKeepsWeight(opts: seq<AnswerOption>, i: nat)
    requires SteadyDropdown(opts) && i < |DropdownTrip(opts)|
    ensures var once := DropdownTrip(opts);
      Chosen(once, once[i].blankID, once[i].id) <==> Chosen(opts, Grouped(opts)[i].blankID, once[i].id)
  {
    hide SortedKeys, Grouped, BlankIDs;
    var g, once := Grouped(opts), DropdownTrip(opts);
    GroupedMembers(opts, g[i]);
    if Chosen(once, once[i].blankID, once[i].id) {
      var r :| r in once && r.weight > 0.0 && r.blankID == once[i].blankID && TrimSpace(r.id) == once[i].id;
      var j :| 0 <= j < |once| && once[j] == r;
      GroupedMembers(opts, g[j]);
      ChosenIdsAreTrimmed(opts, g[j].blankID, g[j].id);
    }
    if Chosen(opts, g[i].blankID, once[i].id) {
      ChosenIdsAreTrimmed(opts, g[i].blankID, once[i].id);
      assert once[i] in once;
    }
  }

  lemma SteadyDropdownIsKept(opts: seq<AnswerOption>)
    requires SteadyDropdown(opts)
    ensures DropdownTrip(DropdownTrip(opts)) == DropdownTrip(opts)
  {
    var g, once := Grouped(opts), DropdownTrip(opts);
    SteadyIsOrdered(opts);
    GroupingOrdered(once);
    forall i | 0 <= i < |once| ensures Retouched(once, once[i]) == once[i] {
      GroupedMembers(opts, g[i]);
      TrimSpaceTwice(g[i].text);
      SteadyKeepsWeight(opts, i);
    }
  }

  lemma GroupedIsOrdered(opts: seq<AnswerOption>)
    ensures InBlankOrder(Grouped(opts))
  {
    RegroupIsOrdered(opts, SortedKeys(BlankIDs(opts)));
  }

  lemma KeptDropdownRetouches(opts: seq<AnswerOption>)
    requires DropdownTrip(opts) == opts
    ensures |Grouped(opts)| == |opts|
    ensures forall i :: 0 <= i < |opts| ==> opts[i].blankID == Bare(Grouped(opts)[i].blankID)
  {
  }

  lemma KeptDropdownIsBare(opts: seq<AnswerOption>)
    requires DropdownTrip(opts) == opts
    ensures forall o :: o in opts ==> !Prefixed(o.blankID)
    ensures InBlankOrder(opts) && Grouped(opts) == opts
  {
    hide DropdownTrip, Grouped, SortedKeys;
    var g := Grouped(opts);
    KeptDropdownRetouches(opts);
    forall p | p in BlankIDs(opts) ensures exists q :: q in BlankIDs(opts) && Bare(q) == p {
      var i :| 0 <= i < |opts| && opts[i].blankID == p;
      GroupedMembers(opts, g[i]);
    }
    StripClosedMeansBare(BlankIDs(opts));
    GroupedIsOrdered(opts);
    forall i | 0 <= i < |opts| ensures opts[i].blankID == g[i].blankID {
      GroupedMembers(opts, g[i]);
      assert g[i].blankID in BlankIDs(opts);
    }
    GroupingOrdered(opts);
  }

  lemma KeptDropdownAgrees(opts: seq<AnswerOption>, i: nat, j: nat)
    requires DropdownTrip(DropdownTrip(opts)) == DropdownTrip(opts)
    requires i < |Grouped(opts)| && j < |Grouped(opts)|
    ensures var o, p := Grouped(opts)[i], Grouped(opts)[j];
      && !Prefixed(Bare(o.blankID))
      && (Less(o.blankID, p.blankID) ==> !Less(Bare(p.blankID), Bare(o.blankID)))
      && (Bare(o.blankID) == Bare(p.blankID) && o.id == p.id ==>
        (Chosen(opts, o.blankID, o.id) <==> Chosen(opts, p.blankID, p.id)))
  {
    hide SortedKeys, Grouped;
    var g, once := Grouped(opts), DropdownTrip(opts);
    KeptDropdownIsBare(once);
    GroupedIsOrdered(opts);
    LessIsIrreflexive(g[i].blankID);
    assert once[i] in once;
    assert once[i] == Retouched(once, once[i]) && once[j] == Retouched(once, once[j]);
  }

  lemma KeptDropdownIsSteady(opts: seq<AnswerOption>)
    requires DropdownTrip(DropdownTrip(opts)) == DropdownTrip(opts)
    ensures SteadyDropdown(opts)
  {
    var g := Grouped(opts);
    forall o | o in opts ensures exists i :: 0 <= i < |g| && g[i] == o {
      GroupedMembers(opts, o);
    }
    forall i, j | 0 <= i < |g| && 0 <= j < |g| {
      KeptDropdownAgrees(opts, i, j);
    }
  }

  /** A second trip of a dropdown question keeps its answers exactly when it is steady. */
  lemma DropdownTripTwice(opts: seq<AnswerOption>)
    ensures DropdownTrip(DropdownTrip(opts)) == DropdownTrip(opts) <==> SteadyDropdown(opts)
  {
    if SteadyDropdown(opts) {
      SteadyDropdownIsKept(opts);
    } else if DropdownTrip(DropdownTrip(opts)) == DropdownTrip(opts) {
      KeptDropdownIsSteady(opts);
    }
  }
}
