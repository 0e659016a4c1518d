/** Matching verdicts before and after a round trip. */
module QtiMatchingVerdicts {
  import opened QtiModel
  import opened Text
  import opened QtiExporter
  import opened QtiParserClassic
  import opened QtiKeyTrip
  import opened QtiBlanksTrip

  // ---------- grading ----------

  /** matchingKey: what a student's pair must name on the left. */
  function MatchingKey(o: AnswerOption): string {
    if o.left != "" then o.left else o.id
  }

  /** The right id of an entry: Canvas spells it match_id. */
  function RightID(o: AnswerOption): string {
    if o.rightID != "" then o.rightID else o.matchID
  }

  /** The entry adds to the answer key. */
  predicate Keys(o: AnswerOption) {
    !InPool(o) && MatchingKey(o) != "" && RightID(o) != ""
  }

  /** gradeMatching's answer key: left name -> right id, the last entry of a name counting; the pool is skipped. */
  ghost function CorrectByLeft(opts: seq<AnswerOption>): map<string, string> {
    if opts == [] then map[]
    else
      var before, o := CorrectByLeft(Init(opts)), Last(opts);
      if Keys(o) then before[MatchingKey(o) := RightID(o)] else before
  }

  type Pairing = (string, string)

  /** The right id a submission pairs with a left name: the first one counts. */
  ghost function FirstRight(submitted: seq<Pairing>, left: string): Option<string> {
    if submitted == [] then None
    else if submitted[0].0 == left then Some(submitted[0].1)
    else FirstRight(submitted[1..], left)
  }

  /** Every left name of the key is paired correctly. */
  ghost predicate PairsAreCorrect(key: map<string, string>, submitted: seq<Pairing>) {
    forall k :: k in key ==> FirstRight(submitted, k) == Some(key[k])
  }

  /** gradeMatching */
  ghost function MatchingVerdict(key: map<string, string>, submitted: seq<Pairing>): Verdict {
    if key == map[] then Manual else Graded(PairsAreCorrect(key, submitted))
  }

  lemma {:induction false} Listing(key: map<string, string>) returns (s: seq<Pairing>)
    ensures forall k :: FirstRight(s, k) == if k in key then Some(key[k]) else None
    decreases |key|
  {
    if key == map[] {
      s := [];
    } else {
      var k :| k in key;
      var rest := Listing(key - {k});
      s := [(k, key[k])] + rest;
      assert s[1..] == rest;
    }
  }

  /** Two keys give every submission the same verdict. */
  ghost predicate SameVerdicts(a: map<string, string>, b: map<string, string>) {
    forall s :: MatchingVerdict(a, s) == MatchingVerdict(b, s)
  }

  /** Different keys are told apart by some submission. */
  lemma VerdictsDecideKey(a: map<string, string>, b: map<string, string>)
    ensures SameVerdicts(a, b) <==> a == b
  {
    var s := Listing(a);
    var t := Listing(b);
    if a != b {
      assert PairsAreCorrect(a, s) && PairsAreCorrect(b, t);
      assert MatchingVerdict(a, s) == Graded(true) || a == map[];
      assert MatchingVerdict(b, t) == Graded(true) || b == map[];
    }
  }

  lemma PoolHasNoKeys(o: AnswerOption)
    ensures InPool(o) ==> !Keys(o)
  {
  }

  lemma {:induction false} PoolIsSkipped(opts: seq<AnswerOption>)
    ensures CorrectByLeft(LeftItems(opts)) == CorrectByLeft(opts)
  {
    hide Keys, InPool, MatchingKey;
    if opts != [] {
      PoolIsSkipped(Init(opts));
      PoolHasNoKeys(Last(opts));
      var before := LeftItems(Init(opts));
      if InPool(Last(opts)) {
        assert LeftItems(opts) == before;
      } else {
        assert Init(before + [Last(opts)]) == before && Last(before + [Last(opts)]) == Last(opts);
      }
    }
  }

  lemma {:induction false} LeftsAreNoPool(opts: seq<AnswerOption>)
    ensures forall o :: o in LeftItems(opts) ==> !InPool(o)
  {
    hide InPool;
    if opts != [] {
      LeftsAreNoPool(Init(opts));
    }
  }

  /** The names of an answer key are those of its entries. */
  lemma {:induction false} NamesOfKey(opts: seq<AnswerOption>, k: string)
    ensures k in CorrectByLeft(opts) <==> exists o :: o in opts && Keys(o) && MatchingKey(o) == k
  {
    hide Keys, MatchingKey;
    if opts != [] {
      NamesOfKey(Init(opts), k);
      assert opts == Init(opts) + [Last(opts)];
    }
  }

  // ---------- the key that is read back ----------

  /** The right id that comes back under a name: that of the last left item whose ident, bare, is the name. */
  ghost function ReadBack(lefts: seq<AnswerOption>, pairs: seq<VarEqual>, k: string): string {
    if lefts == [] then ""
    else
      var ident := LeftIdent(Last(lefts));
      if Bare(ident) == k && RightOf(pairs, ident) != "" then RightOf(pairs, ident)
      else ReadBack(Init(lefts), pairs, k)
  }

  ghost function PairTrips(lefts: seq<AnswerOption>, pairs: seq<VarEqual>): seq<AnswerOption> {
    seq(|lefts|, i requires 0 <= i < |lefts| => PairTrip(LeftIdent(lefts[i]), pairs))
  }

  lemma TrippedPair(ident: string, pairs: seq<VarEqual>)
    ensures MatchingKey(PairTrip(ident, pairs)) == Bare(ident)
    ensures Keys(PairTrip(ident, pairs)) ==> RightID(PairTrip(ident, pairs)) == RightOf(pairs, ident)
    ensures Keys(PairTrip(ident, pairs)) <==> Bare(ident) != "" && RightOf(pairs, ident) != ""
  {
  }

  lemma {:induction false} TripIsReadBack(lefts: seq<AnswerOption>, pairs: seq<VarEqual>, k: string)
    ensures var key := CorrectByLeft(PairTrips(lefts, pairs));
      && (k in key <==> k != "" && ReadBack(lefts, pairs, k) != "")
      && (k in key ==> key[k] == ReadBack(lefts, pairs, k))
  {
    hide RightOf, Keys, MatchingKey, PairTrip, Bare;
    if lefts != [] {
      TripIsReadBack(Init(lefts), pairs, k);
      assert Init(PairTrips(lefts, pairs)) == PairTrips(Init(lefts), pairs);
      TrippedPair(LeftIdent(Last(lefts)), pairs);
    }
  }

  lemma {:induction false} NamesReadBack(lefts: seq<AnswerOption>, pairs: seq<VarEqual>, k: string)
    ensures ReadBack(lefts, pairs, k) != ""
       <==> exists p :: p in lefts && Bare(LeftIdent(p)) == k && RightOf(pairs, LeftIdent(p)) != ""
  {
    hide RightOf, Bare;
    if lefts != [] {
      NamesReadBack(Init(lefts), pairs, k);
      assert lefts == Init(lefts) + [Last(lefts)];
    }
  }

  /** The right id a name is graded with. */
  ghost function GradedRight(opts: seq<AnswerOption>, k: string): string {
    if k in CorrectByLeft(opts) then CorrectByLeft(opts)[k] else ""
  }

  lemma {:induction false} RightsAreNotEmpty(opts: seq<AnswerOption>, k: string)
    ensures k in CorrectByLeft(opts) <==> GradedRight(opts, k) != ""
    ensures k in CorrectByLeft(opts) ==> k != ""
  {
    if opts != [] {
      RightsAreNotEmpty(Init(opts), k);
    }
  }

  /** Each graded pair is read back under its own name with its right id. */
  ghost predicate GradedPairsComeBack(opts: seq<AnswerOption>) {
    forall o :: o in LeftItems(opts) && Keys(o) ==>
      ReadBack(LeftItems(opts), KeyPairs(Matching, opts), MatchingKey(o)) == GradedRight(opts, MatchingKey(o))
  }

  /** No pair is read back under a name that is not graded. */
  ghost predicate OnlyGradedPairsComeBack(opts: seq<AnswerOption>) {
    var lefts, pairs := LeftItems(opts), KeyPairs(Matching, opts);
    forall p :: p in lefts && Bare(LeftIdent(p)) != "" && RightOf(pairs, LeftIdent(p)) != "" ==>
      exists o :: o in lefts && Keys(o) && MatchingKey(o) == Bare(LeftIdent(p))
  }

  /** What the two answer keys hold under a name. */
  lemma UnderOneName(opts: seq<AnswerOption>, k: string)
    ensures var lefts, pairs := LeftItems(opts), KeyPairs(Matching, opts);
      var once, key := CorrectByLeft(MatchingTrip(opts)), CorrectByLeft(opts);
      && (k in key <==> exists o :: o in lefts && Keys(o) && MatchingKey(o) == k)
      && (k in key ==> k != "" && key[k] == GradedRight(opts, k) != "")
      && (k in once <==> k != "" && ReadBack(lefts, pairs, k) != "")
      && (k in once ==> once[k] == ReadBack(lefts, pairs, k))
      && (ReadBack(lefts, pairs, k) != ""
          <==> exists p :: p in lefts && Bare(LeftIdent(p)) == k && RightOf(pairs, LeftIdent(p)) != "")
  {
    var lefts, pairs := LeftItems(opts), KeyPairs(Matching, opts);
    assert MatchingTrip(opts) == PairTrips(lefts, pairs);
    PoolIsSkipped(opts);
    hide RightOf, Keys, MatchingKey, PairTrip, Bare, CorrectByLeft, MatchingTrip, LeftItems, KeyPairs, ReadBack;
    RightsAreNotEmpty(opts, k);
    NamesOfKey(lefts, k);
    TripIsReadBack(lefts, pairs, k);
    NamesReadBack(lefts, pairs, k);
  }

  /**
   * The trip promises equivalence for matching questions but writes no left labels, and names left items by their ids
   * where grading names them by their labels. For every question, verdicts on all submissions survive exactly when
   * each graded pair is read back under its own name and no other pair is read back.
   */
  lemma MatchingVerdictsSurvive(opts: seq<AnswerOption>)
    ensures SameVerdicts(CorrectByLeft(MatchingTrip(opts)), CorrectByLeft(opts))
       <==> GradedPairsComeBack(opts) && OnlyGradedPairsComeBack(opts)
  {
    hide RightOf, Keys, MatchingKey, Bare, CorrectByLeft, SameVerdicts, MatchingTrip, LeftItems, KeyPairs, ReadBack;
    hide GradedRight;
    var once, key := CorrectByLeft(MatchingTrip(opts)), CorrectByLeft(opts);
    VerdictsDecideKey(once, key);
    if GradedPairsComeBack(opts) && OnlyGradedPairsComeBack(opts) {
      forall k ensures k in once <==> k in key ensures k in once && k in key ==> once[k] == key[k] {
        UnderOneName(opts, k);
      }
      assert once == key;
    }
    if once == key {
      forall o | o in LeftItems(opts) && Keys(o)
        ensures ReadBack(LeftItems(opts), KeyPairs(Matching, opts), MatchingKey(o)) == GradedRight(opts, MatchingKey(o))
      {
        UnderOneName(opts, MatchingKey(o));
      }
      forall p | p in LeftItems(opts) { UnderOneName(opts, Bare(LeftIdent(p))); }
    }
  }

  /** Under bare idents a name is read back with the first right id given under it as an id, if any item has it. */
  lemma {:induction false} ReadBackByIdent(lefts: seq<AnswerOption>, pairs: seq<VarEqual>, k: string)
    requires forall p :: p in lefts ==> !Prefixed(LeftIdent(p))
    ensures ReadBack(lefts, pairs, k) == if exists p :: p in lefts && LeftIdent(p) == k then RightOf(pairs, k) else ""
  {
    hide RightOf;
    if lefts != [] {
      assert lefts == Init(lefts) + [Last(lefts)];
      ReadBackByIdent(Init(lefts), pairs, k);
    }
  }

  /**
   * A pair without an id, the shape grading documents, is exported under its label but keyed under the empty id: unless
   * another entry has the label as its id, its right id is lost.
   */
  lemma PairWithoutIdIsLost(opts: seq<AnswerOption>, o: AnswerOption)
    requires o in LeftItems(opts) && Keys(o) && o.id == "" && forall q :: q in opts ==> Bare(q.id) != o.left
    ensures !SameVerdicts(CorrectByLeft(MatchingTrip(opts)), CorrectByLeft(opts))
  {
    var lefts, pairs := LeftItems(opts), KeyPairs(Matching, opts);
    hide RightOf, Bare, CorrectByLeft, SameVerdicts, MatchingTrip, LeftItems, KeyPairs, ReadBack;
    NamesReadBack(lefts, pairs, o.left);
    forall p | p in lefts && Bare(LeftIdent(p)) == o.left ensures RightOf(pairs, LeftIdent(p)) == "" {
      NoRightMeansNone(opts, LeftIdent(p));
    }
    PoolIsSkipped(opts);
    NamesOfKey(lefts, o.left);
    RightsAreNotEmpty(opts, o.left);
    MatchingVerdictsSurvive(opts);
  }

  lemma OneLeftItem(o: AnswerOption)
    requires !InPool(o)
    ensures LeftItems([o]) == [o] && o in LeftItems([o])
  {
    var opts := [o];
    assert Init(opts) == [] && Last(opts) == o;
  }

  lemma LabelledWithoutId(o: AnswerOption)
    requires o.id == "" && o.left != "" && o.rightID != "" && o.blankID == ""
    ensures !InPool(o) && Keys(o) && Bare(o.id) != o.left
  {
    assert |MATCH_POOL| > 0;
  }

  /** France, paired with paris and nothing else. */
  lemma IdlessPairIsLost() returns (opts: seq<AnswerOption>)
    ensures opts == [AnswerOption("", "", 100.0, left := "France", rightID := "paris")]
    ensures !SameVerdicts(CorrectByLeft(MatchingTrip(opts)), CorrectByLeft(opts))
  {
    hide RightOf, Bare, Keys, CorrectByLeft, SameVerdicts, MatchingTrip, LeftItems, InPool, MatchingKey;
    var o := AnswerOption("", "", 100.0, left := "France", rightID := "paris");
    opts := [o];
    LabelledWithoutId(o);
    OneLeftItem(o);
    PairWithoutIdIsLost(opts, o);
  }

  /** A label of its own is enough to break it: the only left item of a question is then known by another name. */
  lemma LabelBreaksMatching(id: string, left: string, right: string)
    requires id != "" && left != "" && right != "" && Bare(id) != left
    ensures var opts := [AnswerOption(id, "", 100.0, left := left, rightID := right)];
      !SameVerdicts(CorrectByLeft(MatchingTrip(opts)), CorrectByLeft(opts))
  {
    var o := AnswerOption(id, "", 100.0, left := left, rightID := right);
    var opts := [o];
    assert !InPool(o) by { assert |MATCH_POOL| > 0; }
    OneLeftItem(o);
    hide RightOf, Bare, CorrectByLeft, SameVerdicts, MatchingTrip, LeftItems, KeyPairs, ReadBack;
    NamesReadBack([o], KeyPairs(Matching, opts), left);
    NamesOfKey([o], left);
    RightsAreNotEmpty(opts, left);
    MatchingVerdictsSurvive(opts);
  }

  /** Canvas's spelling of a right id is graded and not exported. */
  lemma MatchIdIsLost(id: string, right: string)
    requires id != "" && right != ""
    ensures var opts := [AnswerOption(id, "", 100.0, matchID := right)];
      !SameVerdicts(CorrectByLeft(MatchingTrip(opts)), CorrectByLeft(opts))
  {
    var o := AnswerOption(id, "", 100.0, matchID := right);
    var opts := [o];
    assert !InPool(o) by { assert |MATCH_POOL| > 0; }
    OneLeftItem(o);
    forall ident { NoRightMeansNone(opts, ident); }
    hide RightOf, Bare, CorrectByLeft, SameVerdicts, MatchingTrip, LeftItems, KeyPairs, ReadBack;
    NamesReadBack([o], KeyPairs(Matching, opts), id);
    NamesOfKey([o], id);
    RightsAreNotEmpty(opts, id);
    MatchingVerdictsSurvive(opts);
  }

  lemma {:induction false} GradedRightOfAgreeing(opts: seq<AnswerOption>, o: AnswerOption)
    requires o in opts && Keys(o)
    requires forall q :: q in opts && Keys(q) && MatchingKey(q) == MatchingKey(o) ==> RightID(q) == RightID(o)
    ensures GradedRight(opts, MatchingKey(o)) == RightID(o)
  {
    hide Keys, MatchingKey;
    assert opts == Init(opts) + [Last(opts)];
    if !(Keys(Last(opts)) && MatchingKey(Last(opts)) == MatchingKey(o)) {
      GradedRightOfAgreeing(Init(opts), o);
    }
  }

  /** The shape the importer writes survives: labels that are the bare ids, and entries with one id agreeing. */
  lemma AgreeingPairsSurvive(opts: seq<AnswerOption>)
    requires forall o :: o in LeftItems(opts) ==> o.id != "" && !Prefixed(o.id) && (o.left == "" || o.left == o.id)
    requires forall o, q :: o in opts && q in opts && o.id == q.id ==> o.rightID == q.rightID
    requires forall o :: o in opts ==> TrimSpace(o.rightID) == o.rightID && o.matchID == ""
    ensures SameVerdicts(CorrectByLeft(MatchingTrip(opts)), CorrectByLeft(opts))
  {
    var lefts, pairs := LeftItems(opts), KeyPairs(Matching, opts);
    hide RightOf, Bare, CorrectByLeft, SameVerdicts, MatchingTrip, LeftItems, KeyPairs, ReadBack, TrimSpace;
    LeftsAreNoPool(opts);
    PoolIsSkipped(opts);
    forall o | o in lefts
      ensures o in opts && Bare(LeftIdent(o)) == LeftIdent(o) == MatchingKey(o) == o.id
      ensures RightOf(pairs, o.id) == o.rightID
      ensures Keys(o) ==> GradedRight(opts, o.id) == o.rightID
    {
      LeftsAreOptions(opts);
      BareAsIs(o.id);
      RightOfTripped(opts, o.id, o.rightID);
      if Keys(o) {
        GradedRightOfAgreeing(lefts, o);
      }
    }
    forall o | o in lefts ensures ReadBack(lefts, pairs, o.id) == o.rightID {
      ReadBackByIdent(lefts, pairs, o.id);
    }
    MatchingVerdictsSurvive(opts);
  }

  lemma {:induction false} NotInPoolIsLeft(opts: seq<AnswerOption>, o: AnswerOption)
    requires o in opts && !InPool(o)
    ensures o in LeftItems(opts)
  {
    hide InPool;
    assert opts == Init(opts) + [Last(opts)];
    if o in Init(opts) {
      NotInPoolIsLeft(Init(opts), o);
    }
  }

  /** The right id exported under an id whose entries agree. */
  lemma {:induction false} RightOfOnly(opts: seq<AnswerOption>, id: string, right: string)
    requires forall o :: o in opts && o.id == id ==> o.rightID == right
    ensures RightOf(KeyPairs(Matching, opts), id)
         == if exists o :: o in opts && o.id == id then TrimSpace(right) else ""
  {
    hide TrimSpace;
    EmptyIsTrimmed();
    if opts != [] {
      KeyPairsFront(Matching, opts);
      assert opts[0] in opts && opts == [opts[0]] + opts[1..];
      var pairs := KeyPairs(Matching, opts);
      assert pairs == KeyPairs(Matching, opts[1..]) || pairs[1..] == KeyPairs(Matching, opts[1..]);
      RightOfOnly(opts[1..], id, right);
    }
  }

  lemma EmptyIsTrimmed()
    ensures TrimSpace("") == ""
  {
  }

  predicate SameRight(o: AnswerOption, q: AnswerOption) {
    TrimSpace(RightID(o)) == TrimSpace(RightID(q))
  }

  /** A key as an editor would have it: ids, graded names and right ids each once, and a pool without right ids. */
  ghost predicate ProperlyKeyed(opts: seq<AnswerOption>) {
    && (forall o, q :: o in opts && q in opts && o.id == q.id != "" ==> o == q)
    && (forall o :: o in LeftItems(opts) ==> !Prefixed(LeftIdent(o)))
    && (forall o :: o in opts && InPool(o) ==> o.rightID == "")
    && (forall o, q :: o in opts && q in opts && Keys(o) && Keys(q) && MatchingKey(o) == MatchingKey(q) ==> o == q)
    && (forall o, q :: o in opts && q in opts && Keys(o) && Keys(q) && SameRight(o, q) ==> o == q)
  }

  /** The entry is graded by its id, with a trimmed right id in the field that is exported. */
  predicate SaysItsID(o: AnswerOption) {
    o.id != "" && (o.left == "" || o.left == o.id) && o.rightID != "" && TrimSpace(o.rightID) == o.rightID
  }

  /** Whoever is read back under a name is the one entry with that id. */
  lemma ReadBackFrom(opts: seq<AnswerOption>, k: string) returns (q: AnswerOption)
    requires ProperlyKeyed(opts) && k != "" && RightOf(KeyPairs(Matching, opts), k) != ""
    ensures q in opts && q.id == k && q.rightID != "" && RightOf(KeyPairs(Matching, opts), k) == TrimSpace(q.rightID)
    ensures q in LeftItems(opts) && Keys(q) && RightID(q) == q.rightID
  {
    hide RightOf, TrimSpace, KeyPairs, LeftItems;
    if forall o :: o in opts && o.id == k ==> o.rightID == "" {
      NoRightMeansNone(opts, k);
    }
    q :| q in opts && q.id == k && q.rightID != "";
    RightOfOnly(opts, k, q.rightID);
    NotInPoolIsLeft(opts, q);
  }

  lemma SurvivingSaysItsID(opts: seq<AnswerOption>, o: AnswerOption)
    requires ProperlyKeyed(opts) && GradedPairsComeBack(opts) && o in opts && Keys(o)
    ensures SaysItsID(o)
  {
    hide RightOf, TrimSpace, KeyPairs, LeftItems, ReadBack, CorrectByLeft, GradedRight;
    var k := MatchingKey(o);
    NotInPoolIsLeft(opts, o);
    GradedRightOfAgreeing(opts, o);
    ReadBackByIdent(LeftItems(opts), KeyPairs(Matching, opts), k);
    var q := ReadBackFrom(opts, k);
    TrimSpaceTwice(q.rightID);
  }

  /**
   * Field by field, for a proper key: matching verdicts survive exactly when every graded entry has an id, no label or
   * its id as label, and a trimmed right id in the right_id spelling.
   */
  lemma FieldsDecideMatching(opts: seq<AnswerOption>)
    requires ProperlyKeyed(opts)
    ensures SameVerdicts(CorrectByLeft(MatchingTrip(opts)), CorrectByLeft(opts))
       <==> forall o :: o in opts && Keys(o) ==> SaysItsID(o)
  {
    var lefts, pairs := LeftItems(opts), KeyPairs(Matching, opts);
    hide RightOf, TrimSpace, KeyPairs, LeftItems, ReadBack, CorrectByLeft, GradedRight, SameVerdicts, MatchingTrip;
    hide Bare;
    MatchingVerdictsSurvive(opts);
    LeftsAreOptions(opts);
    if GradedPairsComeBack(opts) {
      forall o | o in opts && Keys(o) ensures SaysItsID(o) {
        SurvivingSaysItsID(opts, o);
      }
    }
    if forall o :: o in opts && Keys(o) ==> SaysItsID(o) {
      forall o | o in lefts && Keys(o)
        ensures ReadBack(lefts, pairs, MatchingKey(o)) == GradedRight(opts, MatchingKey(o))
      {
        GradedRightOfAgreeing(opts, o);
        ReadBackByIdent(lefts, pairs, o.id);
        RightOfOnly(opts, o.id, o.rightID);
      }
      forall p | p in lefts && Bare(LeftIdent(p)) != "" && RightOf(pairs, LeftIdent(p)) != ""
        ensures exists o :: o in lefts && Keys(o) && MatchingKey(o) == Bare(LeftIdent(p))
      {
        BareAsIs(LeftIdent(p));
        var q := ReadBackFrom(opts, LeftIdent(p));
      }
    }
  }
}
