/**
 * The round trip of fill-in-multiple-blanks answers, a map from blank names to accepted texts: what one trip makes of
 * each list, which blanks are left, and exactly when a second trip changes nothing. A blank's name loses one prefix.
 */
module QtiBlanksTrip {
  import opened QtiModel
  import opened Text
  import opened QtiExporter
  import opened QtiParserClassic

  // ---------- idents that lose a prefix ----------

  predicate Prefixed(ident: string) {
    HasPrefix(ident, RESPONSE_PREFIX)
  }

  lemma BareAsIs(ident: string)
    requires !Prefixed(ident)
    ensures Bare(ident) == ident
  {
  }

  lemma {:induction false} LongestPrefixed(idents: set<string>) returns (p: string)
    requires exists q :: q in idents && Prefixed(q)
    ensures p in idents && Prefixed(p)
    ensures forall q :: q in idents && Prefixed(q) ==> |q| <= |p|
  {
    p :| p in idents && Prefixed(p);
    var rest := idents - {p};
    if exists q :: q in rest && Prefixed(q) {
      var q := LongestPrefixed(rest);
      if |q| > |p| { p := q; }
    }
  }

  /** Idents that are all images of one another under dropping the prefix carry no prefix. */
  lemma StripClosedMeansBare(idents: set<string>)
    requires forall p :: p in idents && Prefixed(p) ==> exists q :: q in idents && Bare(q) == p
    ensures forall p :: p in idents ==> !Prefixed(p)
  {
    if exists p :: p in idents && Prefixed(p) {
      var p := LongestPrefixed(idents);
    }
  }

  // ---------- the trip ----------

  /** What the importer makes of exported (blank, accepted text) pairs. */
  ghost function Gathered(pairs: seq<VarEqual>): Accepted {
    if pairs == [] then map[]
    else if Last(pairs).respident == "" then Gathered(Init(pairs))
    else Add(Gathered(Init(pairs)), Bare(Last(pairs).respident), Last(pairs).value)
  }

  lemma {:induction false} StrsNameTheirBlanks(strs: seq<ResponseStr>, respident: string)
    ensures BlankFor(respident, BlankByRespident([], strs)) == Bare(respident)
  {
    if strs != [] {
      StrsNameTheirBlanks(Init(strs), respident);
    }
  }

  lemma {:induction false} CollectedIsGathered(strs: seq<ResponseStr>, pairs: seq<VarEqual>)
    ensures Collected(map[], pairs, BlankByRespident([], strs), map[]) == Gathered(pairs)
  {
    if pairs != [] {
      CollectedIsGathered(strs, Init(pairs));
      StrsNameTheirBlanks(strs, Last(pairs).respident);
    }
  }

  ghost function BlanksTrip(blanks: map<string, seq<string>>): Accepted {
    Gathered(BlankPairs(blanks, SortedKeys(blanks.Keys)))
  }

  // ---------- what a blank's list becomes ----------

  /** Trimmed, emptied of blanks, repetitions dropped at their later occurrences. */
  ghost function Cleaned(texts: seq<string>): seq<string> {
    if texts == [] then []
    else
      var before, t := Cleaned(Init(texts)), TrimSpace(Last(texts));
      if t == "" || t in before then before else before + [t]
  }

  /** The accepted texts exported for a blank, once idents have lost their prefix. */
  ghost function TextsFor(pairs: seq<VarEqual>, blank: string): seq<string> {
    if pairs == [] then []
    else if Last(pairs).respident != "" && Bare(Last(pairs).respident) == blank
    then TextsFor(Init(pairs), blank) + [Last(pairs).value]
    else TextsFor(Init(pairs), blank)
  }

  lemma {:induction false} GatheredIsCleaned(pairs: seq<VarEqual>, blank: string)
    ensures blank != "" ==> AcceptedFor(Gathered(pairs), blank) == Cleaned(TextsFor(pairs, blank))
    ensures blank in Gathered(pairs) <==> blank != "" && Cleaned(TextsFor(pairs, blank)) != []
  {
    if pairs != [] {
      GatheredIsCleaned(Init(pairs), blank);
      if Last(pairs).respident != "" && Bare(Last(pairs).respident) == blank {
        var texts := TextsFor(pairs, blank);
        assert Init(texts) == TextsFor(Init(pairs), blank) && Last(texts) == Last(pairs).value;
      }
    }
  }

  lemma {:induction false} CleanedHasNoBlanks(texts: seq<string>)
    ensures Cleaned(texts) == [] <==> forall t :: t in texts ==> TrimSpace(t) == ""
  {
    if texts != [] {
      CleanedHasNoBlanks(Init(texts));
      assert texts == Init(texts) + [Last(texts)];
    }
  }

  lemma {:induction false} CleanedTwice(texts: seq<string>)
    ensures Cleaned(Cleaned(texts)) == Cleaned(texts)
  {
    if texts != [] {
      CleanedTwice(Init(texts));
      var c := Cleaned(texts);
      TrimSpaceTwice(Last(texts));
      assert c == Cleaned(Init(texts)) || (Init(c) == Cleaned(Init(texts)) && Last(c) == TrimSpace(Last(texts)));
    }
  }

  lemma {:induction false} TextsForAppend(pairs: seq<VarEqual>, more: seq<VarEqual>, blank: string)
    ensures TextsFor(pairs + more, blank) == TextsFor(pairs, blank) + TextsFor(more, blank)
  {
    if more == [] {
      assert pairs + more == pairs;
    } else {
      TextsForAppend(pairs, Init(more), blank);
      assert Init(pairs + more) == pairs + Init(more) && Last(pairs + more) == Last(more);
    }
  }

  lemma {:induction false} TextsForAccepting(key: string, accepted: seq<string>, blank: string)
    ensures TextsFor(Accepting(key, accepted), blank)
         == if key != "" && Bare(key) == blank then accepted else []
  {
    if accepted != [] {
      TextsForAccepting(key, Init(accepted), blank);
      assert Init(Accepting(key, accepted)) == Accepting(key, Init(accepted));
      assert accepted == Init(accepted) + [Last(accepted)];
    }
  }

  /** With bare keys, each blank keeps its own texts. */
  lemma {:induction false} TextsForBareKeys(blanks: map<string, seq<string>>, keys: seq<string>, blank: string)
    requires Ascending(keys) && forall k :: k in keys ==> k in blanks
    requires forall k :: k in keys ==> !Prefixed(k)
    ensures TextsFor(BlankPairs(blanks, keys), blank)
         == if blank in keys && blank != "" then blanks[blank] else []
  {
    hide Less, Prefixed, TextsFor, Accepting, Bare;
    if keys == [] {
      NoTexts(blank);
    } else {
      var key, before := Last(keys), BlankPairs(blanks, Init(keys));
      assert keys == Init(keys) + [key] && key in keys;
      TextsForBareKeys(blanks, Init(keys), blank);
      TextsForAccepting(key, blanks[key], blank);
      TextsForAppend(before, Accepting(key, blanks[key]), blank);
      BareAsIs(key);
      LastIsNew(keys);
    }
  }

  lemma NoTexts(blank: string)
    ensures TextsFor([], blank) == []
  {
  }

  lemma LastIsNew(keys: seq<string>)
    requires Ascending(keys) && keys != []
    ensures Last(keys) !in Init(keys)
  {
    LessIsIrreflexive(Last(keys));
  }

  /** Re-import keeps every bare blank, its list trimmed, emptied of blanks and deduplicated. */
  lemma BlanksSurvive(blanks: map<string, seq<string>>, blank: string)
    requires forall k :: k in blanks ==> k != "" && !Prefixed(k)
    ensures blank in BlanksTrip(blanks) <==> blank in blanks && Cleaned(blanks[blank]) != []
    ensures blank in BlanksTrip(blanks) ==> BlanksTrip(blanks)[blank] == Cleaned(blanks[blank])
  {
    var keys := SortedKeys(blanks.Keys);
    TextsForBareKeys(blanks, keys, blank);
    GatheredIsCleaned(BlankPairs(blanks, keys), blank);
  }

  // ---------- when a second trip changes nothing ----------

  lemma {:induction false} PairsOfBlanks(
    blanks: map<string, seq<string>>, keys: seq<string>, blank: string, text: string)
    requires forall k :: k in keys ==> k in blanks
    ensures text in TextsFor(BlankPairs(blanks, keys), blank)
      <==> exists k :: k in keys && k != "" && Bare(k) == blank && text in blanks[k]
  {
    if keys != [] {
      var key := Last(keys);
      assert keys == Init(keys) + [key];
      PairsOfBlanks(blanks, Init(keys), blank, text);
      TextsForAccepting(key, blanks[key], blank);
      TextsForAppend(BlankPairs(blanks, Init(keys)), Accepting(key, blanks[key]), blank);
    }
  }

  /** The blanks of the result: the bare names of those with a text that is not blank. */
  lemma BlanksOfTrip(blanks: map<string, seq<string>>, blank: string)
    ensures blank in BlanksTrip(blanks) <==>
      blank != "" && exists k, t :: k in blanks && Bare(k) == blank && t in blanks[k] && TrimSpace(t) != ""
  {
    var keys := SortedKeys(blanks.Keys);
    var texts := TextsFor(BlankPairs(blanks, keys), blank);
    GatheredIsCleaned(BlankPairs(blanks, keys), blank);
    CleanedHasNoBlanks(texts);
    forall t { PairsOfBlanks(blanks, keys, blank, t); }
  }

  /** Caller-side condition: no blank with a text to accept is named response_response_... */
  ghost predicate SteadyBlanks(blanks: map<string, seq<string>>) {
    forall k, t :: k in blanks && t in blanks[k] && TrimSpace(t) != "" ==> !Prefixed(Bare(k))
  }

  lemma SteadyMeansBare(blanks: map<string, seq<string>>)
    ensures SteadyBlanks(blanks) <==> forall b :: b in BlanksTrip(blanks) ==> !Prefixed(b)
  {
    forall b { BlanksOfTrip(blanks, b); }
    if forall b :: b in BlanksTrip(blanks) ==> !Prefixed(b) {
      forall k, t | k in blanks && t in blanks[k] && TrimSpace(t) != "" ensures !Prefixed(Bare(k)) {
        assert Bare(k) != "" ==> Bare(k) in BlanksTrip(blanks);
      }
    }
  }

  lemma TripValuesAreClean(blanks: map<string, seq<string>>, b: string)
    requires b in BlanksTrip(blanks)
    ensures b != "" && Cleaned(BlanksTrip(blanks)[b]) == BlanksTrip(blanks)[b] != []
  {
    var pairs := BlankPairs(blanks, SortedKeys(blanks.Keys));
    GatheredIsCleaned(pairs, b);
    CleanedTwice(TextsFor(pairs, b));
  }

  /** A second trip of a fill-in-multiple-blanks question keeps its answers exactly when it is steady. */
  lemma BlanksTripTwice(blanks: map<string, seq<string>>)
    ensures BlanksTrip(BlanksTrip(blanks)) == BlanksTrip(blanks) <==> SteadyBlanks(blanks)
  {
    var once := BlanksTrip(blanks);
    SteadyMeansBare(blanks);
    forall b | b in once { TripValuesAreClean(blanks, b); }
    if SteadyBlanks(blanks) {
      forall b { BlanksSurvive(once, b); }
    } else if BlanksTrip(once) == once {
      forall p | p in once.Keys && Prefixed(p) ensures exists q :: q in once.Keys && Bare(q) == p {
        BlanksOfTrip(once, p);
      }
      StripClosedMeansBare(once.Keys);
    }
  }
}
