/** The comments of any Canvas item: which feedback blocks the importer takes for which. */
module QtiForeignComments {
  import opened QtiModel
  import opened Text
  import opened QtiParserClassic

  // ---------- comments ----------

  /** The last feedback block with this ident that is not blank has this text. */
  ghost predicate BlockSays(feedback: seq<Feedback>, ident: string, text: string) {
    && ident != "" && text != ""
    && exists i :: 0 <= i < |feedback| && feedback[i].ident == ident && FirstMatText(feedback[i].material) == text
         && forall j :: i < j < |feedback| && feedback[j].ident == ident ==> FirstMatText(feedback[j].material) == ""
  }

  lemma {:induction false} IndexByPlace(feedback: seq<Feedback>, ident: string, text: string)
    ensures BlockSays(feedback, ident, text)
       <==> ident in FeedbackIndex(feedback) && FeedbackIndex(feedback)[ident] == text
  {
    hide FirstMatText;
    if feedback != [] {
      var n := |feedback| - 1;
      IndexByPlace(Init(feedback), ident, text);
      assert forall j :: 0 <= j < n ==> Init(feedback)[j] == feedback[j];
      if feedback[n].ident == ident && FirstMatText(feedback[n].material) != "" {
        assert BlockSays(feedback, ident, text) ==> text == FirstMatText(feedback[n].material);
      } else {
        assert BlockSays(feedback, ident, text) <==> BlockSays(Init(feedback), ident, text);
      }
    }
  }

  /** Link k of condition j leads to a block with this role and text. */
  ghost predicate Leads(item: Item, j: int, k: int, role: Role, text: string) {
    && 0 <= j < |item.conditions| && 0 <= k < |item.conditions[j].displayFeedback|
    && NormalizeFeedbackIdent(item.conditions[j].displayFeedback[k]) == role
    && BlockSays(item.feedback, item.conditions[j].displayFeedback[k], text)
  }

  ghost predicate LeadsLast(item: Item, j: int, k: int, role: Role, text: string) {
    && Leads(item, j, k, role, text)
    && forall j', k', t :: j < j' || (j == j' && k < k') ==> !Leads(item, j', k', role, t)
  }

  ghost predicate Follows(links: seq<string>, index: map<string, string>, role: Role, k: int) {
    0 <= k < |links| && links[k] in index && NormalizeFeedbackIdent(links[k]) == role
  }

  lemma {:induction false} LinkedByPlace(
    before: seq<string>, links: seq<string>, index: map<string, string>, role: Role)
    ensures if exists k :: Follows(links, index, role, k)
            then exists k :: Follows(links, index, role, k) && Linked(before + links, index, role) == index[links[k]]
                   && forall i :: k < i ==> !Follows(links, index, role, i)
            else Linked(before + links, index, role) == Linked(before, index, role)
    decreases |links|
  {
    hide NormalizeFeedbackIdent;
    if links == [] {
      assert before + links == before;
    } else {
      var n := |links| - 1;
      LinkedByPlace(before, links[..n], index, role);
      assert Init(before + links) == before + links[..n];
      if Follows(links, index, role, n) {
      } else {
        assert forall k :: Follows(links, index, role, k) <==> Follows(links[..n], index, role, k);
      }
    }
  }

  ghost predicate IsLinked(item: Item, role: Role, text: string) {
    if exists j, k, t :: Leads(item, j, k, role, t) then exists j, k :: LeadsLast(item, j, k, role, text)
    else text == ""
  }

  lemma LeadsFollows(item: Item, j: int, role: Role)
    requires 0 <= j < |item.conditions|
    ensures var links, index := item.conditions[j].displayFeedback, FeedbackIndex(item.feedback);
      && (forall k, t :: Leads(item, j, k, role, t) ==> Follows(links, index, role, k) && index[links[k]] == t)
      && (forall k :: Follows(links, index, role, k) ==> Leads(item, j, k, role, index[links[k]]))
  {
    hide NormalizeFeedbackIdent, BlockSays;
    var links := item.conditions[j].displayFeedback;
    forall k, t | 0 <= k < |links| { IndexByPlace(item.feedback, links[k], t); }
  }

  lemma {:induction false} LinksByPlace(item: Item, role: Role)
    ensures IsLinked(item, role, Linked(Links(item.conditions), FeedbackIndex(item.feedback), role))
    decreases |item.conditions|
  {
    hide Leads, Linked, FeedbackIndex, NormalizeFeedbackIdent;
    var rcs, index := item.conditions, FeedbackIndex(item.feedback);
    if rcs == [] {
      NoLinks(item, role);
      NothingLinked(index, role);
    } else {
      var n, shorter := |rcs| - 1, item.(conditions := Init(rcs));
      var links, text := rcs[n].displayFeedback, Linked(Links(rcs), index, role);
      LinksByPlace(shorter, role);
      LinkedByPlace(Links(Init(rcs)), links, index, role);
      LinksOfShorter(item, role);
      LeadsFollows(item, n, role);
      if k :| Follows(links, index, role, k) && text == index[links[k]]
              && forall i :: k < i ==> !Follows(links, index, role, i) {
        assert LeadsLast(item, n, k, role, text);
      } else if j, k :| LeadsLast(shorter, j, k, role, text) {
        assert LeadsLast(item, j, k, role, text);
      }
    }
  }

  lemma LinksOfShorter(item: Item, role: Role)
    requires item.conditions != []
    ensures var shorter := item.(conditions := Init(item.conditions));
      forall j, k, t :: Leads(shorter, j, k, role, t) <==> Leads(item, j, k, role, t) && j < |item.conditions| - 1
    ensures forall j, k, t :: Leads(item, j, k, role, t) ==> j < |item.conditions|
  {
    hide NormalizeFeedbackIdent, BlockSays;
  }

  lemma NoLinks(item: Item, role: Role)
    requires item.conditions == []
    ensures forall j, k, t :: !Leads(item, j, k, role, t)
  {
  }

  lemma NothingLinked(index: map<string, string>, role: Role)
    ensures Linked([], index, role) == ""
  {
  }

  /** The comment of a role: from the last link that leads to one, else from any block, else none. */
  ghost predicate Comments(item: Item, role: Role, text: string) {
    if exists j, k, t :: Leads(item, j, k, role, t) then exists j, k :: LeadsLast(item, j, k, role, text)
    else if exists id, t :: NormalizeFeedbackIdent(id) == role && BlockSays(item.feedback, id, t)
    then exists id :: NormalizeFeedbackIdent(id) == role && BlockSays(item.feedback, id, text)
    else text == ""
  }

  lemma ResolvesByPlace(item: Item, role: Role, text: string)
    requires Resolves(FeedbackIndex(item.feedback), Links(item.conditions), role, text)
    ensures Comments(item, role, text)
  {
    hide NormalizeFeedbackIdent, Linked, FeedbackIndex, BlockSays, Links;
    LinksByPlace(item, role);
    forall id, t { IndexByPlace(item.feedback, id, t); }
    var index := FeedbackIndex(item.feedback);
    assert forall id :: id in index ==> BlockSays(item.feedback, id, index[id]);
    assert forall j, k, t :: Leads(item, j, k, role, t) ==> t != "" by { LeadsSomewhere(item, role); }
  }

  lemma LeadsSomewhere(item: Item, role: Role)
    ensures forall j, k, t :: Leads(item, j, k, role, t) ==> t != ""
  {
  }

  /** The prompt and the three comments of any item, for every visiting order. */
  lemma CommentsOfAnyItem(n: Numbers, item: Item, r: Option<Body>)
    requires Imports(n, item, r) && r.Some?
    ensures r.value.text == FirstMatText(item.material)
    ensures Comments(item, CorrectRole, r.value.correct)
    ensures Comments(item, IncorrectRole, r.value.incorrect)
    ensures Comments(item, GeneralRole, r.value.neutral)
  {
    hide Resolves, Comments;
    ResolvesByPlace(item, CorrectRole, r.value.correct);
    ResolvesByPlace(item, IncorrectRole, r.value.incorrect);
    ResolvesByPlace(item, GeneralRole, r.value.neutral);
  }

  // ---------- which comment a block is ----------

  predicate StartsAt(p: string, s: string, i: int) {
    0 <= i <= |s| - |p| && s[i..i + |p|] == p
  }

  ghost predicate Occurs(p: string, s: string) {
    exists i :: StartsAt(p, s, i)
  }

  lemma {:induction false} ContainsIff(s: string, p: string)
    ensures Contains(s, p) <==> Occurs(p, s)
  {
    if Contains(s, p) {
      var i := ContainsAt(s, p);
      assert StartsAt(p, s, i);
    }
    if i :| StartsAt(p, s, i) {
      if i > 0 {
        assert s[1..][i - 1..i - 1 + |p|] == p;
        assert StartsAt(p, s[1..], i - 1);
        ContainsIff(s[1..], p);
      }
    }
  }

  /** An ident for incorrect answers says so at its start, or anywhere with an underscore; the others follow. */
  lemma RoleIff(id: string)
    ensures var l, role := ToLower(id), NormalizeFeedbackIdent(id);
      && (role == IncorrectRole <==> "incorrect" <= l || Occurs("incorrect_", l))
      && (role == CorrectRole <==>
            role != IncorrectRole && ("correct" <= l || Occurs("correct_fb", l) || Occurs("correct_comment", l)))
      && (role == GeneralRole <==>
            role != IncorrectRole && role != CorrectRole && (Occurs("general", l) || Occurs("neutral", l)))
  {
    hide Contains, ToLower, Occurs;
    var l := ToLower(id);
    ContainsIff(l, "incorrect_");
    ContainsIff(l, "correct_fb");
    ContainsIff(l, "correct_comment");
    ContainsIff(l, "general");
    ContainsIff(l, "neutral");
    PrefixIff(l, "incorrect");
    PrefixIff(l, "correct");
  }

  lemma PrefixIff(s: string, p: string)
    ensures HasPrefix(s, p) <==> p <= s
  {
  }

  predicate AlikeButForCase(c: char, d: char) {
    || c == d
    || ('A' <= c <= 'Z' && d as int == c as int + 32)
    || ('a' <= c <= 'z' && d as int == c as int - 32)
  }

  /** The case of ASCII letters does not matter. */
  lemma CaseDoesNotMatter(id: string, other: string)
    requires |id| == |other| && forall i :: 0 <= i < |id| ==> AlikeButForCase(id[i], other[i])
    ensures NormalizeFeedbackIdent(id) == NormalizeFeedbackIdent(other)
  {
    assert ToLower(id) == ToLower(other);
  }

  lemma {:induction false} ContainsAt(s: string, p: string) returns (i: nat)
    requires Contains(s, p)
    ensures i + |p| <= |s| && s[i..i + |p|] == p
  {
    if HasPrefix(s, p) {
      i := 0;
    } else {
      i := ContainsAt(s[1..], p);
      assert s[i + 1..i + 1 + |p|] == s[1..][i..i + |p|];
      i := i + 1;
    }
  }

  lemma {:induction false} UnderscoreInside(s: string, p: string, k: nat) returns (i: nat)
    requires Contains(s, p) && k < |p| && p[k] == '_'
    ensures k <= i < |s| && s[i] == '_' && s[i - k] == p[0]
  {
    var at := ContainsAt(s, p);
    i := at + k;
    assert s[i] == s[at..at + |p|][k] && s[at] == s[at..at + |p|][0];
  }

  /** The comment beside the links announces this ident as an incorrect comment; it is taken for the general one. */
  lemma GeneralIncorrectIsGeneral()
    ensures NormalizeFeedbackIdent("general_incorrect") == GeneralRole
  {
    hide Contains;
    var l := "general_incorrect";
    assert ToLower(l) == l;
    assert l[7] == '_' && l[0] == 'g' && forall i :: 0 <= i < |l| && l[i] == '_' ==> i == 7;
    if Contains(l, "correct_fb") {
      var i := UnderscoreInside(l, "correct_fb", 7);
    }
    if Contains(l, "correct_comment") {
      var i := UnderscoreInside(l, "correct_comment", 7);
    }
    if Contains(l, "incorrect_") {
      var i := UnderscoreInside(l, "incorrect_", 9);
    }
    StartsInside(l, "general");
  }

  lemma StartsInside(s: string, p: string)
    requires HasPrefix(s, p)
    ensures Contains(s, p)
  {
  }
}
