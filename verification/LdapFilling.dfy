/**
 * The login filter template (internal/auth/ldap.go:156-161): substituting a text for %s. Replacing the holes of a
 * template's text is replacing the holes in the values of its tree, since no hole can begin in the syntax around them:
 * the parentheses, tags, names, equals signs, stars and blanks of a written filter hold no percent sign, and a value
 * ends before one of them.
 */
module LdapFilling {
  import opened Ber
  import opened LdapFilter
  import opened LdapFilterTrees

  const PERCENT: byte := 0x25
  const LOWER_S: byte := 0x73

  predicate StartsWithHole(s: bytes) {
    |s| >= 2 && s[0] == PERCENT && s[1] == LOWER_S
  }

  /** strings.ReplaceAll(s, "%s", e) */
  function Filled(s: bytes, e: bytes): bytes {
    if s == [] then []
    else if StartsWithHole(s) then e + Filled(s[2..], e)
    else [s[0]] + Filled(s[1..], e)
  }

  predicate NoHole(s: bytes) {
    PERCENT !in s
  }

  /** The tree with e in place of %s in every value. */
  function Substituted(f: Filter, e: bytes): Filter {
    match f
    case All(cs, gaps, after) => All(SubstitutedAll(cs, e), gaps, after)
    case Any(cs, gaps, after) => Any(SubstitutedAll(cs, e), gaps, after)
    case Negated(before, c, after) => Negated(before, Substituted(c, e), after)
    case Single(leaf) => Single(SubstitutedLeaf(leaf, e))
    case Naked(leaf) => Naked(SubstitutedLeaf(leaf, e))
  }

  function SubstitutedLeaf(l: Leaf, e: bytes): Leaf {
    match l
    case Equality(attr, value) => Equality(attr, Filled(value, e))
    case Present(_) => l
    case Substring(attr, initial, anys, final) =>
      Substring(attr, Filled(initial, e), FilledAll(anys, e), Filled(final, e))
  }

  function SubstitutedAll(cs: seq<Filter>, e: bytes): seq<Filter> {
    if cs == [] then [] else [Substituted(cs[0], e)] + SubstitutedAll(cs[1..], e)
  }

  function FilledAll(anys: seq<bytes>, e: bytes): seq<bytes> {
    if anys == [] then [] else [Filled(anys[0], e)] + FilledAll(anys[1..], e)
  }

  /** Names do not contain the character that starts a hole: holes are on the value side of leaves. */
  ghost predicate HolesInValues(f: Filter) {
    match f
    case All(cs, _, _) => AllHolesInValues(cs)
    case Any(cs, _, _) => AllHolesInValues(cs)
    case Negated(_, c, _) => HolesInValues(c)
    case Single(leaf) => NoHole(leaf.attr)
    case Naked(leaf) => NoHole(leaf.attr)
  }

  ghost predicate AllHolesInValues(cs: seq<Filter>) {
    cs == [] || (HolesInValues(cs[0]) && AllHolesInValues(cs[1..]))
  }

  // ---------- filling text is filling the tree ----------

  lemma Associate(a: bytes, b: bytes, c: bytes)
    ensures (a + b) + c == a + (b + c)
  {
  }

  lemma FillByte(b: byte, t: bytes, e: bytes)
    requires b != PERCENT || t == [] || t[0] != LOWER_S
    ensures Filled([b] + t, e) == [b] + Filled(t, e)
  {
    assert ([b] + t)[1..] == t;
  }

  lemma FillHole(t: bytes, e: bytes)
    ensures Filled([PERCENT, LOWER_S] + t, e) == e + Filled(t, e)
  {
    assert ([PERCENT, LOWER_S] + t)[2..] == t;
  }

  lemma NothingFilled(e: bytes)
    ensures Filled([], e) == []
  {
  }

  lemma {:induction false} FilledAround(a: bytes, c: byte, rest: bytes, e: bytes)
    requires c != PERCENT && c != LOWER_S
    ensures Filled(a + [c] + rest, e) == Filled(a, e) + [c] + Filled(rest, e)
    decreases |a|
  {
    hide Filled;
    if a == [] {
      NothingFilled(e);
      assert a + [c] == [c] && Filled(a, e) + [c] == [c];
      FillByte(c, rest, e);
    } else if StartsWithHole(a) {
      FilledAround(a[2..], c, rest, e);
      FillHole(a[2..] + [c] + rest, e);
      FillHole(a[2..], e);
      assert a == [PERCENT, LOWER_S] + a[2..];
      assert a + [c] + rest == [PERCENT, LOWER_S] + (a[2..] + [c] + rest);
      Associate(e, Filled(a[2..], e), [c]);
      Associate(e, Filled(a[2..], e) + [c], Filled(rest, e));
    } else {
      FilledAround(a[1..], c, rest, e);
      FillByte(a[0], a[1..] + [c] + rest, e);
      FillByte(a[0], a[1..], e);
      assert a == [a[0]] + a[1..];
      assert a + [c] + rest == [a[0]] + (a[1..] + [c] + rest);
      Associate([a[0]], Filled(a[1..], e), [c]);
      Associate([a[0]], Filled(a[1..], e) + [c], Filled(rest, e));
    }
  }

  lemma {:induction false} NothingToFill(a: bytes, rest: bytes, e: bytes)
    requires NoHole(a)
    ensures Filled(a + rest, e) == a + Filled(rest, e)
  {
    if a == [] {
      assert a + rest == rest;
    } else {
      assert a[0] in a;
      NothingToFill(a[1..], rest, e);
      assert a == [a[0]] + a[1..];
      Associate([a[0]], a[1..], rest);
      FillByte(a[0], a[1..] + rest, e);
      Associate([a[0]], a[1..], Filled(rest, e));
    }
  }

  lemma FillsNothing(a: bytes, e: bytes)
    requires NoHole(a)
    ensures Filled(a, e) == a
  {
    NothingToFill(a, [], e);
    assert a + [] == a;
  }

  lemma {:induction false} FilledStarred(anys: seq<bytes>, final: bytes, e: bytes)
    ensures Filled(Starred(anys) + final, e) == Starred(FilledAll(anys, e)) + Filled(final, e)
  {
    if anys == [] {
      assert Starred(anys) + final == final;
    } else {
      var rest := Starred(anys[1..]) + final;
      FilledStarred(anys[1..], final, e);
      FilledAround(anys[0], STAR, rest, e);
      StarredStep(anys, final);
      StarredStep(FilledAll(anys, e), Filled(final, e));
      assert FilledAll(anys, e)[1..] == FilledAll(anys[1..], e);
    }
  }

  lemma FilledPattern(initial: bytes, anys: seq<bytes>, final: bytes, e: bytes)
    ensures Filled(Pattern(initial, anys, final), e)
         == Pattern(Filled(initial, e), FilledAll(anys, e), Filled(final, e))
  {
    hide Filled, Starred, FilledAll;
    FilledStarred(anys, final, e);
    FilledAround(initial, STAR, Starred(anys) + final, e);
    assert Pattern(Filled(initial, e), FilledAll(anys, e), Filled(final, e))
        == Filled(initial, e) + [STAR] + (Starred(FilledAll(anys, e)) + Filled(final, e));
    assert Pattern(initial, anys, final) == initial + [STAR] + (Starred(anys) + final);
  }

  /** A leaf's text filled: the name stays, the value is filled. */
  lemma FilledLeaf(attr: bytes, value: bytes, e: bytes)
    requires NoHole(attr)
    ensures Filled(attr + [EQUALS] + value, e) == attr + [EQUALS] + Filled(value, e)
  {
    FilledAround(attr, EQUALS, value, e);
    FillsNothing(attr, e);
  }

  /** If a fills to a' before b, and b to b' before rest, then a + b fills to a' + b' before rest. */
  lemma FilledTwo(a: bytes, a': bytes, b: bytes, b': bytes, rest: bytes, e: bytes)
    requires Filled(a + (b + rest), e) == a' + Filled(b + rest, e)
    requires Filled(b + rest, e) == b' + Filled(rest, e)
    ensures Filled((a + b) + rest, e) == (a' + b') + Filled(rest, e)
  {
    Associate(a, b, rest);
    Associate(a', b', Filled(rest, e));
  }

  lemma {:induction false} FilledInner(f: Filter, e: bytes, rest: bytes)
    requires WellFormed(f) && HolesInValues(f) && !f.Naked?
    ensures Filled((Inner(f) + [RPAREN]) + rest, e) == (Inner(Substituted(f, e)) + [RPAREN]) + Filled(rest, e)
    decreases f, 0
  {
    match f
    case All(cs, gaps, after) => FilledTagged(AND, cs, gaps, after, e, rest);
    case Any(cs, gaps, after) => FilledTagged(OR, cs, gaps, after, e, rest);
    case Negated(before, c, after) => FilledNegated(before, c, after, e, rest);
    case Single(leaf) =>
      FilledAround(Inner(f), RPAREN, rest, e);
      FilledLeafText(leaf, e);
    case Naked(leaf) =>
  }

  lemma FilledLeafText(l: Leaf, e: bytes)
    requires NoHole(l.attr)
    ensures Filled(LeafText(l), e) == LeafText(SubstitutedLeaf(l, e))
  {
    match l
    case Equality(attr, value) => FilledLeaf(attr, value, e);
    case Present(attr) => FillsNothing(LeafText(l), e);
    case Substring(attr, initial, anys, final) =>
      FilledLeaf(attr, Pattern(initial, anys, final), e);
      FilledPattern(initial, anys, final, e);
  }

  lemma Regroup(before: bytes, w: bytes, after: bytes)
    ensures ([NOT] + (before + w + after)) + [RPAREN] == ([NOT] + before) + (w + (after + [RPAREN]))
  {
  }

  lemma {:induction false} FilledNegated(before: bytes, c: Filter, after: bytes, e: bytes, rest: bytes)
    requires WellFormed(c) && HolesInValues(c) && Blank(before) && Blank(after) && HoldsBlanks(c, before, after)
    ensures Filled((([NOT] + (before + Written(c) + after)) + [RPAREN]) + rest, e)
         == (([NOT] + (before + Written(Substituted(c, e)) + after)) + [RPAREN]) + Filled(rest, e)
    decreases c, 2
  {
    var start, end, w, w' := [NOT] + before, after + [RPAREN], Written(c), Written(Substituted(c, e));
    NothingToFill(end, rest, e);
    assert c.Naked? ==> (end + rest)[0] == RPAREN;
    FilledWritten(c, e, end + rest);
    FilledTwo(w, w', end, end, rest, e);
    NothingToFill(start, (w + end) + rest, e);
    FilledTwo(start, start, w + end, w' + end, rest, e);
    Regroup(before, w, after);
    Regroup(before, w', after);
  }

  lemma {:induction false} FilledTagged(
    tag: byte, cs: seq<Filter>, gaps: seq<bytes>, after: bytes, e: bytes, rest: bytes)
    requires tag != PERCENT && AllWellFormed(cs) && AllHolesInValues(cs) && AllBlank(gaps) && Blank(after)
    ensures Filled((([tag] + (Row(cs, gaps) + after)) + [RPAREN]) + rest, e)
         == (([tag] + (Row(SubstitutedAll(cs, e), gaps) + after)) + [RPAREN]) + Filled(rest, e)
    decreases cs, 1
  {
    var end, row, row' := after + [RPAREN], Row(cs, gaps), Row(SubstitutedAll(cs, e), gaps);
    NothingToFill(end, rest, e);
    FilledRow(cs, gaps, e, end + rest);
    FilledTwo(row, row', end, end, rest, e);
    NothingToFill([tag], (row + end) + rest, e);
    FilledTwo([tag], [tag], row + end, row' + end, rest, e);
    assert [tag] + (row + after) + [RPAREN] == [tag] + (row + end);
    assert [tag] + (row' + after) + [RPAREN] == [tag] + (row' + end);
  }

  lemma {:induction false} FilledRow(cs: seq<Filter>, gaps: seq<bytes>, e: bytes, rest: bytes)
    requires AllWellFormed(cs) && AllHolesInValues(cs) && AllBlank(gaps)
    ensures Filled(Row(cs, gaps) + rest, e) == Row(SubstitutedAll(cs, e), gaps) + Filled(rest, e)
    decreases cs, 0
  {
    if cs == [] {
      assert Row(cs, gaps) + rest == rest;
    } else {
      var w, w' := Written(cs[0]), Written(Substituted(cs[0], e));
      var tail, tail' := Row(cs[1..], Later(gaps)), Row(SubstitutedAll(cs[1..], e), Later(gaps));
      FilledRow(cs[1..], Later(gaps), e, rest);
      FilledWritten(cs[0], e, tail + rest);
      FilledTwo(w, w', tail, tail', rest, e);
      NothingToFill(Gap(gaps), (w + tail) + rest, e);
      FilledTwo(Gap(gaps), Gap(gaps), w + tail, w' + tail', rest, e);
      assert SubstitutedAll(cs, e)[1..] == SubstitutedAll(cs[1..], e);
    }
  }

  lemma {:induction false} FilledWritten(f: Filter, e: bytes, rest: bytes)
    requires WellFormed(f) && HolesInValues(f) && (f.Naked? ==> rest == [] || rest[0] == RPAREN)
    ensures Filled(Written(f) + rest, e) == Written(Substituted(f, e)) + Filled(rest, e)
    decreases f, 1
  {
    if f.Naked? {
      FilledNaked(f.leaf, e, rest);
      return;
    }
    var i, i' := Inner(f) + [RPAREN], Inner(Substituted(f, e)) + [RPAREN];
    FilledInner(f, e, rest);
    NothingToFill([LPAREN], i + rest, e);
    FilledTwo([LPAREN], [LPAREN], i, i', rest, e);
    Associate([LPAREN], Inner(f), [RPAREN]);
    Associate([LPAREN], Inner(Substituted(f, e)), [RPAREN]);
  }

  lemma FilledNaked(l: Leaf, e: bytes, rest: bytes)
    requires NoHole(l.attr) && (rest == [] || rest[0] == RPAREN)
    ensures Filled(LeafText(l) + rest, e) == LeafText(SubstitutedLeaf(l, e)) + Filled(rest, e)
  {
    var t, t' := LeafText(l), LeafText(SubstitutedLeaf(l, e));
    FilledLeafText(l, e);
    if rest == [] {
      assert t + rest == t;
      assert t' + [] == t';
    } else {
      FilledAround(t, RPAREN, rest[1..], e);
      FillByte(RPAREN, rest[1..], e);
      assert t + rest == t + [RPAREN] + rest[1..] && rest == [RPAREN] + rest[1..];
      Associate(t', [RPAREN], Filled(rest[1..], e));
    }
  }

  lemma FilledWhole(f: Filter, e: bytes)
    requires WellFormed(f) && HolesInValues(f)
    ensures Filled(Written(f), e) == Written(Substituted(f, e))
  {
    FilledWritten(f, e, []);
    assert Written(f) + [] == Written(f);
    assert Filled([], e) == [];
    assert Written(Substituted(f, e)) + [] == Written(Substituted(f, e));
  }
}
