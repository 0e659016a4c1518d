/** Which filters the login template makes of usernames (internal/auth/ldap.go:156-161). */
module LdapTemplates {
  import opened Ber
  import opened LdapFilter
  import opened LdapFilterTrees
  import opened LdapCompiler
  import opened LdapFilling
  import opened LdapEncodings
  import opened LdapShapes
  import opened LdapEscape
  import opened LdapBlanks

  lemma WholeIsCompiled(f: Filter)
    requires WellFormed(f)
    ensures CompiledFilter(Written(f)) == Encoding(f)
  {
    FilterIsCompiled([], f, []);
    assert [] + Written(f) + [] == Written(f);
  }

  // ---------- filling keeps a tree well-formed ----------

  lemma {:induction false} FilledIsStarless(s: bytes, e: bytes)
    requires Starless(s) && Starless(e)
    ensures Starless(Filled(s, e))
    decreases |s|
  {
    if s != [] {
      if StartsWithHole(s) {
        FilledIsStarless(s[2..], e);
      } else {
        assert s[0] in s;
        FilledIsStarless(s[1..], e);
      }
    }
  }

  lemma {:induction false} FilledPieces(anys: seq<bytes>, e: bytes)
    requires AllStarless(anys) && Starless(e)
    ensures AllStarless(FilledAll(anys, e))
  {
    if anys != [] {
      FilledIsStarless(anys[0], e);
      FilledPieces(anys[1..], e);
    }
  }

  lemma {:induction false} SubstitutedIsWellFormed(f: Filter, e: bytes)
    requires WellFormed(f) && Starless(e)
    ensures WellFormed(Substituted(f, e))
    decreases f
  {
    match f
    case All(cs, _, _) => SubstitutedAreWellFormed(cs, e);
    case Any(cs, _, _) => SubstitutedAreWellFormed(cs, e);
    case Negated(_, c, _) => SubstitutedIsWellFormed(c, e);
    case Single(leaf) => SubstitutedLeafIsWellFormed(leaf, e);
    case Naked(leaf) => SubstitutedLeafIsWellFormed(leaf, e);
  }

  lemma SubstitutedLeafIsWellFormed(l: Leaf, e: bytes)
    requires LeafIsWellFormed(l) && Starless(e)
    ensures LeafIsWellFormed(SubstitutedLeaf(l, e)) && SubstitutedLeaf(l, e).attr == l.attr
  {
    match l
    case Equality(_, value) => FilledIsStarless(value, e);
    case Present(_) =>
    case Substring(_, initial, anys, final) =>
      FilledIsStarless(initial, e);
      FilledPieces(anys, e);
      FilledIsStarless(final, e);
  }

  lemma {:induction false} SubstitutedAreWellFormed(cs: seq<Filter>, e: bytes)
    requires AllWellFormed(cs) && Starless(e)
    ensures AllWellFormed(SubstitutedAll(cs, e))
    decreases cs
  {
    if cs != [] {
      SubstitutedIsWellFormed(cs[0], e);
      SubstitutedAreWellFormed(cs[1..], e);
      assert SubstitutedAll(cs, e)[1..] == SubstitutedAll(cs[1..], e);
    }
  }

  /** Whatever the username, the searched filter compiles to the template's tree with the escaped name in its holes. */
  lemma TemplateIsCompiled(template: Filter, username: bytes)
    requires WellFormed(template) && HolesInValues(template)
    ensures CompiledFilter(Filled(Written(template), Escaped(username)))
         == Encoding(Substituted(template, Escaped(username)))
  {
    var e := Escaped(username);
    EscapedIsInert(username);
    FilledWhole(template, e);
    SubstitutedIsWellFormed(template, e);
    WholeIsCompiled(Substituted(template, e));
  }

  // ---------- what the sent bytes ask ----------

  /** Every tree the sent bytes can stand for has the shape of f. */
  ghost predicate HasShapeOf(sent: bytes, f: Filter) {
    forall h :: Encoding(h) == sent ==> SameShape(h, f)
  }

  lemma OwnShape(f: Filter, g: Filter)
    requires |Encoding(f)| <= MAX_INT
    ensures HasShapeOf(Encoding(f), g) <==> SameShape(f, g)
  {
    forall h | Encoding(h) == Encoding(f) ensures SameShape(h, g) <==> SameShape(f, g) {
      EncodingIsUnique(h, f);
      SameThenShape(h, f, g);
    }
  }

  /**
   * Which usernames can change what a template asks, for every template, with leaves in parentheses or not, and any two
   * usernames that are not empty: whatever tree the sent bytes are read as has the shape of the template filled with
   * the other name, unless the template has a leaf without parentheses whose last piece is white space but for its
   * holes, and exactly one of the names is white space.
   */
  lemma NameKeepsShapeIff(template: Filter, username: bytes, other: bytes)
    requires WellFormed(template) && HolesInValues(template) && username != [] && other != []
    requires |Encoding(Substituted(template, Escaped(username)))| <= MAX_INT
    ensures HasShapeOf(CompiledFilter(Filled(Written(template), Escaped(username))),
                       Substituted(template, Escaped(other)))
       <==> !HasOpenEnd(template) || AlikeBlank(username, other)
  {
    hide Escaped, Substituted, Encoding, HasOpenEnd, AlikeBlank;
    TemplateIsCompiled(template, username);
    ShapeOfTwoNames(template, username, other);
    OwnShape(Substituted(template, Escaped(username)), Substituted(template, Escaped(other)));
  }

  /** The template is written as the grammar has it. */
  ghost predicate HasParentheses(f: Filter) {
    match f
    case All(cs, _, _) => AllHaveParentheses(cs)
    case Any(cs, _, _) => AllHaveParentheses(cs)
    case Negated(_, c, _) => HasParentheses(c)
    case Single(_) => true
    case Naked(_) => false
  }

  ghost predicate AllHaveParentheses(cs: seq<Filter>) {
    cs == [] || (HasParentheses(cs[0]) && AllHaveParentheses(cs[1..]))
  }

  lemma {:induction false} NoOpenEnd(f: Filter)
    requires HasParentheses(f)
    ensures !HasOpenEnd(f)
    decreases f
  {
    match f
    case All(cs, _, _) => NoOpenEnds(cs);
    case Any(cs, _, _) => NoOpenEnds(cs);
    case Negated(_, c, _) => NoOpenEnd(c);
    case _ =>
  }

  lemma {:induction false} NoOpenEnds(cs: seq<Filter>)
    requires AllHaveParentheses(cs)
    ensures !AnyHasOpenEnd(cs)
    decreases cs
  {
    if cs != [] {
      NoOpenEnd(cs[0]);
      NoOpenEnds(cs[1..]);
    }
  }

  /** No username that is not empty changes what a template written with all its parentheses asks. */
  lemma EscapedNameIsInert(template: Filter, username: bytes, other: bytes)
    requires WellFormed(template) && HolesInValues(template) && username != [] && other != []
    requires HasParentheses(template)
    requires |Encoding(Substituted(template, Escaped(username)))| <= MAX_INT
    ensures HasShapeOf(CompiledFilter(Filled(Written(template), Escaped(username))),
                       Substituted(template, Escaped(other)))
  {
    NoOpenEnd(template);
    NameKeepsShapeIff(template, username, other);
  }

  const HOLE: bytes := [PERCENT, LOWER_S]

  /** attr=*%s */
  function Ending(attr: bytes): Filter {
    Naked(Substring(attr, [], [], HOLE))
  }

  lemma FilledHole(e: bytes)
    ensures Filled(HOLE, e) == e && HasHole(HOLE)
  {
    assert HOLE[2..] == [] && Filled([], e) == [] && e + [] == e;
  }

  /**
   * In attr=*%s a username of blanks, such as a single space, is trimmed away: the filter then asks for presence and
   * matches every entry that has the attribute, where any other username asks for values ending in it.
   */
  lemma BlankNameAsksPresence(attr: bytes, username: bytes, other: bytes)
    requires IsName(attr) && NoHole(attr) && |Encoding(Naked(Present(attr)))| <= MAX_INT
    requires username != [] && WhiteSpace(username) && other != [] && !WhiteSpace(other)
    ensures CompiledFilter(Filled(Written(Ending(attr)), Escaped(username))) == Encoding(Naked(Present(attr)))
    ensures !HasShapeOf(CompiledFilter(Filled(Written(Ending(attr)), Escaped(username))),
                        Substituted(Ending(attr), Escaped(other)))
  {
    hide Escaped, Filled, TrimLeft, TrimRight, HasHole;
    var e := Escaped(username);
    TemplateIsCompiled(Ending(attr), username);
    FilledHole(e);
    FilledHole(SPACE);
    BlankThenRest(username, []);
    assert e + [] == e;
    NothingIsBlank();
    EitherEnd(e);
    SpaceThenRest([]);
    assert SPACE + [] == SPACE;
    EmptyFills(e);
    assert Substituted(Ending(attr), e) == Naked(Substring(attr, [], [], e));
    NameKeepsShapeIff(Ending(attr), username, other);
  }

  lemma EmptyFills(e: bytes)
    ensures Filled([], e) == []
  {
  }

  /**
   * The empty username changes it for more templates: it keeps the shape exactly when no piece of a substring pattern
   * is lost. In (uid=%s) it asks for an empty value, in (uid=*%s) for presence.
   */
  lemma EmptyNameKeepsShapeIff(template: Filter, other: bytes)
    requires WellFormed(template) && HolesInValues(template) && other != []
    requires |Encoding(Substituted(template, Escaped([])))| <= MAX_INT
    ensures HasShapeOf(CompiledFilter(Filled(Written(template), Escaped([]))), Substituted(template, Escaped(other)))
       <==> PiecesAreKept(template, other)
  {
    TemplateIsCompiled(template, []);
    ShapeOfEmptyName(template, other);
    OwnShape(Substituted(template, []), Substituted(template, Escaped(other)));
  }
}
