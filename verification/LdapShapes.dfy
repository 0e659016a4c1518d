/**
 * The shape of a filter: its tree without the bytes of the values. Two trees with one encoding have one shape. Filling
 * a template with two texts gives one shape unless a piece of a substring pattern disappears under one of them only:
 * a piece that becomes empty leaves no trace in the encoding, and the last piece of a leaf without parentheses is
 * trimmed.
 */
module LdapShapes {
  import opened Ber
  import opened LdapFilter
  import opened LdapFilterTrees
  import opened LdapFilling
  import opened LdapEncodings
  import opened LdapEscape
  import opened LdapBlanks

  /** Equal trees up to the bytes of the values, and up to the way they are written. */
  ghost predicate SameShape(f: Filter, g: Filter) {
    match (f, g)
    case (All(cs, _, _), All(ds, _, _)) => SameShapes(cs, ds)
    case (Any(cs, _, _), Any(ds, _, _)) => SameShapes(cs, ds)
    case (Negated(_, c, _), Negated(_, d, _)) => SameShape(c, d)
    case _ => IsLeaf(f) && IsLeaf(g) && SameLeafShape(Plain(f), Plain(g))
  }

  ghost predicate SameLeafShape(f: Leaf, g: Leaf) {
    match (f, g)
    case (Equality(a, _), Equality(b, _)) => a == b
    case (Present(a), Present(b)) => a == b
    case (Present(a), Substring(b, j, n, k)) => a == b && IsStar(j, n, k)
    case (Substring(a, i, m, l), Present(b)) => a == b && IsStar(i, m, l)
    case (Substring(a, i, m, l), Substring(b, j, n, k)) =>
      && a == b && (IsStar(i, m, l) <==> IsStar(j, n, k))
      && (i == [] <==> j == []) && |Kept(m)| == |Kept(n)| && (l == [] <==> k == [])
    case _ => false
  }

  ghost predicate SameShapes(cs: seq<Filter>, ds: seq<Filter>) {
    |cs| == |ds| && (cs == [] || (SameShape(cs[0], ds[0]) && SameShapes(cs[1..], ds[1..])))
  }

  lemma {:induction false} SameThenShape(h: Filter, f: Filter, g: Filter)
    requires Same(h, f)
    ensures SameShape(h, g) <==> SameShape(f, g)
    decreases f
  {
    hide SameLeaf, SameLeafShape;
    if IsLeaf(f) && IsLeaf(g) {
      SameLeafThenShape(Plain(h), Plain(f), Plain(g));
      return;
    }
    match (h, f)
    case (All(hs, _, _), All(cs, _, _)) => if g.All? { SameThenShapes(hs, cs, g.children); }
    case (Any(hs, _, _), Any(cs, _, _)) => if g.Any? { SameThenShapes(hs, cs, g.children); }
    case (Negated(_, k, _), Negated(_, c, _)) => if g.Negated? { SameThenShape(k, c, g.child); }
    case _ =>
  }

  lemma SameLeafThenShape(h: Leaf, f: Leaf, g: Leaf)
    requires SameLeaf(h, f)
    ensures SameLeafShape(h, g) <==> SameLeafShape(f, g)
  {
    hide Kept;
  }

  lemma {:induction false} SameThenShapes(hs: seq<Filter>, cs: seq<Filter>, gs: seq<Filter>)
    requires AllSame(hs, cs)
    ensures SameShapes(hs, gs) <==> SameShapes(cs, gs)
    decreases cs
  {
    if cs != [] && gs != [] {
      SameThenShape(hs[0], cs[0], gs[0]);
      SameThenShapes(hs[1..], cs[1..], gs[1..]);
    }
  }

  // ---------- which names keep the shape ----------

  /** The text is nothing but holes. */
  predicate OnlyHoles(s: bytes) {
    s == [] || (StartsWithHole(s) && OnlyHoles(s[2..]))
  }

  ghost predicate HasText(piece: bytes) {
    piece == [] || !OnlyHoles(piece)
  }

  ghost predicate AllHaveText(anys: seq<bytes>) {
    forall i :: 0 <= i < |anys| ==> HasText(anys[i])
  }

  /** The last piece of a naked leaf: striking out its holes blanks it exactly when filling them with the name does. */
  ghost predicate LastIsKept(final: bytes, name: bytes) {
    WhiteSpace(Filled(final, [])) <==> WhiteSpace(Filled(final, SPACE)) && (HasHole(final) ==> WhiteSpace(name))
  }

  /** No piece of a substring pattern is lost under the empty name and kept under the given one. */
  ghost predicate PiecesAreKept(f: Filter, name: bytes) {
    match f
    case All(cs, _, _) => AllPiecesAreKept(cs, name)
    case Any(cs, _, _) => AllPiecesAreKept(cs, name)
    case Negated(_, c, _) => PiecesAreKept(c, name)
    case Single(Substring(_, initial, anys, final)) => HasText(initial) && AllHaveText(anys) && HasText(final)
    case Naked(Substring(_, initial, anys, final)) =>
      HasText(initial) && AllHaveText(anys) && LastIsKept(final, name)
    case _ => true
  }

  ghost predicate AllPiecesAreKept(cs: seq<Filter>, name: bytes) {
    cs == [] || (PiecesAreKept(cs[0], name) && AllPiecesAreKept(cs[1..], name))
  }

  /** A leaf without parentheses whose last piece is white space but for its holes. */
  ghost predicate HasOpenEnd(f: Filter) {
    match f
    case All(cs, _, _) => AnyHasOpenEnd(cs)
    case Any(cs, _, _) => AnyHasOpenEnd(cs)
    case Negated(_, c, _) => HasOpenEnd(c)
    case Naked(Substring(_, _, _, final)) => HasHole(final) && WhiteSpace(Filled(final, SPACE))
    case _ => false
  }

  ghost predicate AnyHasOpenEnd(cs: seq<Filter>) {
    cs != [] && (HasOpenEnd(cs[0]) || AnyHasOpenEnd(cs[1..]))
  }

  lemma {:induction false} WhenFilledIsEmpty(s: bytes, e: bytes)
    ensures Filled(s, e) == [] <==> s == [] || (e == [] && OnlyHoles(s))
    decreases |s|
  {
    if StartsWithHole(s) {
      WhenFilledIsEmpty(s[2..], e);
    }
  }

  lemma {:induction false} WhichPiecesAreKept(anys: seq<bytes>, e: bytes)
    requires e != []
    ensures |Kept(FilledAll(anys, []))| <= |Kept(FilledAll(anys, e))|
    ensures |Kept(FilledAll(anys, []))| == |Kept(FilledAll(anys, e))|
       <==> AllHaveText(anys)
    ensures |FilledAll(anys, [])| == |FilledAll(anys, e)| == |anys|
  {
    if anys != [] {
      WhichPiecesAreKept(anys[1..], e);
      WhenFilledIsEmpty(anys[0], []);
      WhenFilledIsEmpty(anys[0], e);
      assert FilledAll(anys, [])[1..] == FilledAll(anys[1..], []) && FilledAll(anys, e)[1..] == FilledAll(anys[1..], e);
      assert forall i :: 0 < i < |anys| ==> anys[i] == anys[1..][i - 1];
    }
  }

  lemma {:induction false} FilledPiecesAreKept(anys: seq<bytes>, e: bytes)
    requires e != []
    ensures |Kept(FilledAll(anys, e))| == |Kept(anys)| && |FilledAll(anys, e)| == |anys|
  {
    if anys != [] {
      FilledPiecesAreKept(anys[1..], e);
      WhenFilledIsEmpty(anys[0], e);
      assert FilledAll(anys, e)[1..] == FilledAll(anys[1..], e);
    }
  }

  /** Filling with nothing keeps the shape exactly when no piece is lost. */
  lemma {:induction false} ShapeOfEmptyName(f: Filter, name: bytes)
    requires name != []
    ensures SameShape(Substituted(f, []), Substituted(f, Escaped(name))) <==> PiecesAreKept(f, name)
    decreases f
  {
    hide Escaped, Filled, TrimLeft, TrimRight, HasText, AllHaveText, WhiteSpace, LastIsKept;
    match f
    case All(cs, _, _) => ShapesOfEmptyName(cs, name);
    case Any(cs, _, _) => ShapesOfEmptyName(cs, name);
    case Negated(_, c, _) => ShapeOfEmptyName(c, name);
    case Single(Substring(attr, initial, anys, final)) =>
      ShapeOfEmptyLeaf(attr, initial, anys, final, name);
    case Naked(Substring(attr, initial, anys, final)) =>
      ShapeOfEmptyNaked(attr, initial, anys, final, name);
    case _ =>
  }

  lemma ShapeOfEmptyLeaf(attr: bytes, initial: bytes, anys: seq<bytes>, final: bytes, name: bytes)
    requires name != []
    ensures var l := Substring(attr, initial, anys, final);
      SameLeafShape(SubstitutedLeaf(l, []), SubstitutedLeaf(l, Escaped(name)))
      <==> (HasText(initial) && AllHaveText(anys) && HasText(final))
  {
    hide Kept, AllHaveText, Filled, FilledAll, OnlyHoles;
    var e := Escaped(name);
    EscapedStarts(name);
    WhenFilledIsEmpty(initial, []);
    WhenFilledIsEmpty(initial, e);
    WhichPiecesAreKept(anys, e);
    WhenFilledIsEmpty(final, []);
    WhenFilledIsEmpty(final, e);
  }

  lemma ShapeOfEmptyNaked(attr: bytes, initial: bytes, anys: seq<bytes>, final: bytes, name: bytes)
    requires name != []
    ensures var l := Substring(attr, initial, anys, final);
      SameLeafShape(Trimmed(SubstitutedLeaf(l, [])), Trimmed(SubstitutedLeaf(l, Escaped(name))))
      <==> (HasText(initial) && AllHaveText(anys) && LastIsKept(final, name))
  {
    hide Kept, AllHaveText, Filled, FilledAll, OnlyHoles, Escaped, TrimLeft, TrimRight, HasHole;
    var e := Escaped(name);
    EscapedStarts(name);
    WhenFilledIsEmpty(initial, []);
    WhenFilledIsEmpty(initial, e);
    WhichPiecesAreKept(anys, e);
    EitherEnd(Filled(final, []));
    EitherEnd(Filled(final, e));
    FilledIsBlank(final, name);
  }

  lemma {:induction false} ShapesOfEmptyName(cs: seq<Filter>, name: bytes)
    requires name != []
    ensures SameShapes(SubstitutedAll(cs, []), SubstitutedAll(cs, Escaped(name))) <==> AllPiecesAreKept(cs, name)
    decreases cs
  {
    if cs != [] {
      var e := Escaped(name);
      ShapeOfEmptyName(cs[0], name);
      ShapesOfEmptyName(cs[1..], name);
      assert SubstitutedAll(cs, [])[1..] == SubstitutedAll(cs[1..], []);
      assert SubstitutedAll(cs, e)[1..] == SubstitutedAll(cs[1..], e);
    }
  }

  /** Both names are white space, or neither is. */
  predicate AlikeBlank(name: bytes, other: bytes) {
    WhiteSpace(name) <==> WhiteSpace(other)
  }

  /** Filling with two names gives one shape exactly when no end is open, or both or neither are white space. */
  lemma {:induction false} ShapeOfTwoNames(f: Filter, name: bytes, other: bytes)
    requires name != [] && other != []
    ensures SameShape(Substituted(f, Escaped(name)), Substituted(f, Escaped(other)))
       <==> !HasOpenEnd(f) || AlikeBlank(name, other)
    decreases f
  {
    hide Escaped, Filled, TrimLeft, TrimRight, WhiteSpace, HasHole;
    match f
    case All(cs, _, _) => ShapesOfTwoNames(cs, name, other);
    case Any(cs, _, _) => ShapesOfTwoNames(cs, name, other);
    case Negated(_, c, _) => ShapeOfTwoNames(c, name, other);
    case Single(Substring(attr, initial, anys, final)) =>
      ShapeOfTwoSingles(attr, initial, anys, final, name, other);
    case Naked(Substring(attr, initial, anys, final)) =>
      ShapeOfTwoNaked(attr, initial, anys, final, name, other);
    case _ =>
  }

  lemma ShapeOfTwoSingles(
    attr: bytes, initial: bytes, anys: seq<bytes>, final: bytes, name: bytes, other: bytes)
    requires name != [] && other != []
    ensures var l := Substring(attr, initial, anys, final);
      SameLeafShape(SubstitutedLeaf(l, Escaped(name)), SubstitutedLeaf(l, Escaped(other)))
  {
    hide Kept, Filled, FilledAll, OnlyHoles, Escaped;
    var e, e' := Escaped(name), Escaped(other);
    EscapedStarts(name);
    EscapedStarts(other);
    WhenFilledIsEmpty(initial, e);
    WhenFilledIsEmpty(initial, e');
    FilledPiecesAreKept(anys, e);
    FilledPiecesAreKept(anys, e');
    WhenFilledIsEmpty(final, e);
    WhenFilledIsEmpty(final, e');
  }

  lemma ShapeOfTwoNaked(
    attr: bytes, initial: bytes, anys: seq<bytes>, final: bytes, name: bytes, other: bytes)
    requires name != [] && other != []
    ensures var l := Substring(attr, initial, anys, final);
      SameLeafShape(Trimmed(SubstitutedLeaf(l, Escaped(name))), Trimmed(SubstitutedLeaf(l, Escaped(other))))
      <==> (!(HasHole(final) && WhiteSpace(Filled(final, SPACE))) || AlikeBlank(name, other))
  {
    hide Kept, Filled, FilledAll, OnlyHoles, Escaped, TrimLeft, TrimRight, HasHole;
    var e, e' := Escaped(name), Escaped(other);
    EscapedStarts(name);
    EscapedStarts(other);
    WhenFilledIsEmpty(initial, e);
    WhenFilledIsEmpty(initial, e');
    FilledPiecesAreKept(anys, e);
    FilledPiecesAreKept(anys, e');
    EitherEnd(Filled(final, e));
    EitherEnd(Filled(final, e'));
    FilledIsBlank(final, name);
    FilledIsBlank(final, other);
  }

  lemma {:induction false} ShapesOfTwoNames(cs: seq<Filter>, name: bytes, other: bytes)
    requires name != [] && other != []
    ensures SameShapes(SubstitutedAll(cs, Escaped(name)), SubstitutedAll(cs, Escaped(other)))
       <==> !AnyHasOpenEnd(cs) || AlikeBlank(name, other)
    decreases cs
  {
    if cs != [] {
      var e, e' := Escaped(name), Escaped(other);
      ShapeOfTwoNames(cs[0], name, other);
      ShapesOfTwoNames(cs[1..], name, other);
      assert SubstitutedAll(cs, e)[1..] == SubstitutedAll(cs[1..], e);
      assert SubstitutedAll(cs, e')[1..] == SubstitutedAll(cs[1..], e');
    }
  }
}
