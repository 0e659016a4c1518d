/** The search filter compiler is correct. */
module LdapCompiler {
  import opened Ber
  import opened LdapFilter
  import opened LdapFilterTrees

  lemma {:induction false} ChildrenAreCompiled(cs: seq<Filter>, gaps: seq<bytes>, after: bytes)
    requires AllWellFormed(cs) && AllBlank(gaps) && Blank(after)
    ensures CompiledChildren(Row(cs, gaps) + after) == Encodings(cs)
    decreases cs, 0
  {
    if cs == [] {
      assert Row(cs, gaps) + after == after;
      AllBlankTrims(after);
    } else {
      var first, tail := Written(cs[0]), Row(cs[1..], Later(gaps));
      TrimmedRow(cs, gaps, after);
      WrittenPasses(cs[0], tail, 0);
      assert (first + tail)[..|first|] == first && (first + tail)[|first|..] == tail;
      FilterIsCompiled([], cs[0], []);
      assert [] + first + [] == first;
      ChildrenAreCompiled(cs[1..], Later(gaps), []);
      assert tail + [] == tail;
    }
  }

  lemma {:induction false} InnerIsCompiled(f: Filter)
    requires WellFormed(f) && !f.Naked?
    ensures CompiledInner(Inner(f)) == Encoding(f)
    decreases f, 0
  {
    match f
    case All(cs, gaps, after) =>
      TaggedInner(AND, Row(cs, gaps) + after);
      ChildrenAreCompiled(cs, gaps, after);
    case Any(cs, gaps, after) =>
      TaggedInner(OR, Row(cs, gaps) + after);
      ChildrenAreCompiled(cs, gaps, after);
    case Negated(before, c, after) =>
      TaggedInner(NOT, before + Written(c) + after);
      FilterIsCompiled(before, c, after);
    case Single(leaf) =>
      LeafInner(leaf);
      LeafIsCompiled(leaf);
    case Naked(_) =>
  }

  lemma TaggedInner(tag: byte, s: bytes)
    ensures CompiledInner([tag] + s)
         == if tag == AND then Tlv(0xa0, CompiledChildren(s))
            else if tag == OR then Tlv(0xa1, CompiledChildren(s))
            else if tag == NOT then Tlv(0xa2, CompiledFilter(s))
            else LeafFilter([tag] + s)
  {
    assert ([tag] + s)[1..] == s;
  }

  lemma LeafInner(l: Leaf)
    requires LeafIsWellFormed(l) && StartsLeaf(l.attr)
    ensures CompiledInner(LeafText(l)) == LeafFilter(LeafText(l))
  {
    var t := LeafText(l);
    assert t[0] == if l.attr == [] then EQUALS else l.attr[0];
    TaggedInner(t[0], t[1..]);
    assert [t[0]] + t[1..] == t;
  }

  /** The compiler: the text of a well-formed filter, with blanks around it, becomes the encoding of its tree. */
  lemma {:induction false} FilterIsCompiled(before: bytes, f: Filter, after: bytes)
    requires WellFormed(f) && Blank(before) && Blank(after) && HoldsBlanks(f, before, after)
    ensures CompiledFilter(before + Written(f) + after) == Encoding(f)
    decreases f, 1
  {
    if f.Naked? {
      assert before + Written(f) + after == LeafText(f.leaf);
      NakedIsCompiled(f.leaf);
    } else {
      TrimSpaceOfBlank(before, Written(f), after);
      var t := Written(f);
      assert t[1..|t| - 1] == Inner(f);
      InnerIsCompiled(f);
    }
  }
}
