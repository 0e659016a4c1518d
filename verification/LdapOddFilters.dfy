/** What the search filter compiler makes of texts that are no filters. */
module LdapOddFilters {
  import opened Ber
  import opened LdapFilter
  import opened LdapFilterTrees
  import opened LdapCompiler

  predicate Printable(b: byte) {
    32 < b < 128
  }

  lemma PrintableIsNoSpace(rune: bytes)
    requires rune != [] && (Printable(rune[0]) || Printable(rune[|rune| - 1]))
    ensures !IsSpaceRune(rune)
  {
  }

  lemma NothingTrimmed(s: bytes)
    requires s != [] && Printable(s[|s| - 1])
    ensures TrimRight(s) == s
    ensures Printable(s[0]) ==> TrimSpace(s) == s
  {
    hide IsSpaceRune, TrimLeft, TrimRight;
    TrimLeftStep(s);
    TrimRightStep(s);
    if Printable(s[0]) {
      NoSpaceAt(s, 1);
      NoSpaceAt(s, 2);
      NoSpaceAt(s, 3);
    }
    NoSpaceBefore(s, 1);
    NoSpaceBefore(s, 2);
    NoSpaceBefore(s, 3);
  }

  lemma NoSpaceAt(s: bytes, w: nat)
    requires s != [] && Printable(s[0]) && w > 0
    ensures !StartsWithSpace(s, w)
  {
    hide IsSpaceRune;
    if w <= |s| {
      PrintableIsNoSpace(s[..w]);
    }
  }

  lemma NoSpaceBefore(s: bytes, w: nat)
    requires s != [] && Printable(s[|s| - 1]) && w > 0
    ensures !EndsWithSpace(s, w)
  {
    hide IsSpaceRune;
    if w <= |s| {
      PrintableIsNoSpace(s[|s| - w..]);
    }
  }

  /** The bytes of an ASCII text. */
  function Ascii(text: string): bytes
    requires forall i :: 0 <= i < |text| ==> text[i] < '\U{80}'
  {
    seq(|text|, i requires 0 <= i < |text| => text[i] as int)
  }

  /** A blank text asks for every entry that has an objectClass. */
  lemma BlankAsksForAll(s: bytes)
    requires TrimSpace(s) == []
    ensures CompiledFilter(s) == Tlv(0x87, Ascii("objectClass"))
  {
    hide TrimSpace, Tlv, Ascii;
    ObjectClassText();
  }

  lemma ObjectClassText()
    ensures OBJECT_CLASS == Ascii("objectClass")
  {
  }

  /** A name without an equals sign asks for presence, with its parentheses or without them. */
  lemma NameAloneAsksPresence(name: bytes)
    requires IsName(name) && StartsLeaf(name)
    ensures CompiledFilter([LPAREN] + name + [RPAREN]) == Tlv(0x87, name)
    ensures name != [] && Printable(name[0]) && Printable(name[|name| - 1]) ==> CompiledFilter(name) == Tlv(0x87, name)
  {
    Parenthesized(name);
    assert IndexOf(name, EQUALS) == |name|;
    if name != [] && Printable(name[0]) && Printable(name[|name| - 1]) {
      NothingTrimmed(name);
      assert name[0] in name;
    }
  }

  /** A text that cannot be a child: it does not open a parenthesis, or does not close it. */
  ghost predicate IsJunk(s: bytes) {
    s != [] && Printable(s[0]) && Printable(s[|s| - 1]) && (s[0] != LPAREN || Closing(s, 0) == 0)
  }

  lemma OpensParen(f: Filter)
    requires !f.Naked?
    ensures Written(f) != [] && Written(f)[0] == LPAREN
  {
  }

  /** A list of children ends where something else begins; that and all behind it is dropped without an error. */
  lemma {:induction false} ListStopsAtJunk(cs: seq<Filter>, gaps: seq<bytes>, junk: bytes)
    requires AllWellFormed(cs) && AllBlank(gaps) && IsJunk(junk)
    ensures CompiledChildren(Row(cs, gaps) + junk) == Encodings(cs)
  {
    hide IsSpaceRune, Encoding, CompiledFilter, WellFormed, Written, TrimLeft, TrimRight, Closing;
    if cs == [] {
      assert Row(cs, gaps) + junk == junk;
      NothingTrimmed(junk);
    } else {
      var first, tail := Written(cs[0]), Row(cs[1..], Later(gaps)) + junk;
      assert Row(cs, gaps) + junk == Gap(gaps) + (first + tail);
      OpensParen(cs[0]);
      TrimLeftOfBlank(Gap(gaps), first + tail);
      NothingTrimmed(first + tail);
      WrittenPasses(cs[0], tail, 0);
      assert (first + tail)[..|first|] == first && (first + tail)[|first|..] == tail;
      FilterIsCompiled([], cs[0], []);
      assert [] + first + [] == first;
      ListStopsAtJunk(cs[1..], Later(gaps), junk);
    }
  }

  lemma Parenthesized(inner: bytes)
    ensures CompiledFilter([LPAREN] + inner + [RPAREN]) == CompiledInner(inner)
  {
    hide IsSpaceRune, CompiledInner;
    var t := [LPAREN] + inner + [RPAREN];
    NothingTrimmed(t);
    assert t[1..|t| - 1] == inner;
  }

  /** So a compound filter with junk in its list is compiled as if it ended there, however it goes on. */
  lemma JunkIsDropped(cs: seq<Filter>, gaps: seq<bytes>, junk: bytes)
    requires AllWellFormed(cs) && AllBlank(gaps) && IsJunk(junk)
    ensures var list := Row(cs, gaps) + junk;
      && CompiledFilter([LPAREN] + ([AND] + list) + [RPAREN]) == Tlv(0xa0, Encodings(cs))
      && CompiledFilter([LPAREN] + ([OR] + list) + [RPAREN]) == Tlv(0xa1, Encodings(cs))
  {
    hide CompiledFilter, CompiledInner, CompiledChildren;
    var list := Row(cs, gaps) + junk;
    ListStopsAtJunk(cs, gaps, junk);
    Parenthesized([AND] + list);
    Parenthesized([OR] + list);
    TaggedInner(AND, list);
    TaggedInner(OR, list);
  }
}
