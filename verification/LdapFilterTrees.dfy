/**
 * Filter trees, their text and their BER encoding, and how the pieces of the compiler read the text: the parenthesis
 * scan closes a written filter at its own last parenthesis, trimming takes off the blanks around it, a leaf is split at
 * its equals sign and its stars, and a leaf without parentheses is trimmed like a filter.
 */
module LdapFilterTrees {
  import opened Ber
  import opened LdapFilter

  // Text as in section 3 of RFC 4515, encoding as in section 4.5.1 of RFC 4511.

  datatype Leaf =
    | Equality(attr: bytes, value: bytes)
    | Present(attr: bytes)
    | Substring(attr: bytes, initial: bytes, anys: seq<bytes>, final: bytes)

  /**
   * A filter as written: besides its tree, the blanks between children, and whether a leaf has its parentheses.
   * A naked leaf is no filter of the grammar, but the compiler takes it, at the top and after an exclamation mark.
   */
  datatype Filter =
    | All(children: seq<Filter>, gaps: seq<bytes>, after: bytes)
    | Any(children: seq<Filter>, gaps: seq<bytes>, after: bytes)
    | Negated(before: bytes, child: Filter, after: bytes)
    | Single(leaf: Leaf)
    | Naked(leaf: Leaf)

  // ---------- text ----------

  function Gap(gaps: seq<bytes>): bytes {
    if gaps == [] then [] else gaps[0]
  }

  function Later(gaps: seq<bytes>): seq<bytes> {
    if gaps == [] then [] else gaps[1..]
  }

  function Starred(anys: seq<bytes>): bytes {
    if anys == [] then [] else anys[0] + [STAR] + Starred(anys[1..])
  }

  function Pattern(initial: bytes, anys: seq<bytes>, final: bytes): bytes {
    initial + [STAR] + Starred(anys) + final
  }

  function LeafText(l: Leaf): bytes {
    match l
    case Equality(attr, value) => attr + [EQUALS] + value
    case Present(attr) => attr + [EQUALS] + [STAR]
    case Substring(attr, initial, anys, final) => attr + [EQUALS] + Pattern(initial, anys, final)
  }

  function Written(f: Filter): bytes
    decreases f, 1
  {
    if f.Naked? then LeafText(f.leaf) else [LPAREN] + Inner(f) + [RPAREN]
  }

  function Inner(f: Filter): bytes
    decreases f, 0
  {
    match f
    case All(cs, gaps, after) => [AND] + (Row(cs, gaps) + after)
    case Any(cs, gaps, after) => [OR] + (Row(cs, gaps) + after)
    case Negated(before, c, after) => [NOT] + (before + Written(c) + after)
    case Single(leaf) => LeafText(leaf)
    case Naked(leaf) => LeafText(leaf)
  }

  function Row(cs: seq<Filter>, gaps: seq<bytes>): bytes {
    if cs == [] then [] else Gap(gaps) + (Written(cs[0]) + Row(cs[1..], Later(gaps)))
  }

  // ---------- encoding ----------

  /** A leaf without parentheses is trimmed: its name on the left, what comes last in its value on the right. */
  function Trimmed(l: Leaf): Leaf {
    match l
    case Equality(attr, value) => Equality(TrimLeft(attr), TrimRight(value))
    case Present(attr) => Present(TrimLeft(attr))
    case Substring(attr, initial, anys, final) => Substring(TrimLeft(attr), initial, anys, TrimRight(final))
  }

  ghost function Encoding(f: Filter): bytes {
    match f
    case All(cs, _, _) => Tlv(0xa0, Encodings(cs))
    case Any(cs, _, _) => Tlv(0xa1, Encodings(cs))
    case Negated(_, c, _) => Tlv(0xa2, Encoding(c))
    case Single(leaf) => LeafEncoding(leaf)
    case Naked(leaf) => LeafEncoding(Trimmed(leaf))
  }

  ghost function LeafEncoding(l: Leaf): bytes {
    match l
    case Equality(attr, value) => Tlv(0xa3, OctetString(attr) + OctetString(value))
    case Present(attr) => Tlv(0x87, attr)
    case Substring(attr, initial, anys, final) =>
      if IsStar(initial, anys, final) then Tlv(0x87, attr)
      else Tlv(0xa4, OctetString(attr) + Sequence(Pieces(initial, anys, final)))
  }

  /** The pattern is a single star, which is how presence is written. */
  predicate IsStar(initial: bytes, anys: seq<bytes>, final: bytes) {
    initial == [] && anys == [] && final == []
  }

  ghost function Piece(tag: byte, piece: bytes): bytes {
    if piece != [] then Tlv(tag, piece) else []
  }

  ghost function Pieces(initial: bytes, anys: seq<bytes>, final: bytes): bytes {
    Piece(0x80, initial) + AnyParts(anys) + Piece(0x82, final)
  }

  ghost function Encodings(cs: seq<Filter>): bytes {
    if cs == [] then [] else Encoding(cs[0]) + Encodings(cs[1..])
  }

  ghost function AnyParts(anys: seq<bytes>): bytes {
    if anys == [] then [] else AnyParts(anys[..|anys| - 1]) + Piece(0x81, anys[|anys| - 1])
  }

  // ---------- well-formed trees ----------

  predicate Clean(s: bytes) {
    LPAREN !in s && RPAREN !in s
  }

  predicate Starless(s: bytes) {
    Clean(s) && STAR !in s
  }

  predicate Blank(s: bytes) {
    forall i :: 0 <= i < |s| ==> IsAsciiSpace(s[i])
  }

  predicate IsName(attr: bytes) {
    Clean(attr) && EQUALS !in attr
  }

  /** The name cannot be taken for the start of a compound filter. */
  predicate StartsLeaf(attr: bytes) {
    attr != [] ==> attr[0] != AND && attr[0] != OR && attr[0] != NOT
  }

  ghost predicate LeafIsWellFormed(l: Leaf) {
    match l
    case Equality(attr, value) => IsName(attr) && Starless(value)
    case Present(attr) => IsName(attr)
    case Substring(attr, initial, anys, final) =>
      IsName(attr) && Starless(initial) && Starless(final) && AllStarless(anys)
  }

  ghost predicate WellFormed(f: Filter) {
    match f
    case All(cs, gaps, after) => AllWellFormed(cs) && AllBlank(gaps) && Blank(after)
    case Any(cs, gaps, after) => AllWellFormed(cs) && AllBlank(gaps) && Blank(after)
    case Negated(before, c, after) => WellFormed(c) && Blank(before) && Blank(after) && HoldsBlanks(c, before, after)
    case Single(leaf) => LeafIsWellFormed(leaf) && StartsLeaf(leaf.attr)
    case Naked(leaf) => LeafIsWellFormed(leaf)
  }

  /** Blanks around a naked leaf count as part of its name and value. */
  predicate HoldsBlanks(f: Filter, before: bytes, after: bytes) {
    f.Naked? ==> before == [] && after == []
  }

  /** Children of a compound filter have their parentheses. */
  ghost predicate AllWellFormed(cs: seq<Filter>) {
    cs == [] || (WellFormed(cs[0]) && !cs[0].Naked? && AllWellFormed(cs[1..]))
  }

  ghost predicate AllBlank(gaps: seq<bytes>) {
    gaps == [] || (Blank(gaps[0]) && AllBlank(gaps[1..]))
  }

  ghost predicate AllStarless(anys: seq<bytes>) {
    forall i :: 0 <= i < |anys| ==> Starless(anys[i])
  }

  // ---------- the paren scan ----------

  function Plus(k: nat, n: nat): nat {
    if n == 0 then 0 else k + n
  }

  lemma {:induction false} CleanPasses(t: bytes, rest: bytes, depth: int)
    requires Clean(t)
    ensures Closing(t + rest, depth) == Plus(|t|, Closing(rest, depth))
  {
    if t == [] {
      assert t + rest == rest;
    } else {
      CleanPasses(t[1..], rest, depth);
      assert (t + rest)[1..] == t[1..] + rest;
    }
  }

  lemma BlankIsClean(s: bytes)
    requires Blank(s)
    ensures Clean(s)
  {
  }

  lemma PassesTwo(a: bytes, b: bytes, rest: bytes, depth: int)
    requires Closing(a + (b + rest), depth) == Plus(|a|, Closing(b + rest, depth))
    requires Closing(b + rest, depth) == Plus(|b|, Closing(rest, depth))
    ensures Closing((a + b) + rest, depth) == Plus(|a + b|, Closing(rest, depth))
  {
    assert (a + b) + rest == a + (b + rest);
  }

  lemma {:induction false} StarredIsClean(anys: seq<bytes>)
    requires AllStarless(anys)
    ensures Clean(Starred(anys))
  {
    if anys != [] {
      StarredIsClean(anys[1..]);
    }
  }

  lemma {:induction false} InnerPasses(f: Filter, rest: bytes, depth: int)
    requires WellFormed(f) && depth >= 1
    ensures Closing(Inner(f) + rest, depth) == Plus(|Inner(f)|, Closing(rest, depth))
    decreases f, 0
  {
    hide Closing, Plus, LeafText;
    match f
    case All(cs, gaps, after) => RowAfterPasses(cs, gaps, after, AND, rest, depth);
    case Any(cs, gaps, after) => RowAfterPasses(cs, gaps, after, OR, rest, depth);
    case Negated(before, c, after) => NegatedPasses(before, c, after, rest, depth);
    case Single(leaf) =>
      LeafIsClean(leaf);
      CleanPasses(Inner(f), rest, depth);
    case Naked(leaf) =>
      LeafIsClean(leaf);
      CleanPasses(Inner(f), rest, depth);
  }

  lemma {:induction false} NegatedPasses(before: bytes, c: Filter, after: bytes, rest: bytes, depth: int)
    requires WellFormed(c) && Blank(before) && Blank(after) && depth >= 1
    ensures var t := [NOT] + (before + Written(c) + after);
      Closing(t + rest, depth) == Plus(|t|, Closing(rest, depth))
    decreases c, 2
  {
    hide Closing, Plus;
    var w := Written(c);
    BlankIsClean(before);
    BlankIsClean(after);
    CleanPasses(after, rest, depth);
    WrittenPasses(c, after + rest, depth);
    PassesTwo(w, after, rest, depth);
    CleanPasses([NOT] + before, (w + after) + rest, depth);
    PassesTwo([NOT] + before, w + after, rest, depth);
    assert [NOT] + (before + w + after) == ([NOT] + before) + (w + after);
  }

  lemma LeafIsClean(l: Leaf)
    requires LeafIsWellFormed(l)
    ensures Clean(LeafText(l))
  {
    if l.Substring? {
      StarredIsClean(l.anys);
    }
  }

  lemma {:induction false} RowAfterPasses(
    cs: seq<Filter>, gaps: seq<bytes>, after: bytes, tag: byte, rest: bytes, depth: int)
    requires AllWellFormed(cs) && AllBlank(gaps) && Blank(after) && Clean([tag]) && depth >= 1
    ensures Closing([tag] + (Row(cs, gaps) + after) + rest, depth)
         == Plus(|[tag] + (Row(cs, gaps) + after)|, Closing(rest, depth))
    decreases cs, 1
  {
    BlankIsClean(after);
    CleanPasses(after, rest, depth);
    RowPasses(cs, gaps, after + rest, depth);
    PassesTwo(Row(cs, gaps), after, rest, depth);
    CleanPasses([tag], (Row(cs, gaps) + after) + rest, depth);
    PassesTwo([tag], Row(cs, gaps) + after, rest, depth);
  }

  lemma {:induction false} RowPasses(cs: seq<Filter>, gaps: seq<bytes>, rest: bytes, depth: int)
    requires AllWellFormed(cs) && AllBlank(gaps) && depth >= 1
    ensures Closing(Row(cs, gaps) + rest, depth) == Plus(|Row(cs, gaps)|, Closing(rest, depth))
    decreases cs, 0
  {
    if cs == [] {
      assert Row(cs, gaps) + rest == rest;
    } else {
      var tail := Row(cs[1..], Later(gaps));
      RowPasses(cs[1..], Later(gaps), rest, depth);
      WrittenPasses(cs[0], tail + rest, depth);
      PassesTwo(Written(cs[0]), tail, rest, depth);
      BlankIsClean(Gap(gaps));
      CleanPasses(Gap(gaps), (Written(cs[0]) + tail) + rest, depth);
      PassesTwo(Gap(gaps), Written(cs[0]) + tail, rest, depth);
    }
  }

  /** A written filter closes exactly at its own last parenthesis. */
  lemma {:induction false} WrittenPasses(f: Filter, rest: bytes, depth: int)
    requires WellFormed(f) && depth >= 0 && (f.Naked? ==> depth >= 1)
    ensures Closing(Written(f) + rest, depth)
         == if depth == 0 then |Written(f)| else Plus(|Written(f)|, Closing(rest, depth))
    decreases f, 1
  {
    hide Inner, Closing, WellFormed;
    if f.Naked? {
      InnerPasses(f, rest, depth);
      NakedIsInner(f);
    } else {
      InnerPasses(f, [RPAREN] + rest, depth + 1);
      var inner := Inner(f);
      OpensAndCloses(inner, rest, depth);
    }
  }

  lemma NakedIsInner(f: Filter)
    requires f.Naked?
    ensures Written(f) == Inner(f)
  {
  }

  lemma {:induction false} OpensAndCloses(inner: bytes, rest: bytes, depth: int)
    requires depth >= 0
    requires Closing(inner + ([RPAREN] + rest), depth + 1) == Plus(|inner|, Closing([RPAREN] + rest, depth + 1))
    ensures var t := [LPAREN] + inner + [RPAREN];
      Closing(t + rest, depth) == if depth == 0 then |t| else Plus(|t|, Closing(rest, depth))
  {
    var t := [LPAREN] + inner + [RPAREN];
    assert (t + rest)[1..] == inner + ([RPAREN] + rest);
    assert ([RPAREN] + rest)[1..] == rest;
  }

  // ---------- trimming ----------

  lemma {:induction false} TrimLeftOfBlank(gap: bytes, s: bytes)
    requires Blank(gap) && s != [] && s[0] == LPAREN
    ensures TrimLeft(gap + s) == s
  {
    if gap == [] {
      assert gap + s == s;
      assert s[..1] == [LPAREN];
    } else {
      assert (gap + s)[..1] == [gap[0]];
      assert (gap + s)[1..] == gap[1..] + s;
      TrimLeftOfBlank(gap[1..], s);
    }
  }

  lemma ParenIsNoSpace(rune: bytes)
    requires rune != [] && rune[|rune| - 1] == RPAREN
    ensures !IsSpaceRune(rune)
  {
  }

  lemma EndsInParen(s: bytes)
    requires s != [] && s[|s| - 1] == RPAREN
    ensures TrimRight(s) == s
  {
    hide IsSpaceRune;
    forall w | 1 <= w <= |s| ensures !EndsWithSpace(s, w) {
      ParenIsNoSpace(s[|s| - w..]);
    }
  }

  lemma {:induction false} TrimRightOfBlank(s: bytes, gap: bytes)
    requires Blank(gap) && s != [] && s[|s| - 1] == RPAREN
    ensures TrimRight(s + gap) == s
  {
    var t := s + gap;
    if gap == [] {
      assert t == s;
      EndsInParen(s);
    } else {
      var last := |gap| - 1;
      assert t[|t| - 1..] == [gap[last]];
      assert t[..|t| - 1] == s + gap[..last];
      TrimRightOfBlank(s, gap[..last]);
    }
  }

  lemma TrimSpaceOfBlank(before: bytes, s: bytes, after: bytes)
    requires Blank(before) && Blank(after) && s != [] && s[0] == LPAREN && s[|s| - 1] == RPAREN
    ensures TrimSpace(before + s + after) == s
  {
    assert before + s + after == before + (s + after);
    TrimLeftOfBlank(before, s + after);
    TrimRightOfBlank(s, after);
  }

  lemma {:induction false} AllBlankTrims(gap: bytes)
    requires Blank(gap)
    ensures TrimSpace(gap) == []
  {
    if gap != [] {
      assert gap[..1] == [gap[0]];
      AllBlankTrims(gap[1..]);
    }
  }

  lemma {:induction false} RowEnds(cs: seq<Filter>, gaps: seq<bytes>)
    requires cs != [] && AllWellFormed(cs)
    ensures Row(cs, gaps) != [] && Row(cs, gaps)[|Row(cs, gaps)| - 1] == RPAREN
  {
    if |cs| > 1 {
      RowEnds(cs[1..], Later(gaps));
    }
  }

  lemma TrimmedRow(cs: seq<Filter>, gaps: seq<bytes>, after: bytes)
    requires cs != [] && AllWellFormed(cs) && AllBlank(gaps) && Blank(after)
    ensures TrimSpace(Row(cs, gaps) + after) == Written(cs[0]) + Row(cs[1..], Later(gaps))
  {
    var s := Written(cs[0]) + Row(cs[1..], Later(gaps));
    if |cs| > 1 {
      RowEnds(cs[1..], Later(gaps));
    }
    TrimSpaceOfBlank(Gap(gaps), s, after);
    assert Row(cs, gaps) + after == Gap(gaps) + s + after;
  }

  // ---------- leaves ----------

  lemma {:induction false} IndexOfFirst(a: bytes, b: byte, rest: bytes)
    requires b !in a
    ensures IndexOf(a + [b] + rest, b) == |a|
  {
    if a == [] {
      assert a + [b] + rest == [b] + rest;
    } else {
      IndexOfFirst(a[1..], b, rest);
      assert (a + [b] + rest)[1..] == a[1..] + [b] + rest;
    }
  }

  lemma LeafSplits(attr: bytes, value: bytes)
    requires EQUALS !in attr
    ensures var s := attr + [EQUALS] + value; var eq := IndexOf(s, EQUALS);
      eq < |s| && s[..eq] == attr && s[eq + 1..] == value
  {
    IndexOfFirst(attr, EQUALS, value);
  }

  lemma NoStarNoSplit(s: bytes)
    requires STAR !in s
    ensures SplitAtStars(s) == [s]
  {
    assert forall i :: 0 <= i < |s| ==> s[i] in s;
  }

  lemma SplitFirst(a: bytes, rest: bytes)
    requires STAR !in a
    ensures SplitAtStars(a + [STAR] + rest) == [a] + SplitAtStars(rest)
  {
    IndexOfFirst(a, STAR, rest);
    var s := a + [STAR] + rest;
    assert s[..|a|] == a && s[|a| + 1..] == rest;
  }

  lemma StarredStep(anys: seq<bytes>, final: bytes)
    requires anys != []
    ensures Starred(anys) + final == anys[0] + [STAR] + (Starred(anys[1..]) + final)
    ensures anys + [final] == [anys[0]] + (anys[1..] + [final])
  {
  }

  lemma {:induction false} StarredSplits(anys: seq<bytes>, final: bytes)
    requires AllStarless(anys) && Starless(final)
    ensures SplitAtStars(Starred(anys) + final) == anys + [final]
  {
    if anys == [] {
      assert Starred(anys) + final == final;
      NoStarNoSplit(final);
    } else {
      StarredSplits(anys[1..], final);
      assert Starless(anys[0]);
      SplitFirst(anys[0], Starred(anys[1..]) + final);
      StarredStep(anys, final);
    }
  }

  lemma PatternStep(initial: bytes, anys: seq<bytes>, final: bytes)
    ensures Pattern(initial, anys, final) == initial + [STAR] + (Starred(anys) + final)
  {
  }

  lemma PatternSplits(initial: bytes, anys: seq<bytes>, final: bytes)
    requires Starless(initial) && AllStarless(anys) && Starless(final)
    ensures SplitAtStars(Pattern(initial, anys, final)) == [initial] + anys + [final]
  {
    StarredSplits(anys, final);
    SplitFirst(initial, Starred(anys) + final);
    PatternStep(initial, anys, final);
    assert [initial] + (anys + [final]) == [initial] + anys + [final];
  }

  lemma PartsStep(parts: seq<bytes>, part: bytes, count: nat)
    ensures Parts(parts + [part], count) == Parts(parts, count) + Part(part, |parts|, count)
  {
    assert (parts + [part])[..|parts|] == parts;
  }

  lemma AssociateParts(a: bytes, b: bytes, c: bytes)
    ensures (a + b) + c == a + (b + c)
  {
  }

  lemma {:induction false} MiddleParts(initial: bytes, anys: seq<bytes>, count: nat)
    requires count > |anys| + 1
    ensures Parts([initial] + anys, count) == Piece(0x80, initial) + AnyParts(anys)
  {
    hide Tlv, Parts, Part;
    var first := Part(initial, 0, count);
    PartIsPiece(initial, 0, count);
    if anys == [] {
      PartsStep([], initial, count);
      NoParts(count);
      assert [initial] + anys == [] + [initial] && [] + first == first && first + [] == first;
    } else {
      var n := |anys| - 1;
      MiddleParts(initial, anys[..n], count);
      assert [initial] + anys == ([initial] + anys[..n]) + [anys[n]];
      PartsStep([initial] + anys[..n], anys[n], count);
      PartIsPiece(anys[n], n + 1, count);
      AssociateParts(first, AnyParts(anys[..n]), Piece(0x81, anys[n]));
    }
  }

  lemma NoParts(count: nat)
    ensures Parts([], count) == []
  {
  }

  lemma PartIsPiece(part: bytes, i: nat, count: nat)
    ensures Part(part, i, count) == Piece(PartTag(i, count), part)
  {
    hide Tlv;
  }

  lemma AllParts(initial: bytes, anys: seq<bytes>, final: bytes)
    ensures var parts := [initial] + anys + [final]; Parts(parts, |parts|) == Pieces(initial, anys, final)
  {
    MiddleParts(initial, anys, |anys| + 2);
    PartsStep([initial] + anys, final, |anys| + 2);
  }

  lemma PatternIsNoPresence(initial: bytes, anys: seq<bytes>, final: bytes)
    requires !IsStar(initial, anys, final)
    ensures Pattern(initial, anys, final) != [STAR] && STAR in Pattern(initial, anys, final)
  {
    var p := Pattern(initial, anys, final);
    assert p[|initial|] == STAR;
    assert anys != [] ==> |Starred(anys)| > 0;
  }

  lemma LeafIsCompiled(l: Leaf)
    requires LeafIsWellFormed(l)
    ensures LeafFilter(LeafText(l)) == LeafEncoding(l)
  {
    match l
    case Equality(attr, value) => LeafSplits(attr, value);
    case Present(attr) => LeafSplits(attr, [STAR]);
    case Substring(attr, initial, anys, final) =>
      LeafSplits(attr, Pattern(initial, anys, final));
      if IsStar(initial, anys, final) {
        assert Pattern([], [], []) == [STAR];
      } else {
        PatternIsNoPresence(initial, anys, final);
        PatternSplits(initial, anys, final);
        AllParts(initial, anys, final);
      }
  }

  // ---------- leaves without parentheses ----------

  /** Trimming on the left stops at a character that is no blank. */
  lemma {:induction false} TrimLeftStops(a: bytes, b: byte, rest: bytes)
    requires 0x21 <= b < 0x80
    ensures TrimLeft(a + ([b] + rest)) == TrimLeft(a) + ([b] + rest)
    decreases |a|
  {
    hide IsSpaceRune, TrimLeft;
    TrimLeftStep(a);
    TrimLeftStep(a + ([b] + rest));
    forall w | 1 <= w <= 3
      ensures StartsWithSpace(a + ([b] + rest), w) <==> StartsWithSpace(a, w)
      ensures StartsWithSpace(a, w) ==> (a + ([b] + rest))[w..] == a[w..] + ([b] + rest)
    {
      SpaceInFront(a, b, rest, w);
    }
    if StartsWithSpace(a, 1) {
      TrimLeftStops(a[1..], b, rest);
    } else if StartsWithSpace(a, 2) {
      TrimLeftStops(a[2..], b, rest);
    } else if StartsWithSpace(a, 3) {
      TrimLeftStops(a[3..], b, rest);
    }
  }

  lemma SpaceInFront(a: bytes, b: byte, rest: bytes, w: nat)
    requires 0x21 <= b < 0x80 && 1 <= w <= 3
    ensures StartsWithSpace(a + ([b] + rest), w) <==> StartsWithSpace(a, w)
    ensures StartsWithSpace(a, w) ==> (a + ([b] + rest))[w..] == a[w..] + ([b] + rest)
  {
    hide IsSpaceRune;
    var s := a + ([b] + rest);
    if w <= |a| {
      assert s[..w] == a[..w];
    } else if w <= |s| {
      SpaceEndsAbove(s[..w], |a|, b);
    }
  }

  /** No blank's encoding holds another ASCII character. */
  lemma SpaceEndsAbove(rune: bytes, i: nat, b: byte)
    requires i < |rune| && rune[i] == b && 0x21 <= b < 0x80
    ensures !IsSpaceRune(rune)
  {
  }

  /** Trimming on the right stops there too. */
  lemma {:induction false} TrimRightStops(a: bytes, b: byte, rest: bytes)
    requires 0x21 <= b < 0x80
    ensures TrimRight((a + [b]) + rest) == (a + [b]) + TrimRight(rest)
    decreases |rest|
  {
    hide IsSpaceRune, TrimRight;
    var front := a + [b];
    TrimRightStep(rest);
    TrimRightStep(front + rest);
    forall w | 1 <= w <= 3
      ensures EndsWithSpace(front + rest, w) <==> EndsWithSpace(rest, w)
      ensures EndsWithSpace(rest, w) ==> (front + rest)[..|front + rest| - w] == front + rest[..|rest| - w]
    {
      SpaceAtEnd(a, b, rest, w);
    }
    if EndsWithSpace(rest, 1) {
      TrimRightStops(a, b, rest[..|rest| - 1]);
    } else if EndsWithSpace(rest, 2) {
      TrimRightStops(a, b, rest[..|rest| - 2]);
    } else if EndsWithSpace(rest, 3) {
      TrimRightStops(a, b, rest[..|rest| - 3]);
    }
  }

  lemma SpaceAtEnd(a: bytes, b: byte, rest: bytes, w: nat)
    requires 0x21 <= b < 0x80 && 1 <= w <= 3
    ensures var s := (a + [b]) + rest;
      && (EndsWithSpace(s, w) <==> EndsWithSpace(rest, w))
      && (EndsWithSpace(rest, w) ==> s[..|s| - w] == (a + [b]) + rest[..|rest| - w])
  {
    hide IsSpaceRune;
    var s := (a + [b]) + rest;
    if w <= |rest| {
      assert s[|s| - w..] == rest[|rest| - w..];
    } else if w <= |s| {
      SpaceEndsAbove(s[|s| - w..], w - |rest| - 1, b);
    }
  }

  lemma TrimmedAround(attr: bytes, middle: bytes, b: byte, last: bytes)
    requires 0x21 <= b < 0x80
    ensures TrimSpace(attr + ([EQUALS] + middle + [b] + last))
         == TrimLeft(attr) + ([EQUALS] + middle + [b] + TrimRight(last))
  {
    hide TrimLeft, TrimRight;
    var rest := middle + [b] + last;
    assert attr + ([EQUALS] + middle + [b] + last) == attr + ([EQUALS] + rest);
    TrimLeftStops(attr, EQUALS, rest);
    var front := TrimLeft(attr) + ([EQUALS] + middle);
    assert TrimLeft(attr) + ([EQUALS] + rest) == (front + [b]) + last;
    TrimRightStops(front, b, last);
    assert (front + [b]) + TrimRight(last) == TrimLeft(attr) + ([EQUALS] + middle + [b] + TrimRight(last));
  }

  lemma TrimmedOnce(attr: bytes, last: bytes)
    ensures TrimSpace(attr + ([EQUALS] + last)) == TrimLeft(attr) + ([EQUALS] + TrimRight(last))
  {
    hide TrimLeft, TrimRight;
    TrimLeftStops(attr, EQUALS, last);
    assert TrimLeft(attr) + ([EQUALS] + last) == (TrimLeft(attr) + [EQUALS]) + last;
    TrimRightStops(TrimLeft(attr), EQUALS, last);
    assert (TrimLeft(attr) + [EQUALS]) + TrimRight(last) == TrimLeft(attr) + ([EQUALS] + TrimRight(last));
  }

  lemma {:induction false} StarredEnds(anys: seq<bytes>)
    requires anys != []
    ensures Starred(anys) != [] && Starred(anys)[|Starred(anys)| - 1] == STAR
  {
    if |anys| > 1 {
      StarredEnds(anys[1..]);
    }
  }

  /** A pattern is something that ends in a star, and its last piece. */
  lemma PatternEnds(initial: bytes, anys: seq<bytes>) returns (front: bytes)
    ensures forall final :: Pattern(initial, anys, final) == front + [STAR] + final
  {
    var p := initial + [STAR] + Starred(anys);
    if anys != [] {
      StarredEnds(anys);
    }
    front := p[..|p| - 1];
    assert p == front + [STAR];
  }

  lemma NothingToTrim()
    ensures TrimRight([]) == []
  {
  }

  lemma LeafIsTrimmed(l: Leaf)
    ensures TrimSpace(LeafText(l)) == LeafText(Trimmed(l))
  {
    hide TrimSpace, TrimLeft, TrimRight, Pattern;
    match l
    case Equality(attr, value) =>
      TrimmedOnce(attr, value);
      assert LeafText(l) == attr + ([EQUALS] + value);
      assert LeafText(Trimmed(l)) == TrimLeft(attr) + ([EQUALS] + TrimRight(value));
    case Present(attr) =>
      NothingToTrim();
      TrimmedAround(attr, [], STAR, []);
      assert LeafText(l) == attr + ([EQUALS] + [] + [STAR] + []);
      assert LeafText(Trimmed(l)) == TrimLeft(attr) + ([EQUALS] + [] + [STAR] + []);
    case Substring(attr, initial, anys, final) =>
      var front := PatternEnds(initial, anys);
      TrimmedAround(attr, front, STAR, final);
      LeafTextEnds(attr, initial, anys, final, front);
      LeafTextEnds(TrimLeft(attr), initial, anys, TrimRight(final), front);
  }

  lemma LeafTextEnds(attr: bytes, initial: bytes, anys: seq<bytes>, final: bytes, front: bytes)
    requires Pattern(initial, anys, final) == front + [STAR] + final
    ensures LeafText(Substring(attr, initial, anys, final)) == attr + ([EQUALS] + front + [STAR] + final)
  {
  }

  lemma {:induction false} TrimLeftKeepsMembers(s: bytes)
    ensures forall b :: b in TrimLeft(s) ==> b in s
    decreases |s|
  {
    if StartsWithSpace(s, 1) {
      TrimLeftKeepsMembers(s[1..]);
    } else if StartsWithSpace(s, 2) {
      TrimLeftKeepsMembers(s[2..]);
    } else if StartsWithSpace(s, 3) {
      TrimLeftKeepsMembers(s[3..]);
    }
  }

  lemma {:induction false} TrimRightKeepsMembers(s: bytes)
    ensures forall b :: b in TrimRight(s) ==> b in s
    decreases |s|
  {
    if EndsWithSpace(s, 1) {
      TrimRightKeepsMembers(s[..|s| - 1]);
    } else if EndsWithSpace(s, 2) {
      TrimRightKeepsMembers(s[..|s| - 2]);
    } else if EndsWithSpace(s, 3) {
      TrimRightKeepsMembers(s[..|s| - 3]);
    }
  }

  lemma TrimmedIsWellFormed(l: Leaf)
    requires LeafIsWellFormed(l)
    ensures LeafIsWellFormed(Trimmed(l))
  {
    TrimLeftKeepsMembers(l.attr);
    match l
    case Equality(_, value) => TrimRightKeepsMembers(value);
    case Present(_) =>
    case Substring(_, _, _, final) => TrimRightKeepsMembers(final);
  }

  /** A leaf without its parentheses is compiled like the trimmed leaf. */
  lemma NakedIsCompiled(l: Leaf)
    requires LeafIsWellFormed(l)
    ensures CompiledFilter(LeafText(l)) == LeafEncoding(Trimmed(l))
  {
    LeafIsTrimmed(l);
    TrimmedIsWellFormed(l);
    LeafIsClean(Trimmed(l));
    LeafIsCompiled(Trimmed(l));
    var t := LeafText(Trimmed(l));
    assert t != [] && t[0] in t;
  }
}
