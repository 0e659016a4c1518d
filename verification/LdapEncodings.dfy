/**
 * What a compiled filter says: an encoding determines its tree up to the way it was written, that is up to blanks
 * between children, empty pieces between stars, and the two ways to write presence. The proof reads elements from the
 * front: a tag, a length that cannot be read in two ways, and as many content bytes as the length says.
 */
module LdapEncodings {
  import opened Ber
  import opened LdapFilterTrees

  // ---------- one element ----------

  lemma Tails(a: bytes, x: bytes, b: bytes, y: bytes)
    requires a + x == b + y && |a| == |b|
    ensures a == b && x == y
  {
    assert a == (a + x)[..|a|] && b == (b + y)[..|b|];
    assert x == (a + x)[|a|..] && y == (b + y)[|b|..];
  }

  lemma LengthPrefix(m: nat, n: nat, x: bytes, y: bytes)
    requires m <= MAX_INT && n <= MAX_INT
    requires LengthOctets(m) + x == LengthOctets(n) + y
    ensures m == n && x == y
  {
    var a, b := LengthOctets(m), LengthOctets(n);
    OctetCount(m);
    OctetCount(n);
    assert a[0] == (a + x)[0] && b[0] == (b + y)[0];
    Tails(a, x, b, y);
    if m >= 0x80 {
      assert a[1..] == BigEndian(m) && b[1..] == BigEndian(n);
      ValueOfBigEndian(m);
      ValueOfBigEndian(n);
    }
  }

  lemma TlvPrefix(t: byte, c: bytes, u: byte, d: bytes, x: bytes, y: bytes)
    requires |c| <= MAX_INT && |d| <= MAX_INT
    requires Tlv(t, c) + x == Tlv(u, d) + y
    ensures t == u && c == d && x == y
  {
    hide LengthOctets;
    var a, b := LengthOctets(|c|), LengthOctets(|d|);
    assert Tlv(t, c) + x == [t] + (a + (c + x)) && Tlv(u, d) + y == [u] + (b + (d + y));
    Tails([t], a + (c + x), [u], b + (d + y));
    LengthPrefix(|c|, |d|, c + x, d + y);
    Tails(c, x, d, y);
  }

  // ---------- the pieces of a pattern ----------

  /** Empty pieces between stars leave no trace. */
  ghost function Kept(anys: seq<bytes>): seq<bytes> {
    if anys == [] then [] else (if anys[0] != [] then [anys[0]] else []) + Kept(anys[1..])
  }

  ghost function Run(pieces: seq<bytes>): bytes {
    if pieces == [] then [] else Tlv(0x81, pieces[0]) + Run(pieces[1..])
  }

  lemma {:induction false} AnyPartsFront(anys: seq<bytes>)
    requires anys != []
    ensures AnyParts(anys) == Piece(0x81, anys[0]) + AnyParts(anys[1..])
  {
    hide Piece;
    var n := |anys| - 1;
    if n > 0 {
      AnyPartsFront(anys[..n]);
      assert anys[1..][..n - 1] == anys[..n][1..];
    }
  }

  lemma {:induction false} AnyPartsAreKept(anys: seq<bytes>)
    ensures AnyParts(anys) == Run(Kept(anys)) && forall i :: 0 <= i < |Kept(anys)| ==> Kept(anys)[i] != []
  {
    if anys != [] {
      AnyPartsFront(anys);
      AnyPartsAreKept(anys[1..]);
      var rest := Kept(anys[1..]);
      if anys[0] != [] {
        assert Kept(anys) == [anys[0]] + rest && Kept(anys)[1..] == rest;
      } else {
        assert Kept(anys) == rest && Piece(0x81, anys[0]) + AnyParts(anys[1..]) == AnyParts(anys[1..]);
      }
    }
  }

  ghost function Rest(pieces: seq<bytes>, final: bytes): bytes {
    Run(pieces) + Piece(0x82, final)
  }

  lemma RestStep(pieces: seq<bytes>, final: bytes)
    requires pieces != []
    ensures Rest(pieces, final) == Tlv(0x81, pieces[0]) + Rest(pieces[1..], final)
  {
  }

  lemma RestStarts(pieces: seq<bytes>, final: bytes)
    ensures Rest(pieces, final) == [] <==> pieces == [] && final == []
    ensures Rest(pieces, final) != [] ==> Rest(pieces, final)[0] == if pieces != [] then 0x81 else 0x82
  {
  }

  lemma {:induction false} RestIsUnique(p: seq<bytes>, e: bytes, q: seq<bytes>, f: bytes)
    requires Rest(p, e) == Rest(q, f) && |Rest(p, e)| <= MAX_INT
    ensures p == q && e == f
  {
    hide Tlv;
    RestStarts(p, e);
    RestStarts(q, f);
    if p != [] && q != [] {
      RestStep(p, e);
      RestStep(q, f);
      TlvFits(0x81, p[0]);
      TlvFits(0x81, q[0]);
      TlvPrefix(0x81, p[0], 0x81, q[0], Rest(p[1..], e), Rest(q[1..], f));
      RestIsUnique(p[1..], e, q[1..], f);
      assert p == [p[0]] + p[1..] && q == [q[0]] + q[1..];
    } else if p == [] && q == [] {
      assert Run(p) == [] && Rest(p, e) == Piece(0x82, e) && Rest(q, f) == Piece(0x82, f);
      if e != [] {
        TlvFits(0x82, e);
        TlvFits(0x82, f);
        assert Tlv(0x82, e) + [] == Tlv(0x82, f) + [];
        TlvPrefix(0x82, e, 0x82, f, [], []);
      }
    }
  }

  lemma TlvFits(tag: byte, content: bytes)
    ensures |content| + 2 <= |Tlv(tag, content)| && Tlv(tag, content)[0] == tag
  {
  }

  lemma PiecesSplit(i: bytes, m: seq<bytes>, l: bytes)
    ensures Pieces(i, m, l) == Piece(0x80, i) + Rest(Kept(m), l)
  {
    AnyPartsAreKept(m);
  }

  /** Whether there is an initial piece shows in the first byte. */
  lemma InitialIsUnique(i: bytes, r: bytes, j: bytes, r': bytes)
    requires |i| <= MAX_INT && |j| <= MAX_INT && Piece(0x80, i) + r == Piece(0x80, j) + r'
    requires (r != [] ==> r[0] != 0x80) && (r' != [] ==> r'[0] != 0x80)
    ensures i == j && r == r'
  {
    hide Tlv;
    TlvFits(0x80, i);
    TlvFits(0x80, j);
    assert i == [] ==> Piece(0x80, i) + r == r;
    assert j == [] ==> Piece(0x80, j) + r' == r';
    assert i != [] ==> (Piece(0x80, i) + r)[0] == 0x80;
    assert j != [] ==> (Piece(0x80, j) + r')[0] == 0x80;
    if i != [] && j != [] {
      TlvPrefix(0x80, i, 0x80, j, r, r');
    }
  }

  lemma {:induction false} PiecesAreUnique(
    i: bytes, m: seq<bytes>, l: bytes, j: bytes, n: seq<bytes>, k: bytes)
    requires Pieces(i, m, l) == Pieces(j, n, k) && |Pieces(i, m, l)| <= MAX_INT
    ensures i == j && Kept(m) == Kept(n) && l == k
  {
    hide Rest, Kept, Pieces, Tlv;
    PiecesSplit(i, m, l);
    PiecesSplit(j, n, k);
    RestStarts(Kept(m), l);
    RestStarts(Kept(n), k);
    TlvFits(0x80, i);
    TlvFits(0x80, j);
    InitialIsUnique(i, Rest(Kept(m), l), j, Rest(Kept(n), k));
    RestIsUnique(Kept(m), l, Kept(n), k);
  }

  // ---------- trees ----------

  predicate IsLeaf(f: Filter) {
    f.Single? || f.Naked?
  }

  /** The leaf that is sent. */
  function Plain(f: Filter): Leaf
    requires IsLeaf(f)
  {
    if f.Naked? then Trimmed(f.leaf) else f.leaf
  }

  /** Equal trees up to parentheses and blanks, empty middle pieces, and the two ways to write presence. */
  ghost predicate Same(f: Filter, g: Filter) {
    match (f, g)
    case (All(cs, _, _), All(ds, _, _)) => AllSame(cs, ds)
    case (Any(cs, _, _), Any(ds, _, _)) => AllSame(cs, ds)
    case (Negated(_, c, _), Negated(_, d, _)) => Same(c, d)
    case _ => IsLeaf(f) && IsLeaf(g) && SameLeaf(Plain(f), Plain(g))
  }

  ghost predicate SameLeaf(f: Leaf, g: Leaf) {
    match (f, g)
    case (Equality(a, v), Equality(b, w)) => a == b && v == w
    case (Present(a), Present(b)) => a == b
    case (Present(a), Substring(b, j, n, k)) => a == b && IsStar(j, n, k)
    case (Substring(a, i, m, l), Present(b)) => a == b && IsStar(i, m, l)
    case (Substring(a, i, m, l), Substring(b, j, n, k)) =>
      a == b && (IsStar(i, m, l) <==> IsStar(j, n, k)) && i == j && Kept(m) == Kept(n) && l == k
    case _ => false
  }

  ghost predicate AllSame(cs: seq<Filter>, ds: seq<Filter>) {
    |cs| == |ds| && (cs == [] || (Same(cs[0], ds[0]) && AllSame(cs[1..], ds[1..])))
  }

  function LeafTag(l: Leaf): byte {
    match l
    case Equality(_, _) => 0xa3
    case Present(_) => 0x87
    case Substring(_, i, m, l) => if IsStar(i, m, l) then 0x87 else 0xa4
  }

  ghost function LeafContent(l: Leaf): bytes {
    match l
    case Equality(attr, value) => OctetString(attr) + OctetString(value)
    case Present(attr) => attr
    case Substring(attr, i, m, l) =>
      if IsStar(i, m, l) then attr else OctetString(attr) + Sequence(Pieces(i, m, l))
  }

  function Tag(f: Filter): byte {
    match f
    case All(_, _, _) => 0xa0
    case Any(_, _, _) => 0xa1
    case Negated(_, _, _) => 0xa2
    case Single(_) => LeafTag(Plain(f))
    case Naked(_) => LeafTag(Plain(f))
  }

  ghost function Content(f: Filter): bytes {
    match f
    case All(cs, _, _) => Encodings(cs)
    case Any(cs, _, _) => Encodings(cs)
    case Negated(_, c, _) => Encoding(c)
    case Single(_) => LeafContent(Plain(f))
    case Naked(_) => LeafContent(Plain(f))
  }

  lemma EncodingIsTlv(f: Filter)
    ensures Encoding(f) == Tlv(Tag(f), Content(f)) && |Content(f)| + 2 <= |Encoding(f)|
  {
  }

  lemma TwoElements(c: bytes, e: bytes, d: bytes, e': bytes, u: byte)
    requires OctetString(c) + Tlv(u, e) == OctetString(d) + Tlv(u, e')
    requires |OctetString(c) + Tlv(u, e)| <= MAX_INT
    ensures c == d && e == e'
  {
    hide Tlv;
    TlvFits(0x04, c);
    TlvFits(0x04, d);
    TlvFits(u, e);
    TlvFits(u, e');
    TlvPrefix(0x04, c, 0x04, d, Tlv(u, e), Tlv(u, e'));
    assert Tlv(u, e) + [] == Tlv(u, e') + [];
    TlvPrefix(u, e, u, e', [], []);
  }

  lemma {:induction false} EncodingPrefix(f: Filter, g: Filter, x: bytes, y: bytes)
    requires Encoding(f) + x == Encoding(g) + y
    requires |Encoding(f)| <= MAX_INT && |Encoding(g)| <= MAX_INT
    ensures Same(f, g) && x == y
    decreases f, 1
  {
    hide Tlv, Encoding, Tag, Content;
    EncodingIsTlv(f);
    EncodingIsTlv(g);
    TlvPrefix(Tag(f), Content(f), Tag(g), Content(g), x, y);
    ContentIsUnique(f, g);
  }

  lemma {:induction false} ContentIsUnique(f: Filter, g: Filter)
    requires Tag(f) == Tag(g) && Content(f) == Content(g) && |Content(f)| <= MAX_INT
    ensures Same(f, g)
    decreases f, 0
  {
    hide LeafContent, SameLeaf, Plain;
    if IsLeaf(f) && IsLeaf(g) {
      LeafContentIsUnique(Plain(f), Plain(g));
      return;
    }
    match (f, g)
    case (All(cs, _, _), All(ds, _, _)) => EncodingsAreUnique(cs, ds);
    case (Any(cs, _, _), Any(ds, _, _)) => EncodingsAreUnique(cs, ds);
    case (Negated(_, c, _), Negated(_, d, _)) => EncodingPrefix(c, d, [], []);
    case _ =>
  }

  lemma LeafContentIsUnique(f: Leaf, g: Leaf)
    requires LeafTag(f) == LeafTag(g) && LeafContent(f) == LeafContent(g) && |LeafContent(f)| <= MAX_INT
    ensures SameLeaf(f, g)
  {
    hide Tlv, Pieces, Kept;
    match (f, g)
    case (Equality(a, v), Equality(b, w)) => TwoElements(a, v, b, w, 0x04);
    case (Substring(a, i, m, l), Substring(b, j, n, k)) =>
      if !IsStar(i, m, l) {
        TwoElements(a, Pieces(i, m, l), b, Pieces(j, n, k), 0x30);
        TlvFits(0x30, Pieces(i, m, l));
        PiecesAreUnique(i, m, l, j, n, k);
      }
    case _ =>
  }

  lemma {:induction false} EncodingsAreUnique(cs: seq<Filter>, ds: seq<Filter>)
    requires Encodings(cs) == Encodings(ds) && |Encodings(cs)| <= MAX_INT
    ensures AllSame(cs, ds)
    decreases cs
  {
    hide Encoding;
    if cs != [] && ds != [] {
      EncodingPrefix(cs[0], ds[0], Encodings(cs[1..]), Encodings(ds[1..]));
      EncodingsAreUnique(cs[1..], ds[1..]);
    } else if cs != [] {
      EncodingIsTlv(cs[0]);
    } else if ds != [] {
      EncodingIsTlv(ds[0]);
    }
  }

  lemma SameLeafEncoding(f: Leaf, g: Leaf)
    requires SameLeaf(f, g)
    ensures LeafEncoding(f) == LeafEncoding(g)
  {
    hide Tlv, Kept;
    if f.Substring? && g.Substring? {
      AnyPartsAreKept(f.anys);
      AnyPartsAreKept(g.anys);
    }
  }

  lemma {:induction false} SameEncoding(f: Filter, g: Filter)
    requires Same(f, g)
    ensures Encoding(f) == Encoding(g)
    decreases f
  {
    hide Tlv, SameLeaf, LeafEncoding;
    if IsLeaf(f) && IsLeaf(g) {
      SameLeafEncoding(Plain(f), Plain(g));
      return;
    }
    match (f, g)
    case (All(cs, _, _), All(ds, _, _)) => SameEncodings(cs, ds);
    case (Any(cs, _, _), Any(ds, _, _)) => SameEncodings(cs, ds);
    case (Negated(_, c, _), Negated(_, d, _)) => SameEncoding(c, d);
    case _ =>
  }

  lemma {:induction false} SameEncodings(cs: seq<Filter>, ds: seq<Filter>)
    requires AllSame(cs, ds)
    ensures Encodings(cs) == Encodings(ds)
    decreases cs
  {
    if cs != [] {
      SameEncoding(cs[0], ds[0]);
      SameEncodings(cs[1..], ds[1..]);
    }
  }

  /** Two filters have the same encoding exactly when they are the same but for the way they are written. */
  lemma EncodingIsUnique(f: Filter, g: Filter)
    requires |Encoding(f)| <= MAX_INT && |Encoding(g)| <= MAX_INT
    ensures Encoding(f) == Encoding(g) <==> Same(f, g)
  {
    if Encoding(f) == Encoding(g) {
      EncodingPrefix(f, g, [], []);
    }
    if Same(f, g) {
      SameEncoding(f, g);
    }
  }
}
