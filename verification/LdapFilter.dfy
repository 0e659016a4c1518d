/** The search filter compiler, on the bytes of the filter string. */
module LdapFilter {
  import opened Ber

  // encodeLDAPFilter and its helpers (internal/auth/ldap.go).

  const LPAREN: byte := 0x28
  const RPAREN: byte := 0x29
  const STAR: byte := 0x2a
  const EQUALS: byte := 0x3d
  const AND: byte := 0x26
  const OR: byte := 0x7c
  const NOT: byte := 0x21

  const OBJECT_CLASS: bytes := [0x6f, 0x62, 0x6a, 0x65, 0x63, 0x74, 0x43, 0x6c, 0x61, 0x73, 0x73]

  // ---------- strings.TrimSpace on UTF-8 ----------

  predicate IsAsciiSpace(b: byte) {
    9 <= b <= 13 || b == 32
  }

  /** The UTF-8 encoding of one code point with the White_Space property. */
  predicate IsSpaceRune(s: bytes) {
    if |s| == 1 then IsAsciiSpace(s[0])
    else if |s| == 2 then s[0] == 0xc2 && (s[1] == 0x85 || s[1] == 0xa0)
    else if |s| == 3 then
      || s == [0xe1, 0x9a, 0x80]
      || (s[0] == 0xe2 && s[1] == 0x80 && (0x80 <= s[2] <= 0x8a || s[2] == 0xa8 || s[2] == 0xa9 || s[2] == 0xaf))
      || s == [0xe2, 0x81, 0x9f]
      || s == [0xe3, 0x80, 0x80]
    else false
  }

  predicate StartsWithSpace(s: bytes, w: nat) {
    w <= |s| && IsSpaceRune(s[..w])
  }

  predicate EndsWithSpace(s: bytes, w: nat) {
    w <= |s| && IsSpaceRune(s[|s| - w..])
  }

  function TrimLeft(s: bytes): (r: bytes)
    ensures |r| <= |s|
  {
    if StartsWithSpace(s, 1) then TrimLeft(s[1..])
    else if StartsWithSpace(s, 2) then TrimLeft(s[2..])
    else if StartsWithSpace(s, 3) then TrimLeft(s[3..])
    else s
  }

  function TrimRight(s: bytes): (r: bytes)
    ensures |r| <= |s|
  {
    if EndsWithSpace(s, 1) then TrimRight(s[..|s| - 1])
    else if EndsWithSpace(s, 2) then TrimRight(s[..|s| - 2])
    else if EndsWithSpace(s, 3) then TrimRight(s[..|s| - 3])
    else s
  }

  function TrimSpace(s: bytes): (r: bytes)
    ensures |r| <= |s|
  {
    TrimRight(TrimLeft(s))
  }

  lemma TrimLeftStep(s: bytes)
    ensures TrimLeft(s)
         == if StartsWithSpace(s, 1) then TrimLeft(s[1..])
            else if StartsWithSpace(s, 2) then TrimLeft(s[2..])
            else if StartsWithSpace(s, 3) then TrimLeft(s[3..])
            else s
  {
    hide IsSpaceRune;
  }

  lemma TrimRightStep(s: bytes)
    ensures TrimRight(s)
         == if EndsWithSpace(s, 1) then TrimRight(s[..|s| - 1])
            else if EndsWithSpace(s, 2) then TrimRight(s[..|s| - 2])
            else if EndsWithSpace(s, 3) then TrimRight(s[..|s| - 3])
            else s
  {
    hide IsSpaceRune;
  }

  // ---------- what the compiler computes ----------

  /** The length of the prefix of s that closes its parentheses, from depth already open; 0 when it never does. */
  function Closing(s: bytes, depth: int): (n: nat)
    ensures n <= |s|
  {
    if s == [] then 0
    else if s[0] == RPAREN && depth == 1 then 1
    else
      var d := if s[0] == LPAREN then depth + 1 else if s[0] == RPAREN then depth - 1 else depth;
      var n := Closing(s[1..], d);
      if n == 0 then 0 else n + 1
  }

  /** The index of the first b in s, or |s|. */
  function IndexOf(s: bytes, b: byte): (n: nat)
    ensures n <= |s|
    ensures n < |s| ==> s[n] == b
    ensures b !in s[..n]
  {
    if s == [] || s[0] == b then 0 else 1 + IndexOf(s[1..], b)
  }

  /** strings.Split(s, "*") */
  function SplitAtStars(s: bytes): (parts: seq<bytes>)
    ensures parts != []
    decreases |s|
  {
    var n := IndexOf(s, STAR);
    if n == |s| then [s] else [s[..n]] + SplitAtStars(s[n + 1..])
  }

  /** initial [0], any [1] or final [2] */
  function PartTag(i: nat, count: nat): byte {
    if i == 0 then 0x80 else if i == count - 1 then 0x82 else 0x81
  }

  function Part(part: bytes, i: nat, count: nat): bytes {
    if part == [] then [] else Tlv(PartTag(i, count), part)
  }

  /** The parts at the front of a list of count parts. */
  ghost function Parts(parts: seq<bytes>, count: nat): bytes {
    if parts == [] then [] else Parts(parts[..|parts| - 1], count) + Part(parts[|parts| - 1], |parts| - 1, count)
  }

  ghost function SubstringFilter(attr: bytes, parts: seq<bytes>): bytes {
    Tlv(0xa4, OctetString(attr) + Sequence(Parts(parts, |parts|)))
  }

  ghost function LeafFilter(s: bytes): bytes {
    var eq := IndexOf(s, EQUALS);
    if eq == |s| then Tlv(0x87, s)
    else
      var attr, value := s[..eq], s[eq + 1..];
      if value == [STAR] then Tlv(0x87, attr)
      else if STAR in value then SubstringFilter(attr, SplitAtStars(value))
      else Tlv(0xa3, OctetString(attr) + OctetString(value))
  }

  ghost function CompiledFilter(filter: bytes): bytes
    decreases |filter|, 0
  {
    var f := TrimSpace(filter);
    if f == [] then Tlv(0x87, OBJECT_CLASS)
    else if f[0] == LPAREN && f[|f| - 1] == RPAREN then CompiledInner(f[1..|f| - 1])
    else LeafFilter(f)
  }

  /** What stands between a filter's outer parentheses. */
  ghost function CompiledInner(inner: bytes): bytes
    decreases |inner|, 0
  {
    if inner == [] then LeafFilter(inner)
    else if inner[0] == AND then Tlv(0xa0, CompiledChildren(inner[1..]))
    else if inner[0] == OR then Tlv(0xa1, CompiledChildren(inner[1..]))
    else if inner[0] == NOT then Tlv(0xa2, CompiledFilter(inner[1..]))
    else LeafFilter(inner)
  }

  ghost function CompiledChildren(filters: bytes): bytes
    decreases |filters|, 1
  {
    var remaining := TrimSpace(filters);
    if remaining == [] || remaining[0] != LPAREN then []
    else
      var end := Closing(remaining, 0);
      if end == 0 then [] else CompiledFilter(remaining[..end]) + CompiledChildren(remaining[end..])
  }

  // ---------- the compiler ----------

  /** The paren scan of encodeLDAPCompoundFilter. Parentheses are single bytes in UTF-8, so runes and bytes agree. */
  method FindClosing(remaining: bytes) returns (end: nat)
    ensures end == Closing(remaining, 0)
  {
    var depth := 0;
    end := 0;
    for i := 0 to |remaining|
      invariant Closing(remaining, 0) == (var n := Closing(remaining[i..], depth); if n == 0 then 0 else i + n)
      invariant end == 0
    {
      if remaining[i] == LPAREN {
        depth := depth + 1;
      } else if remaining[i] == RPAREN {
        depth := depth - 1;
        if depth == 0 {
          end := i + 1;
          return;
        }
      }
    }
  }

  method EncodeSubstringFilter(attr: bytes, value: bytes) returns (r: bytes)
    ensures r == SubstringFilter(attr, SplitAtStars(value))
  {
    hide Tlv, SplitAtStars, PartTag;
    var parts := SplitAtStars(value);
    var substrings := [];
    for i := 0 to |parts|
      invariant substrings == Parts(parts[..i], |parts|)
    {
      assert parts[..i + 1][..i] == parts[..i];
      if parts[i] == [] {
        continue;
      }
      var part := BerEncode(PartTag(i, |parts|), parts[i]);
      substrings := substrings + part;
    }
    assert parts[..|parts|] == parts;
    var sequence := BerEncode(0x30, substrings);
    var name := BerEncode(0x04, attr);
    r := BerEncode(0xa4, name + sequence);
  }

  method EncodeLeaf(s: bytes) returns (r: bytes)
    ensures r == LeafFilter(s)
  {
    var eq := IndexOf(s, EQUALS);
    if eq == |s| {
      r := BerEncode(0x87, s);
      return;
    }
    var attr, value := s[..eq], s[eq + 1..];
    if value == [STAR] {
      r := BerEncode(0x87, attr);
    } else if STAR in value {
      r := EncodeSubstringFilter(attr, value);
    } else {
      var name := BerEncode(0x04, attr);
      var assertion := BerEncode(0x04, value);
      r := BerEncode(0xa3, name + assertion);
    }
  }

  method EncodeFilter(filter: bytes) returns (r: bytes)
    ensures r == CompiledFilter(filter)
    decreases |filter|, 0
  {
    var f := TrimSpace(filter);
    if f == [] {
      r := BerEncode(0x87, OBJECT_CLASS);
      return;
    }
    if f[0] == LPAREN && f[|f| - 1] == RPAREN {
      r := EncodeInner(f[1..|f| - 1]);
    } else {
      r := EncodeLeaf(f);
    }
  }

  method EncodeInner(inner: bytes) returns (r: bytes)
    ensures r == CompiledInner(inner)
    decreases |inner|, 0
  {
    if inner != [] && inner[0] == AND {
      r := EncodeCompoundFilter(0, inner[1..]);
    } else if inner != [] && inner[0] == OR {
      r := EncodeCompoundFilter(1, inner[1..]);
    } else if inner != [] && inner[0] == NOT {
      var child := EncodeFilter(inner[1..]);
      r := BerEncode(0xa2, child);
    } else {
      r := EncodeLeaf(inner);
    }
  }

  method EncodeCompoundFilter(tag: byte, filters: bytes) returns (r: bytes)
    requires tag < 0x20
    ensures r == Tlv(0xa0 + tag, CompiledChildren(filters))
    decreases |filters|, 1
  {
    var children := [];
    var remaining := TrimSpace(filters);
    ghost var left := filters;
    while |remaining| > 0
      invariant remaining == TrimSpace(left) && |left| <= |filters|
      invariant CompiledChildren(filters) == children + CompiledChildren(left)
      decreases |remaining|
    {
      if remaining[0] != LPAREN {
        break;
      }
      var end := FindClosing(remaining);
      if end == 0 {
        break;
      }
      var child := EncodeFilter(remaining[..end]);
      children := children + child;
      left := remaining[end..];
      remaining := TrimSpace(remaining[end..]);
    }
    r := BerEncode(0xa0 + tag, children);
  }
}
