/** Escaping of usernames (internal/auth/ldap.go), and its inverse. */
module LdapEscape {
  import opened Ber
  import opened LdapFilter

  // ldapEscapeFilter; the inverse is that of section 3 of RFC 4515 (valueencoding).

  const BACKSLASH: byte := 0x5c

  /** The UTF-8 encoding of U+FFFD, which Go substitutes for a byte that starts no valid rune. */
  const REPLACEMENT: bytes := [0xef, 0xbf, 0xbd]

  predicate IsContinuation(b: byte) {
    0x80 <= b <= 0xbf
  }

  /** The width of the rune at the front of s, as utf8.DecodeRune finds it; 0 when the encoding is invalid. */
  function RuneWidth(s: bytes): (w: nat)
    requires s != []
    ensures w <= |s|
  {
    if s[0] < 0x80 then 1
    else if 0xc2 <= s[0] <= 0xdf then
      if |s| >= 2 && IsContinuation(s[1]) then 2 else 0
    else if 0xe0 <= s[0] <= 0xef then
      if |s| >= 3 && IsContinuation(s[1]) && IsContinuation(s[2])
         && (s[0] == 0xe0 ==> s[1] >= 0xa0) && (s[0] == 0xed ==> s[1] <= 0x9f) then 3 else 0
    else if 0xf0 <= s[0] <= 0xf4 then
      if |s| >= 4 && IsContinuation(s[1]) && IsContinuation(s[2]) && IsContinuation(s[3])
         && (s[0] == 0xf0 ==> s[1] >= 0x90) && (s[0] == 0xf4 ==> s[1] <= 0x8f) then 4 else 0
    else 0
  }

  predicate IsSpecial(b: byte) {
    b == BACKSLASH || b == STAR || b == LPAREN || b == RPAREN || b == 0
  }

  function HexDigit(n: nat): byte
    requires n < 16
  {
    if n < 10 then 0x30 + n else 0x61 + (n - 10)
  }

  /** The text written for one rune of the input: \5c, \2a, \28, \29, \00, or the rune itself. */
  function EscapedRune(rune: bytes): bytes {
    if |rune| == 1 && IsSpecial(rune[0])
    then [BACKSLASH, HexDigit(rune[0] / 16), HexDigit(rune[0] % 16)] else rune
  }

  /** The first rune of s as range decodes it. */
  function FirstRune(s: bytes): bytes
    requires s != []
  {
    if RuneWidth(s) == 0 then REPLACEMENT else s[..RuneWidth(s)]
  }

  function Step(s: bytes): (n: nat)
    requires s != []
    ensures 1 <= n <= |s|
  {
    if RuneWidth(s) == 0 then 1 else RuneWidth(s)
  }

  ghost function Escaped(s: bytes): bytes {
    if s == [] then [] else EscapedRune(FirstRune(s)) + Escaped(s[Step(s)..])
  }

  method EscapeFilter(s: bytes) returns (r: bytes)
    ensures r == Escaped(s)
  {
    hide EscapedRune, FirstRune, Step;
    r := [];
    var left := s;
    while left != []
      invariant Escaped(s) == r + Escaped(left)
      decreases |left|
    {
      r := r + EscapedRune(FirstRune(left));
      left := left[Step(left)..];
    }
  }

  // ---------- unescaping gives the username back ----------

  function FromHex(b: byte): Option<nat> {
    if 0x30 <= b <= 0x39 then Some(b - 0x30)
    else if 0x61 <= b <= 0x66 then Some(b - 0x61 + 10)
    else if 0x41 <= b <= 0x46 then Some(b - 0x41 + 10)
    else None
  }

  /** A backslash and two hex digits stand for one byte; every other byte for itself. */
  ghost function Unescaped(s: bytes): bytes {
    if s == [] then []
    else if s[0] == BACKSLASH && |s| >= 3 && FromHex(s[1]).Some? && FromHex(s[2]).Some?
    then [(FromHex(s[1]).value * 16 + FromHex(s[2]).value) % 256] + Unescaped(s[3..])
    else [s[0]] + Unescaped(s[1..])
  }

  ghost predicate ValidUtf8(s: bytes) {
    s == [] || (RuneWidth(s) > 0 && ValidUtf8(s[Step(s)..]))
  }

  /** s with each invalid byte replaced by U+FFFD. */
  ghost function Sanitized(s: bytes): bytes {
    if s == [] then [] else FirstRune(s) + Sanitized(s[Step(s)..])
  }

  lemma {:induction false} UnescapedPlain(a: bytes, rest: bytes)
    requires BACKSLASH !in a
    ensures Unescaped(a + rest) == a + Unescaped(rest)
  {
    if a == [] {
      assert a + rest == rest;
    } else {
      UnescapedPlain(a[1..], rest);
      assert a[0] != BACKSLASH;
      assert a + rest == [a[0]] + (a[1..] + rest) && ([a[0]] + (a[1..] + rest))[1..] == a[1..] + rest;
      assert [a[0]] + (a[1..] + Unescaped(rest)) == a + Unescaped(rest);
    }
  }

  lemma UnescapedRune(rune: bytes, rest: bytes)
    requires |rune| == 1 || BACKSLASH !in rune
    ensures Unescaped(EscapedRune(rune) + rest) == rune + Unescaped(rest)
  {
    if |rune| == 1 && IsSpecial(rune[0]) {
      var e := EscapedRune(rune);
      assert (e + rest)[3..] == rest;
      assert FromHex(HexDigit(rune[0] / 16)) == Some(rune[0] / 16);
      assert FromHex(HexDigit(rune[0] % 16)) == Some(rune[0] % 16);
    } else {
      UnescapedPlain(rune, rest);
    }
  }

  lemma FirstRuneIsPlain(s: bytes)
    requires s != []
    ensures |FirstRune(s)| == 1 || (forall b :: b in FirstRune(s) ==> b >= 0x80)
    ensures RuneWidth(s) == 0 ==> |FirstRune(s)| == 3
  {
  }

  lemma {:induction false} UnescapeInvertsEscape(s: bytes)
    ensures Unescaped(Escaped(s)) == Sanitized(s)
    decreases |s|
  {
    if s != [] {
      FirstRuneIsPlain(s);
      UnescapedRune(FirstRune(s), Escaped(s[Step(s)..]));
      UnescapeInvertsEscape(s[Step(s)..]);
    }
  }

  lemma FirstRuneLength(s: bytes)
    requires s != []
    ensures |FirstRune(s)| >= Step(s)
    ensures |FirstRune(s)| == Step(s) <==> RuneWidth(s) > 0
    ensures RuneWidth(s) > 0 ==> FirstRune(s) == s[..Step(s)]
  {
  }

  lemma {:induction false} SanitizedLength(s: bytes)
    ensures |Sanitized(s)| >= |s|
    ensures |Sanitized(s)| == |s| <==> ValidUtf8(s)
    decreases |s|
  {
    if s != [] {
      SanitizedLength(s[Step(s)..]);
      FirstRuneLength(s);
    }
  }

  lemma {:induction false} ValidIsSane(s: bytes)
    requires ValidUtf8(s)
    ensures Sanitized(s) == s
    decreases |s|
  {
    if s != [] {
      ValidIsSane(s[Step(s)..]);
      FirstRuneLength(s);
      assert s == s[..Step(s)] + s[Step(s)..];
    }
  }

  /** Unescaping an escaped username gives it back exactly when it is valid UTF-8. */
  lemma EscapeRoundTrip(s: bytes)
    ensures Unescaped(Escaped(s)) == s <==> ValidUtf8(s)
  {
    UnescapeInvertsEscape(s);
    SanitizedLength(s);
    if ValidUtf8(s) {
      ValidIsSane(s);
    }
  }

  // ---------- escaped text is inert ----------

  lemma {:induction false} EscapedIsInert(s: bytes)
    ensures forall b :: b in Escaped(s) ==> b != STAR && b != LPAREN && b != RPAREN && b != 0
    ensures s != [] ==> Escaped(s) != []
    decreases |s|
  {
    if s != [] {
      FirstRuneIsPlain(s);
      EscapedIsInert(s[Step(s)..]);
    }
  }

  lemma {:induction false} EscapedLength(s: bytes)
    ensures |Escaped(s)| >= |s|
    ensures |Escaped(s)| == |s| <==> ValidUtf8(s) && forall b :: b in s ==> !IsSpecial(b)
    decreases |s|
  {
    if s != [] {
      EscapedLength(s[Step(s)..]);
      FirstRuneIsPlain(s);
      assert s == s[..Step(s)] + s[Step(s)..];
    }
  }

  lemma {:induction false} NothingToEscape(s: bytes)
    requires ValidUtf8(s) && forall b :: b in s ==> !IsSpecial(b)
    ensures Escaped(s) == s
    decreases |s|
  {
    if s != [] {
      NothingToEscape(s[Step(s)..]);
      assert s[0] in s;
    }
  }

  /**
   * The compiler sends filter values as they are written, without unescaping: the directory is asked
   * for the username itself exactly when it is valid UTF-8 without special characters.
   */
  lemma SentAsTyped(s: bytes)
    ensures Escaped(s) == s <==> ValidUtf8(s) && forall b :: b in s ==> !IsSpecial(b)
  {
    EscapedLength(s);
    if ValidUtf8(s) && forall b :: b in s ==> !IsSpecial(b) {
      NothingToEscape(s);
    }
  }
}
