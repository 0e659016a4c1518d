/**
 * White space and templates (internal/auth/ldap.go:739): when trimming removes all of a filled text. Blanks are runs of
 * encoded code points with the White_Space property; escaping keeps them, and since an escaped username is valid UTF-8
 * no blank straddles the end of a hole.
 */
module LdapBlanks {
  import opened Ber
  import opened LdapFilter
  import opened LdapEscape
  import opened LdapFilling

  const SPACE: bytes := [0x20]

  /** strings.TrimSpace leaves nothing of the text. */
  predicate WhiteSpace(s: bytes) {
    TrimLeft(s) == []
  }

  // ---------- from either end ----------

  lemma SpaceBytes(rune: bytes)
    requires IsSpaceRune(rune)
    ensures 1 <= |rune| <= 3 && !IsContinuation(rune[0])
    ensures forall i :: 0 < i < |rune| ==> IsContinuation(rune[i])
    ensures |rune| == 1 <==> rune[0] < 0x80
    ensures |rune| == 2 ==> rune[0] == 0xc2
    ensures |rune| == 3 ==> 0xe1 <= rune[0] <= 0xe3
  {
  }

  lemma {:induction false} FrontStep(s: bytes, w: nat)
    requires 1 <= w <= 3 && StartsWithSpace(s, w)
    ensures TrimLeft(s) == TrimLeft(s[w..])
  {
    hide IsSpaceRune;
    SpaceBytes(s[..w]);
    forall v | 1 <= v < w ensures !StartsWithSpace(s, v) {
      if StartsWithSpace(s, v) {
        SpaceBytes(s[..v]);
      }
    }
  }

  lemma NoShorterEnd(s: bytes, w: nat, v: nat)
    requires 1 <= v < w <= 3 && EndsWithSpace(s, w)
    ensures !EndsWithSpace(s, v)
  {
    hide IsSpaceRune;
    var n := |s|;
    SpaceBytes(s[n - w..]);
    assert s[n - v] == s[n - w..][w - v];
    if EndsWithSpace(s, v) {
      SpaceBytes(s[n - v..]);
    }
  }

  lemma {:induction false} BackStep(s: bytes, w: nat)
    requires 1 <= w <= 3 && EndsWithSpace(s, w)
    ensures TrimRight(s) == TrimRight(s[..|s| - w])
  {
    hide IsSpaceRune, TrimRight;
    TrimRightStep(s);
    if w > 1 {
      NoShorterEnd(s, w, 1);
    }
    if w > 2 {
      NoShorterEnd(s, w, 2);
    }
  }

  /** A text that is all blanks starts, and ends, with one. */
  lemma FirstOfBlanks(s: bytes) returns (w: nat)
    requires s != [] && WhiteSpace(s)
    ensures 1 <= w <= 3 && StartsWithSpace(s, w) && WhiteSpace(s[w..])
  {
    hide IsSpaceRune;
    w := if StartsWithSpace(s, 1) then 1 else if StartsWithSpace(s, 2) then 2 else 3;
  }

  lemma LastOfBlanks(s: bytes) returns (w: nat)
    requires s != [] && TrimRight(s) == []
    ensures 1 <= w <= 3 && EndsWithSpace(s, w) && TrimRight(s[..|s| - w]) == []
  {
    hide IsSpaceRune;
    w := if EndsWithSpace(s, 1) then 1 else if EndsWithSpace(s, 2) then 2 else 3;
  }

  lemma {:induction false} BlanksAfter(r: bytes, s: bytes)
    requires TrimRight(s) == []
    ensures TrimRight(r + s) == TrimRight(r)
    decreases |s|
  {
    hide IsSpaceRune, TrimRight;
    if s == [] {
      assert r + s == r;
    } else {
      var w := LastOfBlanks(s);
      var t := r + s;
      assert t[|t| - w..] == s[|s| - w..] && t[..|t| - w] == r + s[..|s| - w];
      BackStep(t, w);
      BlanksAfter(r, s[..|s| - w]);
    }
  }

  lemma {:induction false} BlanksBefore(s: bytes, r: bytes)
    requires WhiteSpace(s)
    ensures TrimLeft(s + r) == TrimLeft(r)
    decreases |s|
  {
    hide IsSpaceRune, TrimLeft;
    if s == [] {
      assert s + r == r;
    } else {
      var w := FirstOfBlanks(s);
      var t := s + r;
      assert t[..w] == s[..w] && t[w..] == s[w..] + r;
      FrontStep(t, w);
      BlanksBefore(s[w..], r);
    }
  }

  lemma NothingIsBlank()
    ensures TrimLeft([]) == [] && TrimRight([]) == []
  {
  }

  /** Trimming on the right leaves nothing exactly when trimming on the left does. */
  lemma {:induction false} EitherEnd(s: bytes)
    ensures TrimRight(s) == [] <==> WhiteSpace(s)
    decreases |s|
  {
    hide IsSpaceRune, TrimLeft, TrimRight;
    NothingIsBlank();
    if s != [] && WhiteSpace(s) {
      var w := FirstOfBlanks(s);
      EitherEnd(s[w..]);
      BlanksAfter(s[..w], s[w..]);
      assert s == s[..w] + s[w..];
      assert s[..w][w - w..] == s[..w] && s[..w][..w - w] == [];
      BackStep(s[..w], w);
    }
    if s != [] && TrimRight(s) == [] {
      var w := LastOfBlanks(s);
      var n := |s| - w;
      EitherEnd(s[..n]);
      BlanksBefore(s[..n], s[n..]);
      assert s == s[..n] + s[n..];
      assert s[n..][..w] == s[n..] && s[n..][w..] == [];
      FrontStep(s[n..], w);
    }
  }

  // ---------- escaped usernames ----------

  /** An escaped code point starts with a byte that tells its length. */
  lemma RuneBytes(s: bytes)
    requires s != []
    ensures var r := EscapedRune(FirstRune(s));
      && r != [] && !IsContinuation(r[0])
      && (IsAsciiSpace(r[0]) ==> |r| == 1)
      && (r[0] == 0xc2 ==> |r| == 2)
      && (0xe1 <= r[0] <= 0xe3 ==> |r| == 3)
  {
  }

  /** A blank at its front is the code point itself. */
  lemma BlankRune(s: bytes, rest: bytes)
    requires s != []
    ensures var r := EscapedRune(FirstRune(s));
      TrimLeft(r + rest) == if IsSpaceRune(r) then TrimLeft(rest) else r + rest
  {
    var r := EscapedRune(FirstRune(s));
    RuneBytes(s);
    hide IsSpaceRune, EscapedRune, FirstRune;
    forall w | 1 <= w <= 3 && StartsWithSpace(r + rest, w) ensures w == |r| && IsSpaceRune(r) {
      SpaceBytes((r + rest)[..w]);
      assert (r + rest)[..w][0] == r[0];
      AsciiSpace((r + rest)[..w]);
      assert (r + rest)[..|r|] == r;
    }
    if IsSpaceRune(r) {
      SpaceBytes(r);
      assert (r + rest)[..|r|] == r && (r + rest)[|r|..] == rest;
      FrontStep(r + rest, |r|);
    }
  }

  lemma AsciiSpace(rune: bytes)
    requires IsSpaceRune(rune)
    ensures |rune| == 1 ==> IsAsciiSpace(rune[0])
  {
  }

  lemma BlankIsFirstRune(s: bytes, w: nat)
    requires 1 <= w <= 3 && StartsWithSpace(s, w)
    ensures FirstRune(s) == EscapedRune(FirstRune(s)) == s[..w] && Step(s) == w
  {
    SpaceBytes(s[..w]);
    assert s[..w][0] == s[0];
  }

  lemma FirstRuneIsBlank(s: bytes)
    requires s != [] && IsSpaceRune(EscapedRune(FirstRune(s)))
    ensures StartsWithSpace(s, Step(s)) && Step(s) <= 3
  {
  }

  /** A text after an escaped username. */
  lemma {:induction false} BlankThenRest(u: bytes, rest: bytes)
    ensures WhiteSpace(Escaped(u) + rest) <==> WhiteSpace(u) && WhiteSpace(rest)
    decreases |u|
  {
    hide IsSpaceRune, TrimLeft, EscapedRune, FirstRune;
    NothingIsBlank();
    if u == [] {
      assert Escaped(u) + rest == rest;
    } else {
      var r, more := EscapedRune(FirstRune(u)), Escaped(u[Step(u)..]);
      RuneBytes(u);
      assert Escaped(u) + rest == r + (more + rest);
      BlankRune(u, more + rest);
      BlankThenRest(u[Step(u)..], rest);
      if IsSpaceRune(r) {
        FirstRuneIsBlank(u);
        FrontStep(u, Step(u));
      } else if WhiteSpace(u) {
        var w := FirstOfBlanks(u);
        BlankIsFirstRune(u, w);
      }
    }
  }

  lemma EscapedStarts(u: bytes)
    requires u != []
    ensures Escaped(u) != [] && !IsContinuation(Escaped(u)[0])
  {
    RuneBytes(u);
  }

  // ---------- filled texts ----------

  predicate HasHole(s: bytes) {
    s != [] && (StartsWithHole(s) || HasHole(s[1..]))
  }

  /** Where no hole starts, a blank at the front of the filled text stands in the text itself. */
  lemma BlankInText(s: bytes, e: bytes, w: nat)
    requires s != [] && !StartsWithHole(s) && e != [] && !IsContinuation(e[0]) && 1 <= w <= 3
    ensures StartsWithSpace(Filled(s, e), w) <==> StartsWithSpace(s, w)
    ensures StartsWithSpace(s, w) ==>
      Filled(s, e)[w..] == Filled(s[w..], e) && (HasHole(s) <==> HasHole(s[w..]))
  {
    var f := Filled(s, e);
    assert f == [s[0]] + Filled(s[1..], e);
    if StartsWithSpace(s, w) {
      SpaceBytes(s[..w]);
      NoHoleInside(s, e, w);
      assert f[..w] == s[..w];
    }
    if StartsWithSpace(f, w) {
      SpaceBytes(f[..w]);
      assert forall i :: 0 < i < w ==> f[..w][i] == f[i] && IsContinuation(f[i]);
      TextInFront(s, e, w);
    }
  }

  lemma {:induction false} NoHoleInside(s: bytes, e: bytes, w: nat)
    requires w <= |s| && (forall i :: 0 < i < w ==> IsContinuation(s[i])) && (w > 0 ==> !StartsWithHole(s))
    ensures Filled(s, e) == s[..w] + Filled(s[w..], e) && (HasHole(s) <==> HasHole(s[w..]))
    decreases w
  {
    if w > 0 {
      NoHoleInside(s[1..], e, w - 1);
      assert s[1..][..w - 1] == s[1..w] && s[1..][w - 1..] == s[w..];
      assert s[..w] == [s[0]] + s[1..w];
    } else {
      assert s[..0] == [] && s[0..] == s;
    }
  }

  /** Continuation bytes do not come from a hole. */
  lemma {:induction false} TextInFront(s: bytes, e: bytes, w: nat)
    requires w <= |Filled(s, e)| && e != [] && !IsContinuation(e[0]) && (w > 0 ==> s != [] && !StartsWithHole(s))
    requires forall i :: 0 < i < w ==> IsContinuation(Filled(s, e)[i])
    ensures w <= |s| && s[..w] == Filled(s, e)[..w]
    decreases w
  {
    if w > 0 {
      var rest := Filled(s[1..], e);
      assert Filled(s, e) == [s[0]] + rest;
      assert forall i :: 0 <= i < w - 1 ==> rest[i] == Filled(s, e)[i + 1];
      if w > 1 {
        assert IsContinuation(rest[0]);
      }
      TextInFront(s[1..], e, w - 1);
      assert s[..w] == [s[0]] + s[1..][..w - 1];
      assert Filled(s, e)[..w] == [s[0]] + rest[..w - 1];
    }
  }

  /** A filled text is white space exactly when the text is but for its holes, and the username if there are any. */
  lemma {:induction false} FilledIsBlank(s: bytes, u: bytes)
    requires u != []
    ensures WhiteSpace(Filled(s, Escaped(u))) <==> WhiteSpace(Filled(s, SPACE)) && (HasHole(s) ==> WhiteSpace(u))
    decreases |s|
  {
    hide IsSpaceRune, TrimLeft, Escaped;
    NothingIsBlank();
    EscapedStarts(u);
    if s == [] {
    } else if StartsWithHole(s) {
      FilledIsBlank(s[2..], u);
      BlankThenRest(u, Filled(s[2..], Escaped(u)));
      SpaceThenRest(Filled(s[2..], SPACE));
    } else {
      BlankText(s, Escaped(u));
      BlankText(s, SPACE);
      if w :| 1 <= w <= 3 && StartsWithSpace(s, w) {
        FilledIsBlank(s[w..], u);
        BlankInText(s, SPACE, w);
      }
    }
  }

  lemma SpaceThenRest(rest: bytes)
    ensures WhiteSpace(SPACE + rest) <==> WhiteSpace(rest)
  {
    assert (SPACE + rest)[..1] == SPACE && (SPACE + rest)[1..] == rest;
    FrontStep(SPACE + rest, 1);
  }

  lemma BlankText(s: bytes, e: bytes)
    requires s != [] && !StartsWithHole(s) && e != [] && !IsContinuation(e[0])
    ensures forall w :: 1 <= w <= 3 && StartsWithSpace(s, w) ==>
      (WhiteSpace(Filled(s, e)) <==> WhiteSpace(Filled(s[w..], e)))
    ensures (forall w :: 1 <= w <= 3 ==> !StartsWithSpace(s, w)) ==> !WhiteSpace(Filled(s, e))
  {
    hide IsSpaceRune, TrimLeft;
    forall w | 1 <= w <= 3
      ensures StartsWithSpace(Filled(s, e), w) <==> StartsWithSpace(s, w)
      ensures StartsWithSpace(s, w) ==> (WhiteSpace(Filled(s, e)) <==> WhiteSpace(Filled(s[w..], e)))
    {
      BlankInText(s, e, w);
      if StartsWithSpace(s, w) {
        FrontStep(Filled(s, e), w);
      }
    }
    if WhiteSpace(Filled(s, e)) {
      var w := FirstOfBlanks(Filled(s, e));
    }
  }
}
