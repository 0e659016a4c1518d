/** findRenameTarget of cmd/stalecols/main.go. Lower casing (strings.ToLower) is a parameter. */
module StaleColumns {
  import opened EditDistance

  datatype Option<+T> = None | Some(value: T)

  const UNDERSCORE: byte := 0x5f

  /** strings.ReplaceAll(s, "_", "") */
  function WithoutUnderscores(s: bytes): bytes {
    if s == [] then []
    else if s[0] == UNDERSCORE then WithoutUnderscores(s[1..])
    else [s[0]] + WithoutUnderscores(s[1..])
  }

  function Normalize(lower: bytes -> bytes, s: bytes): bytes {
    lower(WithoutUnderscores(s))
  }

  /** Column i is at normalised distance d. */
  ghost predicate IsAt(lower: bytes -> bytes, want: bytes, names: seq<bytes>, i: nat, d: nat) {
    i < |names| && Dist(want, Normalize(lower, names[i])) == d
  }

  /** Column i is the first at distance d. */
  ghost predicate IsFirstAt(lower: bytes -> bytes, want: bytes, names: seq<bytes>, i: nat, d: nat) {
    IsAt(lower, want, names, i, d) && forall j :: 0 <= j < i ==> !IsAt(lower, want, names, j, d)
  }

  ghost predicate NoneAt(lower: bytes -> bytes, want: bytes, names: seq<bytes>, d: nat) {
    forall j :: 0 <= j < |names| ==> !IsAt(lower, want, names, j, d)
  }

  predicate IsLong(want: bytes, got: bytes) {
    |want| >= 8 || |got| >= 8
  }

  /** The column the heuristic may return. */
  ghost predicate IsTarget(lower: bytes -> bytes, stale: bytes, names: seq<bytes>, r: Option<nat>) {
    var want := Normalize(lower, stale);
    if |want| < 4 then r == None
    else match r
      case Some(i) =>
        || IsFirstAt(lower, want, names, i, 0)
        || (NoneAt(lower, want, names, 0) && IsFirstAt(lower, want, names, i, 1)
            && IsLong(want, Normalize(lower, names[i])))
      case None =>
        && NoneAt(lower, want, names, 0)
        && forall i: nat :: IsFirstAt(lower, want, names, i, 1) ==> !IsLong(want, Normalize(lower, names[i]))
  }

  method FindSameName(lower: bytes -> bytes, want: bytes, names: seq<bytes>) returns (r: Option<nat>)
    ensures match r
      case Some(i) => IsFirstAt(lower, want, names, i, 0)
      case None => NoneAt(lower, want, names, 0)
  {
    for i := 0 to |names|
      invariant forall j :: 0 <= j < i ==> !IsAt(lower, want, names, j, 0)
    {
      ZeroMeansSame(want, Normalize(lower, names[i]));
      if Normalize(lower, names[i]) == want {
        return Some(i);
      }
    }
    return None;
  }

  method FindNearest(lower: bytes -> bytes, want: bytes, names: seq<bytes>) returns (r: Option<nat>)
    requires NoneAt(lower, want, names, 0)
    ensures match r
      case Some(i) => IsFirstAt(lower, want, names, i, 1)
      case None => NoneAt(lower, want, names, 1)
  {
    var best: Option<nat> := None;
    var bestDist := 2;
    for i := 0 to |names|
      invariant bestDist == 2 ==> best == None && forall j :: 0 <= j < i ==> !IsAt(lower, want, names, j, 1)
      invariant bestDist != 2 ==> bestDist == 1 && best.Some? && IsFirstAt(lower, want, names, best.value, 1)
    {
      assert !IsAt(lower, want, names, i, 0);
      var d := Levenshtein(want, Normalize(lower, names[i]));
      if d < bestDist {
        bestDist := d;
        best := Some(i);
      }
    }
    return best;
  }

  method FindRenameTarget(lower: bytes -> bytes, stale: bytes, names: seq<bytes>) returns (r: Option<nat>)
    ensures IsTarget(lower, stale, names, r)
  {
    var want := Normalize(lower, stale);
    if |want| < 4 {
      return None;
    }
    r := FindSameName(lower, want, names);
    if r.Some? {
      return;
    }
    r := FindNearest(lower, want, names);
    if r.Some? && !IsLong(want, Normalize(lower, names[r.value])) {
      return None;
    }
  }

  lemma {:induction false} SomeFirst(lower: bytes -> bytes, want: bytes, names: seq<bytes>, i: nat, d: nat)
    returns (k: nat)
    requires IsAt(lower, want, names, i, d)
    ensures k <= i && IsFirstAt(lower, want, names, k, d)
  {
    if j :| 0 <= j < i && IsAt(lower, want, names, j, d) {
      k := SomeFirst(lower, want, names, j, d);
    } else {
      k := i;
    }
  }

  /** The heuristic's outcome is determined. */
  lemma TargetIsUnique(lower: bytes -> bytes, stale: bytes, names: seq<bytes>, r: Option<nat>, r': Option<nat>)
    requires IsTarget(lower, stale, names, r) && IsTarget(lower, stale, names, r')
    ensures r == r'
  {
  }

  lemma {:induction false} UnderscoreIsDropped(a: bytes, b: bytes)
    ensures WithoutUnderscores(a + [UNDERSCORE] + b) == WithoutUnderscores(a + b)
  {
    if a == [] {
      assert a + [UNDERSCORE] + b == [0x5f] + b && a + b == b;
    } else {
      UnderscoreIsDropped(a[1..], b);
      assert (a + [UNDERSCORE] + b)[1..] == a[1..] + [UNDERSCORE] + b && (a + b)[1..] == a[1..] + b;
    }
  }

  /** Underscores do not matter: with one more or one less the first column of that name is found. */
  lemma UnderscoredIsFound(lower: bytes -> bytes, a: bytes, b: bytes, names: seq<bytes>, i: nat, r: Option<nat>)
    requires i < |names| && names[i] == a + [0x5f] + b && |Normalize(lower, a + b)| >= 4
    requires forall j :: 0 <= j < i ==> Normalize(lower, names[j]) != Normalize(lower, a + b)
    requires IsTarget(lower, a + b, names, r) || IsTarget(lower, a + [0x5f] + b, names, r)
    ensures r == Some(i)
  {
    UnderscoreIsDropped(a, b);
    hide Dist, WithoutUnderscores;
    var want := Normalize(lower, a + b);
    assert Normalize(lower, names[i]) == want == Normalize(lower, a + [0x5f] + b);
    forall j | 0 <= j < |names| {
      ZeroMeansSame(want, Normalize(lower, names[j]));
    }
    assert IsAt(lower, want, names, i, 0);
  }

  /** A wanted name under four bytes is never matched. */
  lemma ShortNameHasNoTarget(lower: bytes -> bytes, stale: bytes, names: seq<bytes>, r: Option<nat>)
    requires |Normalize(lower, stale)| <= 3 && IsTarget(lower, stale, names, r)
    ensures r == None
  {
  }

  /** What is found is plausible, at the least distance there is, and the first column there. */
  lemma TargetIsNearest(lower: bytes -> bytes, stale: bytes, names: seq<bytes>, i: nat, j: nat)
    requires IsTarget(lower, stale, names, Some(i)) && i < |names| && j < |names|
    ensures Plausible(lower, Normalize(lower, stale), names, i)
    ensures var want := Normalize(lower, stale);
      var d, e := Dist(want, Normalize(lower, names[i])), Dist(want, Normalize(lower, names[j]));
      d <= e && (d == e ==> i <= j)
  {
    hide Dist, Normalize;
    var want := Normalize(lower, stale);
    assert IsAt(lower, want, names, j, 0) <==> Dist(want, Normalize(lower, names[j])) == 0;
    assert IsAt(lower, want, names, j, 1) <==> Dist(want, Normalize(lower, names[j])) == 1;
  }

  /** The documented rule for one column: same normalised name, or distance 1 with a long one. */
  ghost predicate Plausible(lower: bytes -> bytes, want: bytes, names: seq<bytes>, i: nat) {
    || IsAt(lower, want, names, i, 0)
    || (IsAt(lower, want, names, i, 1) && IsLong(want, Normalize(lower, names[i])))
  }

  /** Column k is the first at distance 1 and short; column i is at distance 1 as well and one byte longer than want. */
  ghost predicate PassedOver(lower: bytes -> bytes, want: bytes, names: seq<bytes>, k: nat, i: nat) {
    && IsFirstAt(lower, want, names, k, 1) && |Normalize(lower, names[k])| < 8
    && IsAt(lower, want, names, i, 1) && |Normalize(lower, names[i])| == 8
  }

  lemma MissMeansPassedOver(lower: bytes -> bytes, stale: bytes, names: seq<bytes>, i: nat) returns (k: nat)
    requires var want := Normalize(lower, stale); |want| >= 4 && Plausible(lower, want, names, i)
    requires IsTarget(lower, stale, names, None)
    ensures var want := Normalize(lower, stale); |want| == 7 && PassedOver(lower, want, names, k, i)
  {
    var want := Normalize(lower, stale);
    k := SomeFirst(lower, want, names, i, 1);
    Bounds(want, Normalize(lower, names[i]));
  }

  lemma PassedOverIsMissed(lower: bytes -> bytes, stale: bytes, names: seq<bytes>, k: nat, i: nat)
    requires var want := Normalize(lower, stale); |want| == 7 && PassedOver(lower, want, names, k, i)
    requires NoneAt(lower, Normalize(lower, stale), names, 0)
    ensures IsTarget(lower, stale, names, None) && Plausible(lower, Normalize(lower, stale), names, i)
  {
  }

  /**
   * Only the first column at distance 1 is measured, so a plausible column can be passed over: exactly when the
   * wanted name has seven bytes and the first column at distance 1 is shorter than another one of eight.
   */
  lemma PlausibleColumnMissed(lower: bytes -> bytes, stale: bytes, names: seq<bytes>)
    requires |Normalize(lower, stale)| >= 4
    ensures var want := Normalize(lower, stale);
      (IsTarget(lower, stale, names, None) && exists i: nat :: Plausible(lower, want, names, i)) <==>
      (|want| == 7 && NoneAt(lower, want, names, 0) && exists k: nat, i: nat :: PassedOver(lower, want, names, k, i))
  {
    var want := Normalize(lower, stale);
    forall i: nat | Plausible(lower, want, names, i) && IsTarget(lower, stale, names, None)
      ensures |want| == 7 && exists k: nat :: PassedOver(lower, want, names, k, i)
    {
      var k := MissMeansPassedOver(lower, stale, names, i);
    }
    forall k: nat, i: nat | |want| == 7 && NoneAt(lower, want, names, 0) && PassedOver(lower, want, names, k, i) {
      PassedOverIsMissed(lower, stale, names, k, i);
    }
  }

  lemma {:induction false} NoUnderscores(s: bytes)
    requires UNDERSCORE !in s
    ensures WithoutUnderscores(s) == s
  {
    if s != [] {
      NoUnderscores(s[1..]);
      assert s[0] in s;
    }
  }

  lemma OneByteMore(a: bytes, c: byte)
    ensures Dist(a, a + [c]) == 1 && Dist(a + [c], a) == 1
  {
    var b := a + [c];
    assert Init(b) == a && Last(b) == c;
    DistOfSame(a);
    Bounds(a, b);
    Symmetric(a, b);
  }

  lemma AsWritten(lower: bytes -> bytes, s: bytes)
    requires UNDERSCORE !in s && lower(s) == s
    ensures Normalize(lower, s) == s
  {
    NoUnderscores(s);
  }

  /** A name of six bytes hides the one that is two bytes longer from the wanted name between them. */
  lemma NextLongerIsMissed(lower: bytes -> bytes, short: bytes, c: byte, d: byte)
    requires |short| == 6 && UNDERSCORE !in short + [c, d]
    requires forall s :: s in {short, short + [c], short + [c] + [d]} ==> lower(s) == s
    ensures var want, names := short + [c], [short, short + [c] + [d]];
      IsTarget(lower, want, names, None) && Plausible(lower, Normalize(lower, want), names, 1)
  {
    var want, long := short + [c], short + [c] + [d];
    var names := [short, long];
    assert forall b :: b in short || b in want || b in long ==> b in short + [c, d];
    AsWritten(lower, short);
    AsWritten(lower, want);
    AsWritten(lower, long);
    OneByteMore(short, c);
    OneByteMore(want, d);
    hide Dist, Normalize, WithoutUnderscores;
    assert IsFirstAt(lower, want, names, 0, 1) && PassedOver(lower, want, names, 0, 1);
    PassedOverIsMissed(lower, want, names, 0, 1);
  }

  /** The bytes of abcdefgh. */
  const LONG_NAME: bytes := [0x61, 0x62, 0x63, 0x64, 0x65, 0x66, 0x67, 0x68]

  /** A view's abcdefg: the column abcdefgh is plausible, but abcdef is met first and nothing is returned. */
  lemma LongColumnIsMissed(lower: bytes -> bytes)
    requires forall n :: 6 <= n <= 8 ==> lower(LONG_NAME[..n]) == LONG_NAME[..n]
    ensures var names := [LONG_NAME[..6], LONG_NAME];
      IsTarget(lower, LONG_NAME[..7], names, None) && Plausible(lower, Normalize(lower, LONG_NAME[..7]), names, 1)
  {
    hide IsTarget, Plausible, Normalize;
    var short := LONG_NAME[..6];
    assert LONG_NAME[..7] == short + [0x67];
    assert LONG_NAME[..8] == LONG_NAME == short + [0x67] + [0x68];
    NextLongerIsMissed(lower, short, 0x67, 0x68);
  }
}
