/** The edit distance of cmd/stalecols/main.go, against the least number of single-byte edits. */
module EditDistance {

  type byte = x: int | 0 <= x < 256 witness 0

  type bytes = seq<byte>

  function Init(s: bytes): bytes
    requires s != []
  {
    s[..|s| - 1]
  }

  function Last(s: bytes): byte
    requires s != []
  {
    s[|s| - 1]
  }

  function Min3(a: nat, b: nat, c: nat): (m: nat)
    ensures m <= a && m <= b && m <= c && (m == a || m == b || m == c)
  {
    var m := if b < a then b else a;
    if c < m then c else m
  }

  function Cost(x: byte, y: byte): nat {
    if x == y then 0 else 1
  }

  /** The recurrence the table is filled by. */
  ghost function Dist(a: bytes, b: bytes): nat
    decreases |a| + |b|
  {
    if a == [] then |b|
    else if b == [] then |a|
    else Min3(Dist(Init(a), b) + 1, Dist(a, Init(b)) + 1, Dist(Init(a), Init(b)) + Cost(Last(a), Last(b)))
  }

  // ---------- the two-row table ----------

  lemma PrefixEnds(s: bytes, i: nat)
    requires 1 <= i <= |s|
    ensures s[..i] != [] && Init(s[..i]) == s[..i - 1] && Last(s[..i]) == s[i - 1]
  {
  }

  lemma DistOfPrefixes(a: bytes, b: bytes, i: nat, j: nat)
    requires 1 <= i <= |a| && 1 <= j <= |b|
    ensures Dist(a[..i], b[..j])
         == Min3(Dist(a[..i - 1], b[..j]) + 1, Dist(a[..i], b[..j - 1]) + 1,
                 Dist(a[..i - 1], b[..j - 1]) + Cost(a[i - 1], b[j - 1]))
  {
    PrefixEnds(a, i);
    PrefixEnds(b, j);
    hide Init, Last;
  }

  lemma {:induction false} DistOfSame(a: bytes)
    ensures Dist(a, a) == 0
  {
    if a != [] {
      DistOfSame(Init(a));
    }
  }

  /** row[0..n) holds the distances of s from the prefixes of b. */
  ghost predicate IsRow(row: seq<nat>, n: nat, s: bytes, b: bytes) {
    n <= |row| && n <= |b| + 1 && forall j :: 0 <= j < n ==> row[j] == Dist(s, b[..j])
  }

  lemma RowStarts(row: seq<nat>, s: bytes, b: bytes)
    requires row != [] && row[0] == |s|
    ensures IsRow(row, 1, s, b)
  {
    assert b[..0] == [];
  }

  method FillRow(a: bytes, b: bytes, i: nat, prev: array<nat>, curr: array<nat>)
    requires 1 <= i <= |a| && prev != curr && prev.Length == curr.Length == |b| + 1
    requires IsRow(prev[..], |b| + 1, a[..i - 1], b)
    modifies curr
    ensures IsRow(curr[..], |b| + 1, a[..i], b)
  {
    hide Dist;
    curr[0] := i;
    RowStarts(curr[..], a[..i], b);
    for j := 1 to |b| + 1
      invariant IsRow(curr[..], j, a[..i], b)
    {
      DistOfPrefixes(a, b, i, j);
      ghost var before := curr[..];
      assert prev[j] == prev[..][j] && prev[j - 1] == prev[..][j - 1] && curr[j - 1] == before[j - 1];
      curr[j] := Min3(prev[j] + 1, curr[j - 1] + 1, prev[j - 1] + Cost(a[i - 1], b[j - 1]));
      assert curr[..] == before[j := curr[j]];
    }
  }

  method Levenshtein(a: bytes, b: bytes) returns (d: nat)
    ensures d == Dist(a, b)
  {
    if a == b {
      DistOfSame(a);
      return 0;
    }
    if |a| == 0 {
      return |b|;
    }
    if |b| == 0 {
      return |a|;
    }
    var prev := new nat[|b| + 1];
    var curr := new nat[|b| + 1];
    for j := 0 to |b| + 1
      invariant forall k :: 0 <= k < j ==> prev[k] == k
    {
      prev[j] := j;
    }
    assert IsRow(prev[..], |b| + 1, a[..0], b);
    for i := 1 to |a| + 1
      invariant prev != curr && fresh(prev) && fresh(curr) && prev.Length == curr.Length == |b| + 1
      invariant IsRow(prev[..], |b| + 1, a[..i - 1], b)
    {
      FillRow(a, b, i, prev, curr);
      prev, curr := curr, prev;
    }
    assert a[..|a|] == a && b[..|b|] == b;
    d := prev[..][|b|];
  }

  // ---------- edits ----------

  datatype Edit = Insert(at: nat, c: byte) | Delete(at: nat) | Substitute(at: nat, c: byte)

  predicate Applicable(e: Edit, s: bytes) {
    if e.Insert? then e.at <= |s| else e.at < |s|
  }

  function Apply(e: Edit, s: bytes): bytes
    requires Applicable(e, s)
  {
    match e
    case Insert(i, c) => s[..i] + [c] + s[i..]
    case Delete(i) => s[..i] + s[i + 1..]
    case Substitute(i, c) => s[..i] + [c] + s[i + 1..]
  }

  /** The edits, one after the other, turn a into b. */
  ghost predicate Leads(a: bytes, edits: seq<Edit>, b: bytes)
    decreases |edits|
  {
    if edits == [] then a == b
    else Applicable(edits[0], a) && Leads(Apply(edits[0], a), edits[1..], b)
  }

  /** One more byte in a string changes its distance from another by at most one. */
  lemma {:induction false} InsertedByte(p: bytes, c: byte, q: bytes, b: bytes)
    ensures Dist(p + q, b) <= Dist(p + [c] + q, b) + 1
    ensures Dist(p + [c] + q, b) <= Dist(p + q, b) + 1
    decreases |q| + |b|
  {
    var s, t := p + q, p + [c] + q;
    if b == [] {
    } else if q == [] {
      assert s == p && Init(t) == p;
      InsertedByte(p, c, q, Init(b));
    } else {
      assert Init(s) == p + Init(q) && Init(t) == p + [c] + Init(q) && Last(s) == Last(t) == Last(q);
      InsertedByte(p, c, Init(q), b);
      InsertedByte(p, c, q, Init(b));
      InsertedByte(p, c, Init(q), Init(b));
      if s == [] {
        assert false;
      }
    }
  }

  lemma {:induction false} SubstitutedByte(p: bytes, c: byte, d: byte, q: bytes, b: bytes)
    ensures Dist(p + [c] + q, b) <= Dist(p + [d] + q, b) + 1
    decreases |q| + |b|
  {
    var s, t := p + [c] + q, p + [d] + q;
    if b == [] {
    } else if q == [] {
      assert Init(s) == p && Init(t) == p;
      SubstitutedByte(p, c, d, q, Init(b));
    } else {
      assert Init(s) == p + [c] + Init(q) && Init(t) == p + [d] + Init(q) && Last(s) == Last(t) == Last(q);
      SubstitutedByte(p, c, d, Init(q), b);
      SubstitutedByte(p, c, d, q, Init(b));
      SubstitutedByte(p, c, d, Init(q), Init(b));
    }
  }

  lemma EditedOnce(e: Edit, a: bytes, b: bytes)
    requires Applicable(e, a)
    ensures Dist(a, b) <= Dist(Apply(e, a), b) + 1
  {
    match e
    case Insert(i, c) =>
      InsertedByte(a[..i], c, a[i..], b);
      assert a == a[..i] + a[i..];
    case Delete(i) =>
      InsertedByte(a[..i], a[i], a[i + 1..], b);
      assert a == a[..i] + [a[i]] + a[i + 1..];
    case Substitute(i, c) =>
      SubstitutedByte(a[..i], a[i], c, a[i + 1..], b);
      assert a == a[..i] + [a[i]] + a[i + 1..];
  }

  /** No sequence of edits is shorter than the distance. */
  lemma {:induction false} NoFewerEdits(a: bytes, edits: seq<Edit>, b: bytes)
    requires Leads(a, edits, b)
    ensures Dist(a, b) <= |edits|
    decreases |edits|
  {
    if edits == [] {
      DistOfSame(a);
    } else {
      EditedOnce(edits[0], a, b);
      NoFewerEdits(Apply(edits[0], a), edits[1..], b);
    }
  }

  lemma {:induction false} LeadsOn(a: bytes, first: seq<Edit>, b: bytes, then_: seq<Edit>, c: bytes)
    requires Leads(a, first, b) && Leads(b, then_, c)
    ensures Leads(a, first + then_, c)
    decreases |first|
  {
    hide Apply, Dist;
    if first == [] {
      assert first + then_ == then_;
    } else {
      LeadsOn(Apply(first[0], a), first[1..], b, then_, c);
      assert (first + then_)[1..] == first[1..] + then_;
    }
  }

  /** Edits of a string apply as well with a byte after it. */
  lemma {:induction false} LeadsBefore(a: bytes, edits: seq<Edit>, b: bytes, c: byte)
    requires Leads(a, edits, b)
    ensures Leads(a + [c], edits, b + [c])
    decreases |edits|
  {
    if edits != [] {
      var e := edits[0];
      assert Apply(e, a + [c]) == Apply(e, a) + [c];
      LeadsBefore(Apply(e, a), edits[1..], b, c);
    }
  }

  lemma DropLast(a: bytes, rest: seq<Edit>, b: bytes)
    requires a != [] && Leads(Init(a), rest, b)
    ensures Leads(a, [Delete(|a| - 1)] + rest, b)
  {
    assert Apply(Delete(|a| - 1), a) == Init(a);
    LeadsOn(a, [Delete(|a| - 1)], Init(a), rest, b);
  }

  lemma AddLast(a: bytes, first: seq<Edit>, b: bytes)
    requires b != [] && Leads(a, first, Init(b))
    ensures Leads(a, first + [Insert(|b| - 1, Last(b))], b)
  {
    assert Apply(Insert(|b| - 1, Last(b)), Init(b)) == b;
    LeadsOn(a, first, Init(b), [Insert(|b| - 1, Last(b))], b);
  }

  lemma KeepLast(a: bytes, rest: seq<Edit>, b: bytes)
    requires a != [] && b != [] && Last(a) == Last(b) && Leads(Init(a), rest, Init(b))
    ensures Leads(a, rest, b)
  {
    hide Apply, Dist;
    LeadsBefore(Init(a), rest, Init(b), Last(b));
    assert Init(a) + [Last(b)] == a && Init(b) + [Last(b)] == b;
  }

  lemma ReplaceLast(a: bytes, rest: seq<Edit>, b: bytes)
    requires a != [] && b != [] && Leads(Init(a), rest, Init(b))
    ensures Leads(a, [Substitute(|a| - 1, Last(b))] + rest, b)
  {
    var e, middle := Substitute(|a| - 1, Last(b)), Init(a) + [Last(b)];
    assert Apply(e, a) == middle;
    assert Init(middle) == Init(a);
    KeepLast(middle, rest, b);
    LeadsOn(a, [e], middle, rest, b);
  }

  /** As many edits as the distance are enough. */
  lemma {:induction false} EnoughEdits(a: bytes, b: bytes) returns (edits: seq<Edit>)
    ensures Leads(a, edits, b) && |edits| == Dist(a, b)
    decreases |a| + |b|
  {
    if a == [] && b == [] {
      edits := [];
    } else if b == [] || (a != [] && Dist(a, b) == Dist(Init(a), b) + 1) {
      edits := EnoughEdits(Init(a), b);
      DropLast(a, edits, b);
      edits := [Delete(|a| - 1)] + edits;
    } else if a == [] || Dist(a, b) == Dist(a, Init(b)) + 1 {
      edits := EnoughEdits(a, Init(b));
      AddLast(a, edits, b);
      edits := edits + [Insert(|b| - 1, Last(b))];
    } else {
      edits := EnoughEdits(Init(a), Init(b));
      if Last(a) == Last(b) {
        KeepLast(a, edits, b);
      } else {
        ReplaceLast(a, edits, b);
        edits := [Substitute(|a| - 1, Last(b))] + edits;
      }
    }
  }

  /** The distance is the least number of single-byte inserts, deletes and substitutions. */
  lemma DistIsLeast(a: bytes, b: bytes, n: nat)
    ensures (exists edits :: Leads(a, edits, b) && |edits| == n) ==> Dist(a, b) <= n
    ensures exists edits :: Leads(a, edits, b) && |edits| == Dist(a, b)
  {
    forall edits | Leads(a, edits, b) { NoFewerEdits(a, edits, b); }
    var edits := EnoughEdits(a, b);
  }

  // ---------- a metric ----------

  lemma {:induction false} Symmetric(a: bytes, b: bytes)
    ensures Dist(a, b) == Dist(b, a)
    decreases |a| + |b|
  {
    if a != [] && b != [] {
      Symmetric(Init(a), b);
      Symmetric(a, Init(b));
      Symmetric(Init(a), Init(b));
    }
  }

  lemma Triangle(a: bytes, b: bytes, c: bytes)
    ensures Dist(a, c) <= Dist(a, b) + Dist(b, c)
  {
    var first := EnoughEdits(a, b);
    var second := EnoughEdits(b, c);
    LeadsOn(a, first, b, second, c);
    NoFewerEdits(a, first + second, c);
  }

  lemma ZeroMeansSame(a: bytes, b: bytes)
    ensures Dist(a, b) == 0 <==> a == b
  {
    DistOfSame(a);
    var edits := EnoughEdits(a, b);
  }

  lemma {:induction false} Bounds(a: bytes, b: bytes)
    ensures |a| - |b| <= Dist(a, b) && |b| - |a| <= Dist(a, b)
    ensures Dist(a, b) <= |a| || Dist(a, b) <= |b|
    decreases |a| + |b|
  {
    if a != [] && b != [] {
      Bounds(Init(a), b);
      Bounds(a, Init(b));
      Bounds(Init(a), Init(b));
    }
  }
}
