/**
 * Go string library functions the modelled code relies on, on sequences of code points: trimming, prefixes, search,
 * the byte-wise order of strings (which on UTF-8 is the order of code points), and the sorting of a map's keys, whose
 * iteration order Go leaves open.
 */
module Text {

  /** unicode.IsSpace: the code points with Unicode's White_Space property. */
  predicate IsSpace(c: char) {
    || '\t' <= c <= '\r'
    || c == ' '
    || c == '\U{85}'
    || c == '\U{A0}'
    || c == '\U{1680}'
    || '\U{2000}' <= c <= '\U{200A}'
    || c == '\U{2028}'
    || c == '\U{2029}'
    || c == '\U{202F}'
    || c == '\U{205F}'
    || c == '\U{3000}'
  }

  function TrimLeft(s: string): (r: string)
    ensures r == [] || !IsSpace(r[0])
  {
    if s != [] && IsSpace(s[0]) then TrimLeft(s[1..]) else s
  }

  function TrimRight(s: string): (r: string)
    ensures r <= s
    ensures r == [] || !IsSpace(r[|r| - 1])
  {
    if s != [] && IsSpace(s[|s| - 1]) then TrimRight(s[..|s| - 1]) else s
  }

  /** strings.TrimSpace */
  function TrimSpace(s: string): string {
    TrimRight(TrimLeft(s))
  }

  lemma TrimSpaceTwice(s: string)
    ensures TrimSpace(TrimSpace(s)) == TrimSpace(s)
  {
    var t := TrimSpace(s);
    if t != [] {
      assert t[0] == TrimLeft(s)[0];
    }
  }

  /** strings.HasPrefix */
  predicate HasPrefix(s: string, p: string) {
    |p| <= |s| && s[..|p|] == p
  }

  /** strings.TrimPrefix: removes one leading occurrence of p, if there is one. */
  function TrimPrefix(s: string, p: string): string {
    if HasPrefix(s, p) then s[|p|..] else s
  }

  /** strings.Contains */
  predicate Contains(s: string, p: string) {
    HasPrefix(s, p) || (s != [] && Contains(s[1..], p))
  }

  /** The order of Go's `<` on strings. */
  predicate Less(a: string, b: string) {
    b != [] && (a == [] || a[0] < b[0] || (a[0] == b[0] && Less(a[1..], b[1..])))
  }

  lemma LessIsTransitive(a: string, b: string, c: string)
    requires Less(a, b) && Less(b, c)
    ensures Less(a, c)
  {
  }

  lemma LessIsIrreflexive(a: string)
    ensures !Less(a, a)
  {
  }

  lemma LessIsTotal(a: string, b: string)
    ensures a == b || Less(a, b) || Less(b, a)
  {
    if a != [] && b != [] && a[0] == b[0] {
      LessIsTotal(a[1..], b[1..]);
      assert a == [a[0]] + a[1..] && b == [b[0]] + b[1..];
    }
  }

  /** Strictly ascending, hence without repetition. */
  ghost predicate Ascending(s: seq<string>) {
    forall i, j :: 0 <= i < j < |s| ==> Less(s[i], s[j])
  }

  /** The number of strings in s that come before k. */
  function Rank(s: seq<string>, k: string): (n: nat)
    ensures n <= |s|
  {
    if s == [] then 0 else if Less(s[0], k) then 1 + Rank(s[1..], k) else 0
  }

  function Insert(s: seq<string>, k: string): seq<string> {
    var n := Rank(s, k);
    s[..n] + [k] + s[n..]
  }

  lemma RankSplits(s: seq<string>, k: string)
    requires Ascending(s) && k !in s
    ensures forall i :: 0 <= i < Rank(s, k) ==> Less(s[i], k)
    ensures forall i :: Rank(s, k) <= i < |s| ==> Less(k, s[i])
  {
    if s == [] {
    } else if Less(s[0], k) {
      RankSplits(s[1..], k);
    } else {
      LessIsTotal(s[0], k);
      assert s[0] in s;
      forall i | 0 < i < |s| ensures Less(k, s[i]) {
        LessIsTransitive(k, s[0], s[i]);
      }
    }
  }

  lemma InsertKeepsAscending(s: seq<string>, k: string)
    requires Ascending(s) && k !in s
    ensures Ascending(Insert(s, k))
    ensures forall x :: x in Insert(s, k) <==> x == k || x in s
  {
    RankSplits(s, k);
    var n := Rank(s, k);
    forall i, j | 0 <= i < j < |s| + 1
      ensures Less(Insert(s, k)[i], Insert(s, k)[j])
    {
      if i < n && j > n { LessIsTransitive(s[i], k, s[j - 1]); }
    }
    assert s == s[..n] + s[n..];
  }

  /** The keys of a map in the order sort.Strings gives them. */
  ghost function SortedKeys(keys: set<string>): (s: seq<string>)
    ensures Ascending(s)
    ensures forall k :: k in s <==> k in keys
  {
    if keys == {} then []
    else
      var k :| k in keys;
      var rest := SortedKeys(keys - {k});
      InsertKeepsAscending(rest, k);
      Insert(rest, k)
  }

  lemma AscendingIsUnique(a: seq<string>, b: seq<string>)
    requires Ascending(a) && Ascending(b)
    requires forall k :: k in a <==> k in b
    ensures a == b
  {
    assert (a != [] ==> a[0] in b) && (b != [] ==> b[0] in a);
    if a != [] && b != [] {
      if a[0] != b[0] {
        var i :| 0 <= i < |b| && b[i] == a[0];
        var j :| 0 <= j < |a| && a[j] == b[0];
        LessIsTransitive(a[0], b[0], a[0]);
        LessIsIrreflexive(a[0]);
        assert false;
      }
      forall k ensures k in a[1..] <==> k in b[1..] {
        TailMembers(a, k);
        TailMembers(b, k);
      }
      AscendingIsUnique(a[1..], b[1..]);
      assert a == [a[0]] + a[1..] && b == [b[0]] + b[1..];
    }
  }

  lemma TailMembers(a: seq<string>, k: string)
    requires Ascending(a) && a != []
    ensures k in a[1..] <==> k in a && k != a[0]
  {
    LessIsIrreflexive(a[0]);
    if k in a && k != a[0] {
      var i :| 0 <= i < |a| && a[i] == k;
      assert a[1..][i - 1] == k;
    }
  }

  /** Collects the keys of a map in arbitrary order and sorts them (sort.Strings). */
  method CollectAndSort(keys: set<string>) returns (s: seq<string>)
    ensures s == SortedKeys(keys)
  {
    s := [];
    var todo := keys;
    while todo != {}
      invariant todo <= keys
      invariant Ascending(s)
      invariant forall k :: k in s <==> k in keys - todo
      decreases |todo|
    {
      var k :| k in todo;
      InsertKeepsAscending(s, k);
      s := Insert(s, k);
      todo := todo - {k};
    }
    AscendingIsUnique(s, SortedKeys(keys));
  }

  /** fmt.Sprintf("%d", n) for a non-negative n. */
  function Decimal(n: nat): string {
    if n < 10 then [('0' as int + n) as char] else Decimal(n / 10) + [('0' as int + n % 10) as char]
  }
}
