/** How LDAP messages are cut out of a byte stream read in chunks. */
module LdapFraming {
  import opened Ber

  // The reassembly loop of ldapSearch (internal/auth/ldap.go).

  datatype Framed = Framed(messages: seq<bytes>, rest: bytes)

  /** The size of the first complete message in buf, if there is one. */
  function FirstMessage(buf: bytes): (r: Option<nat>)
    ensures r.Some? ==> 2 <= r.value <= |buf|
  {
    if |buf| < 2 then None
    else match DecodedLength(buf[1..])
      case None => None
      case Some(l) => if |buf| < l.octets + 1 + l.value then None else Some(l.octets + 1 + l.value)
  }

  /** All complete messages at the front of a stream, and what is left. */
  ghost function Cut(stream: bytes): Framed
    decreases |stream|
  {
    match FirstMessage(stream)
    case None => Framed([], stream)
    case Some(n) => Framed([stream[..n]] + Cut(stream[n..]).messages, Cut(stream[n..]).rest)
  }

  ghost function Joined(chunks: seq<bytes>): bytes {
    if chunks == [] then [] else Joined(chunks[..|chunks| - 1]) + chunks[|chunks| - 1]
  }

  // ---------- framing does not depend on chunking ----------

  lemma FirstMessageIsStable(a: bytes, b: bytes)
    requires FirstMessage(a).Some?
    ensures FirstMessage(a + b) == FirstMessage(a)
  {
    var data := a[1..];
    assert (a + b)[1..] == data + b;
    if data[0] >= 0x80 {
      var n := data[0] % 0x80;
      assert (data + b)[1..n + 1] == data[1..n + 1];
    }
  }

  lemma CutFirst(stream: bytes, n: nat)
    requires FirstMessage(stream) == Some(n)
    ensures Cut(stream) == Framed([stream[..n]] + Cut(stream[n..]).messages, Cut(stream[n..]).rest)
  {
  }

  lemma CutResumesAfterFirst(a: bytes, b: bytes, n: nat)
    requires FirstMessage(a) == Some(n)
    ensures Cut(a + b).messages == [a[..n]] + Cut(a[n..] + b).messages
    ensures Cut(a + b).rest == Cut(a[n..] + b).rest
  {
    FirstMessageIsStable(a, b);
    assert (a + b)[..n] == a[..n] && (a + b)[n..] == a[n..] + b;
    CutFirst(a + b, n);
  }

  /** Cutting can stop anywhere and go on when more bytes arrive. */
  lemma {:induction false} CutResumes(a: bytes, b: bytes)
    ensures Cut(a + b).messages == Cut(a).messages + Cut(Cut(a).rest + b).messages
    ensures Cut(a + b).rest == Cut(Cut(a).rest + b).rest
    decreases |a|
  {
    var first := FirstMessage(a);
    if first.Some? {
      var n := first.value;
      CutResumes(a[n..], b);
      CutResumesAfterFirst(a, b, n);
      CutFirst(a, n);
      Associate([a[..n]], Cut(a[n..]).messages, Cut(Cut(a[n..]).rest + b).messages);
    }
  }

  lemma Associate<T>(a: seq<T>, b: seq<T>, c: seq<T>)
    ensures (a + b) + c == a + (b + c)
  {
  }

  /** Nothing is lost: the messages and the rest are the stream. */
  lemma {:induction false} CutConserves(stream: bytes)
    ensures Flat(Cut(stream).messages) + Cut(stream).rest == stream
    decreases |stream|
  {
    match FirstMessage(stream)
    case None =>
    case Some(n) =>
      CutConserves(stream[n..]);
      assert ([stream[..n]] + Cut(stream[n..]).messages)[1..] == Cut(stream[n..]).messages;
      assert stream == stream[..n] + stream[n..];
  }

  ghost function Flat(messages: seq<bytes>): bytes {
    if messages == [] then [] else messages[0] + Flat(messages[1..])
  }

  lemma FirstOfTlv(tag: byte, content: bytes, rest: bytes)
    requires |content| < FOUR_OCTETS
    ensures FirstMessage(Tlv(tag, content) + rest) == Some(|Tlv(tag, content)|)
  {
    LengthRoundTrip(|content|, content + rest);
    assert (Tlv(tag, content) + rest)[1..] == LengthOctets(|content|) + (content + rest);
  }

  ghost function Sequences(contents: seq<bytes>): seq<bytes> {
    seq(|contents|, i requires 0 <= i < |contents| => Sequence(contents[i]))
  }

  lemma SequenceIsFirst(content: bytes, later: bytes)
    requires |content| < FOUR_OCTETS
    ensures FirstMessage(Sequence(content) + later) == Some(|Sequence(content)|)
  {
    FirstOfTlv(0x30, content, later);
  }

  lemma NothingToCut(tail: bytes)
    requires FirstMessage(tail).None?
    ensures Cut(tail) == Framed([], tail)
  {
  }

  /** A concatenation of encoded sequences, and an incomplete tail, is cut back into exactly those sequences. */
  lemma {:induction false} CutSequences(contents: seq<bytes>, tail: bytes)
    requires forall i :: 0 <= i < |contents| ==> |contents[i]| < FOUR_OCTETS
    requires FirstMessage(tail).None?
    ensures Cut(Flat(Sequences(contents)) + tail) == Framed(Sequences(contents), tail)
  {
    hide Sequence, Cut, FirstMessage;
    if contents == [] {
      NothingToCut(tail);
      assert Flat(Sequences(contents)) + tail == tail;
    } else {
      var first, later := Sequence(contents[0]), Flat(Sequences(contents[1..])) + tail;
      CutSequences(contents[1..], tail);
      SequenceIsFirst(contents[0], later);
      assert Sequences(contents)[1..] == Sequences(contents[1..]);
      Associate(first, Flat(Sequences(contents[1..])), tail);
      assert Flat(Sequences(contents)) + tail == first + later;
      assert (first + later)[..|first|] == first && (first + later)[|first|..] == later;
      CutFirst(first + later, |first|);
      assert Sequences(contents) == [first] + Sequences(contents[1..]);
    }
  }

  // ---------- the search loop ----------

  /** What parseLDAPSearchResponse makes of one message. */
  datatype Response<+E> = Unparseable | Done | Entry(entry: E) | Ignored

  /** The entries before the first Done message; None when there is none. */
  ghost function Outcome<E>(messages: seq<bytes>, parse: bytes -> Response<E>): Option<seq<E>> {
    if messages == [] then None
    else match parse(messages[0])
      case Done => Some([])
      case Entry(e) =>
        (match Outcome(messages[1..], parse)
         case None => None
         case Some(more) => Some([e] + more))
      case _ => Outcome(messages[1..], parse)
  }

  ghost function EntriesOf<E>(messages: seq<bytes>, parse: bytes -> Response<E>): seq<E> {
    if messages == [] then []
    else (match parse(messages[0]) case Entry(e) => [e] case _ => []) + EntriesOf(messages[1..], parse)
  }

  lemma {:induction false} OutcomeAppend<E>(a: seq<bytes>, b: seq<bytes>, parse: bytes -> Response<E>)
    ensures Outcome(a, parse).Some? ==> Outcome(a + b, parse) == Outcome(a, parse)
    ensures Outcome(a, parse).None? && Outcome(b, parse).None? ==> Outcome(a + b, parse).None?
    ensures Outcome(a, parse).None? && Outcome(b, parse).Some? ==>
      Outcome(a + b, parse) == Some(EntriesOf(a, parse) + Outcome(b, parse).value)
  {
    if a == [] {
      assert a + b == b;
      if Outcome(b, parse).Some? {
        assert EntriesOf(a, parse) + Outcome(b, parse).value == Outcome(b, parse).value;
      }
    } else {
      OutcomeAppend(a[1..], b, parse);
      assert (a + b)[1..] == a[1..] + b;
      assert a + b != [] && (a + b)[0] == a[0];
      var more := EntriesOf(a[1..], parse);
      assert [] + more == more;
      if parse(a[0]).Entry? && Outcome(b, parse).Some? {
        Associate([parse(a[0]).entry], more, Outcome(b, parse).value);
      }
    }
  }

  lemma {:induction false} EntriesAppend<E>(a: seq<bytes>, b: seq<bytes>, parse: bytes -> Response<E>)
    ensures EntriesOf(a + b, parse) == EntriesOf(a, parse) + EntriesOf(b, parse)
  {
    if a == [] {
      assert a + b == b;
    } else {
      EntriesAppend(a[1..], b, parse);
      assert a + b == [a[0]] + (a[1..] + b);
      assert a == [a[0]] + a[1..];
      Associate(match parse(a[0]) case Entry(e) => [e] case _ => [], EntriesOf(a[1..], parse), EntriesOf(b, parse));
    }
  }

  /** Message k is the first that is Done. */
  ghost predicate FirstDone<E>(messages: seq<bytes>, parse: bytes -> Response<E>, k: int) {
    && 0 <= k < |messages| && parse(messages[k]).Done?
    && forall i :: 0 <= i < k ==> !parse(messages[i]).Done?
  }

  /** The entries of the messages before k that hold one, at these places, one for one and in order. */
  ghost predicate Lists<E>(
    messages: seq<bytes>, parse: bytes -> Response<E>, k: int, entries: seq<E>, at: seq<int>)
  {
    && |at| == |entries|
    && (forall i, j :: 0 <= i < j < |at| ==> at[i] < at[j])
    && (forall i :: i in at <==> 0 <= i < k <= |messages| && parse(messages[i]).Entry?)
    && (forall j :: 0 <= j < |at| && 0 <= at[j] < |messages| ==> parse(messages[at[j]]) == Entry(entries[j]))
  }

  /** What a search over these messages must answer. */
  ghost predicate Answers<E>(messages: seq<bytes>, parse: bytes -> Response<E>, r: Option<seq<E>>) {
    && (r.Some? <==> exists k :: 0 <= k < |messages| && parse(messages[k]).Done?)
    && (r.Some? ==> exists k, at :: FirstDone(messages, parse, k) && Lists(messages, parse, k, r.value, at))
  }

  lemma {:induction false} EntriesByPlace<E>(messages: seq<bytes>, parse: bytes -> Response<E>, k: nat)
    returns (at: seq<int>)
    requires k <= |messages|
    ensures Lists(messages, parse, k, EntriesOf(messages[..k], parse), at)
  {
    if k == 0 {
      at := [];
    } else {
      var before := EntriesByPlace(messages, parse, k - 1);
      assert messages[..k] == messages[..k - 1] + [messages[k - 1]];
      EntriesAppend(messages[..k - 1], [messages[k - 1]], parse);
      OneEntry(messages[k - 1], parse);
      ListsMore(messages, parse, k, EntriesOf(messages[..k - 1], parse), before);
      hide EntriesOf, Lists;
      at := if parse(messages[k - 1]).Entry? then before + [k - 1] else before;
    }
  }

  lemma OneEntry<E>(message: bytes, parse: bytes -> Response<E>)
    ensures EntriesOf([message], parse) == if parse(message).Entry? then [parse(message).entry] else []
    ensures Outcome([message], parse) == if parse(message).Done? then Some([]) else None
  {
  }

  lemma ListsMore<E>(messages: seq<bytes>, parse: bytes -> Response<E>, k: nat, entries: seq<E>, at: seq<int>)
    requires 0 < k <= |messages| && Lists(messages, parse, k - 1, entries, at)
    ensures var m := parse(messages[k - 1]);
      if m.Entry? then Lists(messages, parse, k, entries + [m.entry], at + [k - 1])
      else Lists(messages, parse, k, entries + [], at)
  {
    assert entries + [] == entries;
    assert forall j :: 0 <= j < |at| ==> at[j] in at;
  }

  lemma {:induction false} OutcomeIsBeforeDone<E>(messages: seq<bytes>, parse: bytes -> Response<E>)
    ensures Outcome(messages, parse).None? ==> forall k :: 0 <= k < |messages| ==> !parse(messages[k]).Done?
    ensures Outcome(messages, parse).Some? ==>
      exists k :: FirstDone(messages, parse, k) && Outcome(messages, parse).value == EntriesOf(messages[..k], parse)
  {
    if messages != [] && !parse(messages[0]).Done? {
      var rest := messages[1..];
      OutcomeIsBeforeDone(rest, parse);
      assert forall i :: 0 < i < |messages| ==> messages[i] == rest[i - 1];
      if Outcome(rest, parse).Some? {
        var k :| FirstDone(rest, parse, k) && Outcome(rest, parse).value == EntriesOf(rest[..k], parse);
        assert FirstDone(messages, parse, k + 1);
        assert messages[..k + 1][1..] == rest[..k];
        assert Outcome(messages, parse).value == EntriesOf(messages[..k + 1], parse);
      }
    } else if messages != [] {
      assert FirstDone(messages, parse, 0);
      assert messages[..0] == [];
    }
  }

  lemma OutcomeAnswers<E>(messages: seq<bytes>, parse: bytes -> Response<E>)
    ensures Answers(messages, parse, Outcome(messages, parse))
  {
    hide Lists, EntriesOf;
    OutcomeIsBeforeDone(messages, parse);
    if Outcome(messages, parse).Some? {
      var k :| FirstDone(messages, parse, k) && Outcome(messages, parse).value == EntriesOf(messages[..k], parse);
      var at := EntriesByPlace(messages, parse, k);
    }
  }

  method FindMessage(buf: bytes) returns (r: Option<nat>)
    ensures r == FirstMessage(buf)
  {
    if |buf| < 2 {
      return None;
    }
    var length := BerDecodeLength(buf[1..]);
    if length.None? || |buf| < length.value.octets + 1 + length.value.value {
      return None;
    }
    return Some(length.value.octets + 1 + length.value.value);
  }

  /**
   * The inner loop: consumes complete messages until one is Done or more data is needed.
   * seen is what was cut before; the stream so far is seen followed by buf.
   */
  method Drain<E>(buf: bytes, entries: seq<E>, parse: bytes -> Response<E>, ghost seen: seq<bytes>)
    returns (buf': bytes, entries': seq<E>, done: bool)
    requires Outcome(seen, parse).None? && entries == EntriesOf(seen, parse)
    ensures done ==> Outcome(seen + Cut(buf).messages, parse) == Some(entries')
    ensures !done ==> buf' == Cut(buf).rest && Outcome(seen + Cut(buf).messages, parse).None?
    ensures !done ==> entries' == EntriesOf(seen + Cut(buf).messages, parse)
  {
    hide Outcome, EntriesOf, Cut, FirstMessage;
    buf', entries', done := buf, entries, false;
    ghost var cut: seq<bytes> := seen;
    assert seen + Cut(buf).messages == cut + Cut(buf').messages;
    while true
      invariant seen + Cut(buf).messages == cut + Cut(buf').messages
      invariant Cut(buf).rest == Cut(buf').rest
      invariant Outcome(cut, parse).None? && entries' == EntriesOf(cut, parse)
      decreases |buf'|
    {
      var n := FindMessage(buf');
      if n.None? {
        ghost var nothing: seq<bytes> := [];
        NothingToCut(buf');
        assert cut + nothing == cut;
        return;
      }
      var message := buf'[..n.value];
      var later := buf'[n.value..];
      OutcomeAppend(cut, [message], parse);
      OutcomeAppend(cut + [message], Cut(later).messages, parse);
      EntriesAppend(cut, [message], parse);
      OneEntry(message, parse);
      CutFirst(buf', n.value);
      assert cut + Cut(buf').messages == (cut + [message]) + Cut(later).messages;
      buf' := later;
      var response := parse(message);
      if response.Done? {
        done := true;
        assert entries' + [] == entries';
        return;
      }
      if response.Entry? {
        entries' := entries' + [response.entry];
      }
      cut := cut + [message];
    }
  }

  /** ldapSearch's read loop. Running out of chunks is the connection's read error (or deadline). */
  method Search<E>(chunks: seq<bytes>, parse: bytes -> Response<E>) returns (r: Option<seq<E>>)
    ensures r == Outcome(Cut(Joined(chunks)).messages, parse)
    ensures Answers(Cut(Joined(chunks)).messages, parse, r)
  {
    OutcomeAnswers(Cut(Joined(chunks)).messages, parse);
    var buf: bytes := [];
    var entries: seq<E> := [];
    ghost var seen: seq<bytes> := [];
    for i := 0 to |chunks|
      invariant Cut(Joined(chunks[..i])) == Framed(seen, buf)
      invariant Outcome(seen, parse).None? && entries == EntriesOf(seen, parse)
    {
      ghost var soFar := Joined(chunks[..i]);
      assert chunks[..i + 1][..i] == chunks[..i];
      CutResumes(soFar, chunks[i]);
      ghost var before := buf + chunks[i];
      var done;
      buf, entries, done := Drain(buf + chunks[i], entries, parse, seen);
      seen := seen + Cut(before).messages;
      if done {
        JoinedPrefix(chunks, i + 1);
        CutResumes(Joined(chunks[..i + 1]), Joined(chunks[i + 1..]));
        OutcomeAppend(seen, Cut(Cut(Joined(chunks[..i + 1])).rest + Joined(chunks[i + 1..])).messages, parse);
        return Some(entries);
      }
    }
    assert chunks[..|chunks|] == chunks;
    return None;
  }

  lemma {:induction false} JoinedPrefix(chunks: seq<bytes>, i: nat)
    requires i <= |chunks|
    ensures Joined(chunks) == Joined(chunks[..i]) + Joined(chunks[i..])
    decreases |chunks|
  {
    if i == |chunks| {
      assert chunks[..i] == chunks;
    } else {
      var shorter := chunks[..|chunks| - 1];
      JoinedPrefix(shorter, i);
      assert shorter[..i] == chunks[..i] && chunks[i..][..|chunks[i..]| - 1] == shorter[i..];
    }
  }

  /** The same bytes give the same search result however the reads split them. */
  lemma ChunkingIsInvisible<E>(chunks: seq<bytes>, other: seq<bytes>, parse: bytes -> Response<E>)
    requires Joined(chunks) == Joined(other)
    ensures Cut(Joined(chunks)) == Cut(Joined(other))
    ensures forall i :: 0 <= i <= |chunks| ==> Cut(Joined(chunks[..i])).messages <= Cut(Joined(other)).messages
  {
    forall i | 0 <= i <= |chunks| ensures Cut(Joined(chunks[..i])).messages <= Cut(Joined(other)).messages {
      JoinedPrefix(chunks, i);
      CutResumes(Joined(chunks[..i]), Joined(chunks[i..]));
    }
  }

  /** Once a prefix of the stream decides the search, more bytes do not change it. */
  lemma PrefixDecides<E>(a: bytes, b: bytes, parse: bytes -> Response<E>)
    requires Outcome(Cut(a).messages, parse).Some?
    ensures Outcome(Cut(a + b).messages, parse) == Outcome(Cut(a).messages, parse)
  {
    CutResumes(a, b);
    OutcomeAppend(Cut(a).messages, Cut(Cut(a).rest + b).messages, parse);
  }
}
