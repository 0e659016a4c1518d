/** The parser accepts nothing but printed queries. */
module GraphQLAcceptance {
  import opened Text
  import opened GraphQLParser
  import opened GraphQLPrinter
  import opened GraphQLInverse

  // What was read between two places of the input is the text of something legal, whose value is what was read.

  // ---------- filler and words ----------

  lemma {:induction false} FillerTextAppend(f: Filler, g: Filler, k: string)
    ensures FillerText(f + g, k) == FillerText(f, FillerText(g, k))
  {
    if f == [] {
      assert f + g == g;
    } else {
      FillerTextAppend(f[1..], g, k);
      assert (f + g)[1..] == f[1..] + g;
    }
  }

  lemma {:induction false} BlanksAreFound(input: string, pos: nat) returns (f: Filler)
    requires pos <= |input|
    ensures Legal(f) && input[pos..] == FillerText(f, input[SkipBlanks(input, pos)..])
    ensures f == [] ==> SkipBlanks(input, pos) == pos
    decreases |input| - pos
  {
    f := [];
    if pos < |input| && IsFillerChar(input[pos]) {
      var rest := BlanksAreFound(input, pos + 1);
      f := [Blank(input[pos])] + rest;
      assert input[pos..] == [input[pos]] + input[pos + 1..];
      assert f[1..] == rest;
    }
  }

  lemma {:induction false} LineIsFound(input: string, pos: nat)
    requires pos <= |input|
    ensures var e := LineEnd(input, pos); '\n' !in input[pos..e] && (e < |input| ==> input[e] == '\n')
    decreases |input| - pos
  {
    if pos < |input| && input[pos] != '\n' {
      LineIsFound(input, pos + 1);
      assert input[pos..LineEnd(input, pos)] == [input[pos]] + input[pos + 1..LineEnd(input, pos)];
    }
  }

  /** What was skipped before a token is legal filler. */
  lemma {:induction false} FillerIsFound(input: string, pos: nat) returns (f: Filler)
    requires pos <= |input|
    ensures var p := SkipWhitespace(input, pos);
      p < |input| ==>
        && Legal(f) && input[pos..] == FillerText(f, input[p..]) && (f == [] ==> p == pos)
        && !IsFillerChar(input[p]) && input[p] != '#'
    decreases |input| - pos
  {
    hide FillerText, IsFillerChar;
    f := BlanksAreFound(input, pos);
    var b := SkipBlanks(input, pos);
    if Sees(input, b, '#') {
      var e := LineEnd(input, b);
      LineIsFound(input, b);
      if e < |input| {
        var later := FillerIsFound(input, e + 1);
        NewlineIsSkipped(input, e);
        if SkipWhitespace(input, pos) < |input| {
          var gap := Comment(input[b + 1..e]);
          var k := FillerText(later, input[SkipWhitespace(input, pos)..]);
          CommentIsFound(input, b, e, k);
          FillerTextAppend([gap], later, input[SkipWhitespace(input, pos)..]);
          FillerTextAppend(f, [gap] + later, input[SkipWhitespace(input, pos)..]);
          f := f + ([gap] + later);
        }
      }
    }
  }

  lemma NewlineIsSkipped(input: string, e: nat)
    requires Sees(input, e, '\n')
    ensures SkipWhitespace(input, e) == SkipWhitespace(input, e + 1)
  {
  }

  lemma CommentIsFound(input: string, b: nat, e: nat, k: string)
    requires b < e < |input| && input[b] == '#' && input[e] == '\n' && '\n' !in input[b..e] && input[e + 1..] == k
    ensures LegalGap(Comment(input[b + 1..e])) && input[b..] == FillerText([Comment(input[b + 1..e])], k)
  {
    var text := input[b + 1..e];
    assert forall i :: 0 <= i < |text| ==> text[i] == input[b..e][i + 1];
    assert input[b..] == "#" + (text + ("\n" + k));
    assert FillerText([Comment(text)], k) == GapText(Comment(text), k);
  }

  lemma {:induction false} WordIsFound(rt: Runtime, input: string, pos: nat)
    requires pos <= |input|
    ensures var e := WordEnd(rt, input, pos);
      && (forall i :: pos <= i < e ==> IsWordChar(rt, input[i]))
      && (e < |input| ==> !IsWordChar(rt, input[e]))
    decreases |input| - pos
  {
    if pos < |input| && IsWordChar(rt, input[pos]) {
      WordIsFound(rt, input, pos + 1);
    }
  }

  /** A name and the filler before the next token. */
  lemma NameIsFound(rt: Runtime, input: string, pos: nat) returns (f: Filler)
    requires pos <= |input| && Word(rt, input, pos) != ""
    ensures IsWord(rt, Word(rt, input, pos))
    ensures var p := SkipWhitespace(input, WordEnd(rt, input, pos));
      p < |input| ==>
        && Legal(f) && input[pos..] == Word(rt, input, pos) + FillerText(f, input[p..])
        && (f == [] ==> WordBreak(rt, input[p..])) && Token(input[p..])
  {
    hide SkipWhitespace, FillerText;
    var e := WordEnd(rt, input, pos);
    WordIsFound(rt, input, pos);
    f := FillerIsFound(input, e);
    assert input[pos..] == input[pos..e] + input[e..];
  }

  // ---------- literals ----------

  lemma FirstPiece(input: string, pos: nat, q: char) returns (piece: Piece)
    requires pos < |input| && q != '\\' && input[pos] != q && (input[pos] == '\\' ==> pos + 1 < |input|)
    ensures LegalPiece(piece, q) && 0 < |PieceText(piece)| <= |input| - pos
    ensures input[pos..pos + |PieceText(piece)|] == PieceText(piece)
  {
    if input[pos] == '\\' {
      var c := input[pos + 1];
      piece := if c == 'n' then Newline else if c == 't' then Tab
               else if c == '\\' || c == '"' || c == '\'' then Escaped(c) else Unknown(c);
    } else {
      piece := Plain(input[pos]);
    }
  }

  /** Where a string that is closed stands. */
  lemma ClosedString(input: string, pos: nat, q: char, buf: string)
    requires pos <= |input| && q != '\\' && StringRest(input, pos, q, buf).Ok?
    ensures pos < |input| && (input[pos] == '\\' ==> pos + 1 < |input|)
    ensures input[pos] == q ==> StringRest(input, pos, q, buf) == Ok(buf, pos + 1)
  {
  }

  lemma {:induction false} PiecesAreFound(input: string, pos: nat, q: char, buf: string) returns (ps: seq<Piece>)
    requires pos <= |input| && q != '\\' && StringRest(input, pos, q, buf).Ok?
    ensures forall i :: 0 <= i < |ps| ==> LegalPiece(ps[i], q)
    ensures var r := StringRest(input, pos, q, buf);
      r.value == buf + PiecesValue(ps) && input[pos..] == PiecesText(ps, [q] + input[r.pos..])
    decreases |input| - pos
  {
    hide StringRest, PieceText, PieceValue, LegalPiece;
    var r := StringRest(input, pos, q, buf);
    ClosedString(input, pos, q, buf);
    if input[pos] == q {
      ps := [];
      assert input[pos..] == [q] + input[pos + 1..];
      assert buf + "" == buf;
    } else {
      var piece := FirstPiece(input, pos, q);
      PieceStep(input, pos, q, piece, buf);
      var rest := PiecesAreFound(input, pos + |PieceText(piece)|, q, buf + PieceValue(piece));
      PieceIsFound(input, pos, piece, rest, [q] + input[r.pos..]);
      ps := [piece] + rest;
      Regroup(buf, PieceValue(piece), PiecesValue(rest));
    }
  }

  lemma PieceIsFound(input: string, pos: nat, piece: Piece, rest: seq<Piece>, k: string)
    requires pos + |PieceText(piece)| <= |input| && input[pos..pos + |PieceText(piece)|] == PieceText(piece)
    requires input[pos + |PieceText(piece)|..] == PiecesText(rest, k)
    ensures input[pos..] == PiecesText([piece] + rest, k)
    ensures PiecesValue([piece] + rest) == PieceValue(piece) + PiecesValue(rest)
  {
    assert ([piece] + rest)[1..] == rest;
    assert input[pos..] == input[pos..pos + |PieceText(piece)|] + input[pos + |PieceText(piece)|..];
  }

  lemma {:induction false} DigitsAreFound(input: string, pos: nat)
    requires pos <= |input|
    ensures var e := DigitsEnd(input, pos);
      AllDigits(input[pos..e]) && (e < |input| ==> !IsAsciiDigit(input[e]))
    decreases |input| - pos
  {
    if pos < |input| && IsAsciiDigit(input[pos]) {
      DigitsAreFound(input, pos + 1);
      var e := DigitsEnd(input, pos);
      assert input[pos..e] == [input[pos]] + input[pos + 1..e];
    }
  }

  /** Any digits are a number with zeros before it. */
  lemma {:induction false} DigitsAreDecimal(d: string) returns (zeros: nat, magnitude: nat)
    requires d != "" && AllDigits(d)
    ensures IntDigits(zeros, magnitude) == d
  {
    var n := |d| - 1;
    assert IsAsciiDigit(d[n]);
    var last := d[n] as int - '0' as int;
    assert Decimal(last) == [d[n]];
    if n == 0 {
      zeros, magnitude := 0, last;
      assert d == [d[n]];
    } else {
      assert d == d[..n] + [d[n]];
      zeros, magnitude := DigitsAreDecimal(d[..n]);
      if magnitude == 0 {
        assert IntDigits(zeros, 0) == seq(zeros + 1, _ => '0');
        zeros, magnitude := zeros + 1, last;
      } else {
        assert Decimal(magnitude * 10 + last) == Decimal(magnitude) + [d[n]];
        magnitude := magnitude * 10 + last;
      }
    }
  }

  /** Sign and digits of a number; without digits there is a sign. */
  lemma SignedDigitsAreFound(input: string, pos: nat) returns (negative: bool, digits: string)
    requires pos < |input| && (input[pos] == '-' || IsAsciiDigit(input[pos]))
    ensures var whole := DigitsEnd(input, SignEnd(input, pos));
      && AllDigits(digits) && (negative || digits != "") && input[pos..whole] == NumberText(negative, digits)
      && (whole < |input| ==> !IsAsciiDigit(input[whole]))
  {
    negative := input[pos] == '-';
    var first := SignEnd(input, pos);
    DigitsAreFound(input, first);
    digits := input[first..DigitsEnd(input, first)];
  }

  /** The literal l was read between the two places. */
  ghost predicate Reads(rt: Runtime, input: string, pos: nat, l: Literal, v: Value, p: nat) {
    && pos <= p <= |input| && LegalLiteral(rt, l) && LiteralValue(rt, l) == v
    && input[pos..] == LiteralText(l, input[p..])
  }

  lemma FloatIsFound(rt: Runtime, input: string, pos: nat) returns (l: Literal)
    requires pos < |input| && (input[pos] == '-' || IsAsciiDigit(input[pos])) && ParseNumberSpec(rt, input, pos).Ok?
    requires Sees(input, DigitsEnd(input, SignEnd(input, pos)), '.')
    ensures var r := ParseNumberSpec(rt, input, pos);
      && l.FloatLiteral? && Reads(rt, input, pos, l, r.value, r.pos)
      && (r.pos < |input| ==> !IsAsciiDigit(input[r.pos]))
  {
    hide SignEnd, NumberText, DigitsEnd;
    var whole := DigitsEnd(input, SignEnd(input, pos));
    var end := DigitsEnd(input, whole + 1);
    var negative, digits := SignedDigitsAreFound(input, pos);
    DigitsAreFound(input, whole + 1);
    l := FloatLiteral(negative, digits, input[whole + 1..end]);
    assert input[pos..end] == input[pos..whole] + ("." + input[whole + 1..end]);
    assert input[pos..] == input[pos..end] + input[end..];
  }

  lemma IntIsFound(rt: Runtime, input: string, pos: nat) returns (l: Literal)
    requires pos < |input| && (input[pos] == '-' || IsAsciiDigit(input[pos])) && ParseNumberSpec(rt, input, pos).Ok?
    requires !Sees(input, DigitsEnd(input, SignEnd(input, pos)), '.')
    ensures var r := ParseNumberSpec(rt, input, pos);
      && l.IntLiteral? && Reads(rt, input, pos, l, r.value, r.pos) && NumberBreak(input[r.pos..])
  {
    hide SignEnd, DigitsEnd, ScanInt, IntDigits;
    var whole := DigitsEnd(input, SignEnd(input, pos));
    var negative, digits := SignedDigitsAreFound(input, pos);
    SignAloneIsNoInt();
    assert NumberText(true, "") == "-";
    var zeros, magnitude := DigitsAreDecimal(digits);
    ScansIff(negative, zeros, magnitude);
    l := IntLiteral(negative, zeros, magnitude);
    assert input[pos..] == input[pos..whole] + input[whole..];
  }

  lemma SignAloneIsNoInt()
    ensures ScanInt("-") == None
  {
  }

  lemma QuotedIsFound(rt: Runtime, input: string, pos: nat) returns (l: Literal)
    requires pos < |input| && (input[pos] == '"' || input[pos] == '\'') && ParseValueSpec(rt, input, pos).Ok?
    ensures var r := ParseValueSpec(rt, input, pos); l.Quoted? && Reads(rt, input, pos, l, r.value, r.pos)
  {
    hide StringRest, PiecesText, PiecesValue;
    var ps := PiecesAreFound(input, pos + 1, input[pos], "");
    l := Quoted(input[pos], ps);
    assert input[pos..] == [input[pos]] + input[pos + 1..];
    assert "" + PiecesValue(ps) == PiecesValue(ps);
  }

  lemma VariableIsFound(rt: Runtime, input: string, pos: nat) returns (l: Literal)
    requires Sees(input, pos, '$') && ParseValueSpec(rt, input, pos).Ok?
    ensures var r := ParseValueSpec(rt, input, pos);
      l.Variable? && Reads(rt, input, pos, l, r.value, r.pos) && WordBreak(rt, input[r.pos..])
  {
    hide WordEnd;
    WordIsFound(rt, input, pos + 1);
    var end := WordEnd(rt, input, pos + 1);
    l := Variable(input[pos + 1..end]);
    assert input[pos..] == "$" + (input[pos + 1..end] + input[end..]);
    assert input[pos..end] == "$" + input[pos + 1..end];
  }

  predicate StartsOtherwise(c: char) {
    c == '"' || c == '\'' || c == '$' || c == '-' || IsAsciiDigit(c)
  }

  lemma WordIsLiteral(rt: Runtime, input: string, pos: nat) returns (l: Literal)
    requires Sane(rt) && pos < |input| && !StartsOtherwise(input[pos]) && ParseValueSpec(rt, input, pos).Ok?
    ensures var r := ParseValueSpec(rt, input, pos);
      (l.BoolLiteral? || l.NullLiteral? || l.EnumLiteral?) && Reads(rt, input, pos, l, r.value, r.pos)
      && WordBreak(rt, input[r.pos..])
  {
    hide ParseNumberSpec, WordEnd;
    var end := WordEnd(rt, input, pos);
    WordIsFound(rt, input, pos);
    var word := input[pos..end];
    assert input[pos..] == word + input[end..];
    assert end > pos by { WordGoesOn(rt, input, pos); }
    l := if word == "true" || word == "false" then BoolLiteral(word == "true")
         else if word == "null" then NullLiteral else EnumLiteral(word);
  }

  lemma WordGoesOn(rt: Runtime, input: string, pos: nat)
    requires pos < |input| && ParseValueSpec(rt, input, pos).Ok? && !StartsOtherwise(input[pos])
    ensures WordEnd(rt, input, pos) > pos
  {
  }

  lemma NumberIsValue(rt: Runtime, input: string, pos: nat)
    requires Sane(rt) && pos < |input| && (input[pos] == '-' || IsAsciiDigit(input[pos]))
    ensures ParseValueSpec(rt, input, pos) == ParseNumberSpec(rt, input, pos)
  {
    NumberIsNoWord(rt, input, pos);
  }

  /** A value that was read is a literal, and what follows does not continue it; after a float a dot may stand. */
  lemma LiteralIsFound(rt: Runtime, input: string, pos: nat) returns (l: Literal)
    requires Sane(rt) && pos <= |input| && ParseValueSpec(rt, input, pos).Ok?
    ensures var r := ParseValueSpec(rt, input, pos);
      && Reads(rt, input, pos, l, r.value, r.pos)
      && (r.pos < |input| && input[r.pos] != '.' ==> LiteralBreak(rt, l, input[r.pos..]))
  {
    hide ParseNumberSpec, Reads, DigitsEnd, SignEnd;
    assert pos < |input|;
    var ch := input[pos];
    if !StartsOtherwise(ch) {
      hide ParseValueSpec;
      l := WordIsLiteral(rt, input, pos);
    } else if ch == '$' {
      hide ParseValueSpec;
      l := VariableIsFound(rt, input, pos);
    } else if ch == '"' || ch == '\'' {
      hide ParseValueSpec;
      l := QuotedIsFound(rt, input, pos);
    } else {
      NumberIsValue(rt, input, pos);
      hide ParseValueSpec;
      if Sees(input, DigitsEnd(input, SignEnd(input, pos)), '.') {
        l := FloatIsFound(rt, input, pos);
      } else {
        l := IntIsFound(rt, input, pos);
      }
    }
  }

  // ---------- arguments ----------

  /** After a value comes filler and then a token. */
  lemma AfterValueIsFiller(input: string, pos: nat) returns (f: Filler)
    requires pos <= |input|
    ensures var p := AfterValue(input, pos);
      p < |input| ==>
        Legal(f) && input[pos..] == FillerText(f, input[p..]) && (f == [] ==> p == pos) && Token(input[p..])
  {
    f := FillerIsFound(input, pos);
  }

  /** The argument a was read between the two places, and what follows does not continue it. */
  ghost predicate ReadsArgument(rt: Runtime, input: string, pos: nat, a: Argument, p: nat) {
    && pos <= p <= |input| && LegalArgument(rt, a) && input[pos..] == ArgumentText(a, input[p..])
    && (p < |input| && input[p] != '.' && a.afterValue == [] ==> LiteralBreak(rt, a.value, input[p..]))
  }

  lemma ColonIsFound(rt: Runtime, input: string, pos: nat) returns (colon: nat)
    requires pos <= |input| && ParseArgumentSpec(rt, input, pos).Ok?
    ensures Word(rt, input, pos) != "" && Sees(input, colon, ':')
    ensures colon == SkipWhitespace(input, WordEnd(rt, input, pos))
    ensures ParseValueSpec(rt, input, SkipWhitespace(input, colon + 1)).Ok?
  {
    colon := SkipWhitespace(input, WordEnd(rt, input, pos));
  }

  lemma ArgumentIsFound(rt: Runtime, input: string, pos: nat) returns (a: Argument)
    requires Sane(rt) && pos <= |input| && ParseArgumentSpec(rt, input, pos).Ok?
    ensures var r := ParseArgumentSpec(rt, input, pos);
      r.pos < |input| ==>
        && ReadsArgument(rt, input, pos, a, r.pos) && r.value == (a.name, LiteralValue(rt, a.value))
        && Token(input[r.pos..])
  {
    hide ParseValueSpec, ParseArgumentSpec, LiteralText, LegalLiteral, LiteralValue, LiteralBreak, FillerText;
    hide SkipWhitespace, WordEnd, AfterValue;
    var colon := ColonIsFound(rt, input, pos);
    var start := SkipWhitespace(input, colon + 1);
    var v := ParseValueSpec(rt, input, start);
    ArgumentContinues(rt, input, pos, colon, v);
    var afterName := NameIsFound(rt, input, pos);
    var afterColon := FillerIsFound(input, colon + 1);
    var l := LiteralIsFound(rt, input, start);
    var afterValue := AfterValueIsFiller(input, v.pos);
    a := Argument(Word(rt, input, pos), afterName, afterColon, l, afterValue);
    assert start < |input| by { ValueStarts(rt, input, start); }
    assert input[colon..] == ":" + input[colon + 1..];
  }

  lemma ValueStarts(rt: Runtime, input: string, pos: nat)
    requires pos <= |input| && ParseValueSpec(rt, input, pos).Ok?
    ensures pos < |input|
  {
  }

  lemma {:induction false} ArgumentsAreFound(rt: Runtime, input: string, pos: nat, base: map<string, Value>)
    returns (args: seq<Argument>)
    requires Sane(rt) && pos <= |input| && ArgumentsRest(rt, input, pos, base).Ok?
    ensures LegalArguments(rt, args)
    ensures var r := ArgumentsRest(rt, input, pos, base);
      input[pos..] == ArgumentsText(args, ")" + input[r.pos..]) && r.value == ArgumentMap(rt, args, base)
    decreases |input| - pos
  {
    hide ParseArgumentSpec, ArgumentText, LegalArgument, LiteralValue, LiteralBreak;
    var r := ArgumentsRest(rt, input, pos, base);
    if input[pos] == ')' {
      args := [];
      assert input[pos..] == ")" + input[pos + 1..];
    } else {
      var a := ArgumentIsFound(rt, input, pos);
      var arg, p := ParseArgumentSpec(rt, input, pos).value, ParseArgumentSpec(rt, input, pos).pos;
      var rest := ArgumentsAreFound(rt, input, p, base[arg.0 := arg.1]);
      args := [a] + rest;
      assert args[1..] == rest;
      if rest != [] {
        NextArgumentBreaks(rt, input, pos, a, p, rest, ")" + input[r.pos..]);
      }
    }
  }

  /** The next argument's name does not continue a value it follows directly. */
  lemma NextArgumentBreaks(
    rt: Runtime, input: string, pos: nat, a: Argument, p: nat, rest: seq<Argument>, k: string)
    requires Sane(rt) && ReadsArgument(rt, input, pos, a, p) && rest != [] && LegalArgument(rt, rest[0])
    requires input[p..] == ArgumentsText(rest, k)
    ensures a.afterValue != [] || LiteralBreak(rt, a.value, rest[0].name)
  {
    var name := rest[0].name;
    assert input[p..][0] == name[0] by {
      assert ArgumentsText(rest, k)[0] == name[0];
    }
    assert input[p] == name[0];
    assert IsWordChar(rt, name[0]);
  }

  /** An optional argument list with filler behind it, and a token after that. */
  lemma ArgumentListIsFound(rt: Runtime, input: string, pos: nat) returns (list: Enclosed<Argument>)
    requires Sane(rt) && pos <= |input| && OptionalArguments(rt, input, pos).Ok?
    ensures var r := OptionalArguments(rt, input, pos);
      r.pos < |input| ==>
        && LegalArgumentList(rt, list) && input[pos..] == ArgumentListText(list, input[r.pos..])
        && r.value == ArgumentsOf(rt, list) && (list.Absent? <==> r.pos == pos)
        && (list.Enclosed? ==> Token(input[r.pos..]))
  {
    hide ArgumentsRest, ArgumentsText, LegalArguments, ArgumentMap, FillerText, SkipWhitespace;
    list := Absent;
    if Sees(input, pos, '(') {
      var first := SkipWhitespace(input, pos + 1);
      var end := ArgumentsRest(rt, input, first, map[]).pos;
      var open := FillerIsFound(input, pos + 1);
      var args := ArgumentsAreFound(rt, input, first, map[]);
      var close := FillerIsFound(input, end);
      list := Enclosed(open, args, close);
      assert input[pos..] == "(" + input[pos + 1..];
    }
  }

  // ---------- selections ----------

  lemma FieldParts(rt: Runtime, input: string, pos: nat)
    requires pos <= |input| && ParseFieldSpec(rt, input, pos).Ok?
    ensures Word(rt, input, pos) != ""
    ensures var args := OptionalArguments(rt, input, SkipWhitespace(input, WordEnd(rt, input, pos)));
      && args.Ok?
      && var name, r := Word(rt, input, pos), ParseFieldSpec(rt, input, pos);
         if Sees(input, args.pos, '{') then
           && ParseSelectionSpec(rt, input, args.pos).Ok?
           && var fields := ParseSelectionSpec(rt, input, args.pos);
              r == Ok(Field(name, args.value, fields.value), fields.pos)
         else r == Ok(Field(name, args.value, []), args.pos)
  {
    hide OptionalArguments, ParseSelectionSpec, SkipWhitespace;
  }

  /** A field is a selection, up to the next token; after a bare name without filler that is no word. */
  lemma {:induction false} SelectionIsFound(rt: Runtime, input: string, pos: nat) returns (s: Selection)
    requires Sane(rt) && pos <= |input| && ParseFieldSpec(rt, input, pos).Ok?
    ensures var r := ParseFieldSpec(rt, input, pos);
      r.pos < |input| ==>
        && LegalSelection(rt, s) && input[pos..] == SelectionText(s, input[r.pos..]) && r.value == Tree(rt, s)
        && Token(input[r.pos..])
        && (s.arguments.Absent? && s.fields.Absent? && s.afterName == [] ==> WordBreak(rt, input[r.pos..]))
    decreases |input| - pos, 1
  {
    hide OptionalArguments, ParseSelectionSpec, ParseFieldSpec, SkipWhitespace, FillerText;
    hide ArgumentListText, LegalArgumentList, ArgumentsOf, FieldsText, LegalFields, FieldsOf, WordEnd;
    FieldParts(rt, input, pos);
    var r := ParseFieldSpec(rt, input, pos);
    var afterName := NameIsFound(rt, input, pos);
    var lists := SkipWhitespace(input, WordEnd(rt, input, pos));
    var args := ArgumentListIsFound(rt, input, lists);
    var body := OptionalArguments(rt, input, lists).pos;
    var fields: Enclosed<Selection> := Absent;
    if Sees(input, body, '{') {
      fields := FieldsAreFound(rt, input, body);
    }
    s := Selection(Word(rt, input, pos), afterName, args, fields);
    if r.pos < |input| {
      NoFields(rt, input[r.pos..]);
    }
  }

  lemma NoFields(rt: Runtime, k: string)
    ensures LegalFields(rt, Absent) && FieldsText(Absent, k) == k && FieldsOf(rt, Absent) == []
  {
  }

  /** How the rest of a selection set is read: it ends, or it goes on with a field. */
  lemma FieldsGoOn(rt: Runtime, input: string, pos: nat, before: seq<Field>)
    requires pos <= |input| && FieldsRest(rt, input, pos, before).Ok?
    ensures pos < |input|
    ensures input[pos] == '}' ==> FieldsRest(rt, input, pos, before) == Ok(before, SkipWhitespace(input, pos + 1))
    ensures input[pos] != '}' ==>
      && ParseFieldSpec(rt, input, pos).Ok?
      && var f := ParseFieldSpec(rt, input, pos);
         FieldsRest(rt, input, pos, before) == FieldsRest(rt, input, SkipWhitespace(input, f.pos), before + [f.value])
  {
    hide ParseFieldSpec, SkipWhitespace;
  }

  lemma NoSelections(rt: Runtime, k: string)
    ensures LegalSelections(rt, []) && SelectionsText([], k) == k && Trees(rt, []) == []
  {
  }

  lemma OneSelectionMore(rt: Runtime, s: Selection, rest: seq<Selection>, k: string)
    requires LegalSelection(rt, s) && LegalSelections(rt, rest)
    requires s.arguments.Absent? && s.fields.Absent? && rest != [] ==> s.afterName != []
    ensures LegalSelections(rt, [s] + rest)
    ensures SelectionsText([s] + rest, k) == SelectionText(s, SelectionsText(rest, k))
    ensures Trees(rt, [s] + rest) == [Tree(rt, s)] + Trees(rt, rest)
  {
    assert ([s] + rest)[1..] == rest;
  }

  lemma TokenStays(input: string, pos: nat)
    requires pos < |input| && Token(input[pos..])
    ensures SkipWhitespace(input, pos) == pos
  {
    assert input[pos..][0] == input[pos];
  }

  lemma SelectionsStartWithName(rt: Runtime, ss: seq<Selection>, k: string)
    requires LegalSelections(rt, ss) && ss != []
    ensures var t := SelectionsText(ss, k); t != "" && IsWordChar(rt, t[0])
  {
  }

  /** The selections up to the brace that closes them, which is right before place q. */
  lemma {:induction false} SelectionsAreFound(rt: Runtime, input: string, pos: nat, before: seq<Field>)
    returns (ss: seq<Selection>, q: nat)
    requires Sane(rt) && pos <= |input| && FieldsRest(rt, input, pos, before).Ok?
    ensures LegalSelections(rt, ss) && pos < q <= |input|
    ensures input[pos..] == SelectionsText(ss, "}" + input[q..])
    ensures FieldsRest(rt, input, pos, before) == Ok(before + Trees(rt, ss), SkipWhitespace(input, q))
    decreases |input| - pos, 2
  {
    hide ParseFieldSpec, FieldsRest, SelectionText, SelectionsText, LegalSelection, LegalSelections, Tree, Trees;
    hide SkipWhitespace;
    FieldsGoOn(rt, input, pos, before);
    if input[pos] == '}' {
      ss, q := [], pos + 1;
      NoSelections(rt, "}" + input[q..]);
      assert input[pos..] == "}" + input[q..] && before + [] == before;
    } else {
      var f := ParseFieldSpec(rt, input, pos);
      FieldsGoOn(rt, input, SkipWhitespace(input, f.pos), before + [f.value]);
      var s := SelectionIsFound(rt, input, pos);
      TokenStays(input, f.pos);
      var rest;
      rest, q := SelectionsAreFound(rt, input, f.pos, before + [f.value]);
      if rest != [] {
        SelectionsStartWithName(rt, rest, "}" + input[q..]);
      }
      OneSelectionMore(rt, s, rest, "}" + input[q..]);
      ss := [s] + rest;
      assert (before + [f.value]) + Trees(rt, rest) == before + ([f.value] + Trees(rt, rest));
    }
  }

  /** A selection set up to the brace that closes it. */
  lemma {:induction false} SetIsFound(rt: Runtime, input: string, pos: nat)
    returns (open: Filler, ss: seq<Selection>, q: nat)
    requires Sane(rt) && pos <= |input| && ParseSelectionSpec(rt, input, pos).Ok?
    ensures Legal(open) && LegalSelections(rt, ss) && pos < q <= |input|
    ensures input[pos..] == "{" + FillerText(open, SelectionsText(ss, "}" + input[q..]))
    ensures ParseSelectionSpec(rt, input, pos) == Ok(Trees(rt, ss), SkipWhitespace(input, q))
    decreases |input| - pos, 0
  {
    hide FieldsRest, SelectionsText, LegalSelections, Trees, FillerText, SkipWhitespace;
    var first := SkipWhitespace(input, pos + 1);
    open := FillerIsFound(input, pos + 1);
    ss, q := SelectionsAreFound(rt, input, first, []);
    assert input[pos..] == "{" + input[pos + 1..];
    assert [] + Trees(rt, ss) == Trees(rt, ss);
  }

  lemma {:induction false} FieldsAreFound(rt: Runtime, input: string, pos: nat) returns (fields: Enclosed<Selection>)
    requires Sane(rt) && pos < |input| && input[pos] == '{' && ParseSelectionSpec(rt, input, pos).Ok?
    ensures fields.Enclosed?
    ensures var r := ParseSelectionSpec(rt, input, pos);
      r.pos < |input| ==>
        && LegalFields(rt, fields) && input[pos..] == FieldsText(fields, input[r.pos..])
        && r.value == FieldsOf(rt, fields) && Token(input[r.pos..])
    decreases |input| - pos, 1
  {
    hide ParseSelectionSpec, SelectionsText, LegalSelections, Trees, FillerText, SkipWhitespace;
    var open, ss, q := SetIsFound(rt, input, pos);
    var close := FillerIsFound(input, q);
    fields := Enclosed(open, ss, close);
  }

  // ---------- queries ----------

  lemma {:induction false} ParensAreFound(input: string, pos: nat, depth: int)
    requires pos <= |input| && SkipParens(input, pos, depth) < |input|
    ensures var p := SkipParens(input, pos, depth); pos < p && Closes(input[pos..p], depth)
    decreases |input| - pos
  {
    var p := SkipParens(input, pos, depth);
    if !(input[pos] == ')' && depth == 1) {
      var d := if input[pos] == '(' then depth + 1 else if input[pos] == ')' then depth - 1 else depth;
      ParensAreFound(input, pos + 1, d);
      assert input[pos..p] == [input[pos]] + input[pos + 1..p];
    }
  }

  lemma VariablesAreFound(input: string, pos: nat) returns (variables: string, f: Filler)
    requires pos <= |input|
    ensures var p := SkipVariables(input, pos);
      p < |input| ==>
        && (variables == "" || (variables[0] == '(' && Closes(variables, 0))) && Legal(f)
        && input[pos..] == (if variables == "" then input[p..] else variables + FillerText(f, input[p..]))
  {
    hide FillerText, SkipWhitespace, Closes;
    variables, f := "", [];
    if Sees(input, pos, '(') {
      var end := SkipParens(input, pos, 0);
      f := FillerIsFound(input, end);
      if SkipVariables(input, pos) < |input| {
        assert end < |input| by { SkippedStaysInside(input, end); }
        ParensAreFound(input, pos, 0);
        variables := input[pos..end];
        assert input[pos..] == input[pos..end] + input[end..];
      }
    }
  }

  lemma SkippedStaysInside(input: string, pos: nat)
    requires pos <= |input| && SkipWhitespace(input, pos) < |input|
    ensures pos < |input|
  {
  }

  lemma OperationNameIsFound(rt: Runtime, input: string, pos: nat) returns (name: string, f: Filler)
    requires pos < |input| && Token(input[pos..])
    ensures var p := SkipOperationName(rt, input, pos);
      p < |input| ==>
        && (name == "" || IsWord(rt, name)) && Legal(f)
        && input[pos..] == (if name == "" then input[p..] else name + FillerText(f, input[p..]))
        && (name != "" ==> IsWordChar(rt, input[pos]))
  {
    hide FillerText, SkipWhitespace, WordEnd;
    name, f := "", [];
    if input[pos] != '{' && input[pos] != '(' {
      WordIsFound(rt, input, pos);
      name := Word(rt, input, pos);
      if name != "" {
        f := NameIsFound(rt, input, pos);
      } else {
        TokenStays(input, pos);
      }
    }
  }

  /** The head of an accepted query is an operation, or nothing. */
  lemma HeadIsFound(rt: Runtime, input: string) returns (lead: Filler, o: Operation)
    requires Sane(rt) && BodyStart(rt, input) < |input|
    ensures Legal(lead) && LegalOperation(rt, o)
    ensures input == FillerText(lead, OperationText(o, input[BodyStart(rt, input)..]))
  {
    hide FillerText, SkipWhitespace, WordEnd, SkipVariables, SkipOperationName, LegalGap;
    var start := SkipWhitespace(input, 0);
    lead := FillerIsFound(input, 0);
    assert input[0..] == input;
    o := Shorthand;
    if IsOperation(Word(rt, input, start)) {
      var named := SkipWhitespace(input, WordEnd(rt, input, start));
      var body := SkipOperationName(rt, input, named);
      var gap := NameIsFound(rt, input, start);
      var variables, variablesGap := VariablesAreFound(input, body);
      assert body < |input| && named < |input|;
      var name, nameGap := OperationNameIsFound(rt, input, named);
      o := Operation(Word(rt, input, start), gap, name, nameGap, variables, variablesGap);
    }
  }

  /** Whatever is accepted is the text of a legal document, and its value is the document's tree. */
  lemma AcceptedIsPrinted(rt: Runtime, input: string) returns (d: Document, tail: string)
    requires Sane(rt) && ParseQuerySpec(rt, input).Ok?
    ensures LegalDocument(rt, d) && input == DocumentText(d, tail)
    ensures ParseQuerySpec(rt, input).value == Trees(rt, d.fields)
  {
    hide BodyStart, FillerText, SelectionsText, LegalSelections, Trees, OperationText, LegalOperation;
    var body := BodyStart(rt, input);
    var open, ss, q := SetIsFound(rt, input, body);
    var lead, o := HeadIsFound(rt, input);
    d, tail := Document(lead, o, open, ss), input[q..];
  }

  /** The parser accepts exactly the printed queries, with anything behind them. */
  lemma AcceptedIff(rt: Runtime, input: string)
    requires Sane(rt)
    ensures ParseQuerySpec(rt, input).Ok?
       <==> exists d: Document, tail: string :: LegalDocument(rt, d) && input == DocumentText(d, tail)
  {
    if ParseQuerySpec(rt, input).Ok? {
      var d, tail := AcceptedIsPrinted(rt, input);
    }
    if d: Document, tail: string :| LegalDocument(rt, d) && input == DocumentText(d, tail) {
      ParseInvertsPrint(rt, d, tail);
    }
  }
}
