/**
 * Queries as written, with all their layout: filler between tokens (blanks, commas and comments), words, and literals
 * (numbers, strings with escapes, lists, objects and variables). For each of them the parser's functions, read at the
 * place where it was written, give back its value and the place behind it, provided that what follows cannot be taken
 * for a part of it.
 */
module GraphQLPrinter {
  import opened Text
  import opened GraphQLParser

  // ---------- filler ----------

  /** A blank (white space or comma), or a comment with the newline that ends it. */
  datatype Gap = Blank(c: char) | Comment(text: string)

  type Filler = seq<Gap>

  predicate LegalGap(g: Gap) {
    match g
    case Blank(c) => IsSpace(c) || c == ','
    case Comment(text) => '\n' !in text
  }

  predicate Legal(f: Filler) {
    forall i :: 0 <= i < |f| ==> LegalGap(f[i])
  }

  // Every printer takes the text k that follows, and returns its own text followed by k.

  function GapText(g: Gap, k: string): string {
    match g
    case Blank(c) => [c] + k
    case Comment(text) => "#" + (text + ("\n" + k))
  }

  function FillerText(f: Filler, k: string): string {
    if f == [] then k else GapText(f[0], FillerText(f[1..], k))
  }

  // ---------- literals ----------

  /**
   * A piece of a string literal: a character as it is, \n, \t, a backslash or quote behind a backslash, or any other
   * character behind one, which keeps its backslash.
   */
  datatype Piece = Plain(c: char) | Newline | Tab | Escaped(c: char) | Unknown(c: char)

  datatype Literal =
    | Quoted(quote: char, pieces: seq<Piece>)
    | Variable(name: string)
    | BoolLiteral(b: bool)
    | NullLiteral
    | IntLiteral(negative: bool, zeros: nat, magnitude: nat)
    | FloatLiteral(negative: bool, digits: string, fraction: string)
    | EnumLiteral(name: string)

  function PieceText(p: Piece): string {
    match p
    case Plain(c) => [c]
    case Newline => "\\n"
    case Tab => "\\t"
    case Escaped(c) => ['\\', c]
    case Unknown(c) => ['\\', c]
  }

  function PieceValue(p: Piece): string {
    match p
    case Plain(c) => [c]
    case Newline => "\n"
    case Tab => "\t"
    case Escaped(c) => [c]
    case Unknown(c) => ['\\', c]
  }

  predicate LegalPiece(p: Piece, quote: char) {
    match p
    case Plain(c) => c != quote && c != '\\'
    case Escaped(c) => c == '\\' || c == '"' || c == '\''
    case Unknown(c) => c != 'n' && c != 't' && c != '\\' && c != '"' && c != '\''
    case _ => true
  }

  function PiecesText(ps: seq<Piece>, k: string): string {
    if ps == [] then k else PieceText(ps[0]) + PiecesText(ps[1..], k)
  }

  function PiecesValue(ps: seq<Piece>): string {
    if ps == [] then "" else PieceValue(ps[0]) + PiecesValue(ps[1..])
  }

  /** An integer with leading zeros, in decimal. */
  function IntDigits(zeros: nat, magnitude: nat): string {
    seq(zeros, _ => '0') + Decimal(magnitude)
  }

  function IntText(negative: bool, zeros: nat, magnitude: nat): string {
    NumberText(negative, IntDigits(zeros, magnitude))
  }

  function IntValue(negative: bool, magnitude: nat): int {
    if negative then 0 - magnitude else magnitude
  }

  /** The range of a 64-bit int. */
  predicate InRange(n: int) {
    -0x8000_0000_0000_0000 <= n <= 0x7fff_ffff_ffff_ffff
  }

  function NumberText(negative: bool, digits: string): string {
    (if negative then "-" else "") + digits
  }

  function LiteralText(l: Literal, k: string): string {
    match l
    case Quoted(q, ps) => [q] + PiecesText(ps, [q] + k)
    case Variable(name) => "$" + (name + k)
    case BoolLiteral(b) => (if b then "true" else "false") + k
    case NullLiteral => "null" + k
    case IntLiteral(negative, zeros, magnitude) => IntText(negative, zeros, magnitude) + k
    case FloatLiteral(negative, digits, fraction) => DecimalText(negative, digits, fraction) + k
    case EnumLiteral(name) => name + k
  }

  function DecimalText(negative: bool, digits: string, fraction: string): string {
    NumberText(negative, digits) + ("." + fraction)
  }

  predicate AllDigits(s: string) {
    forall i :: 0 <= i < |s| ==> IsAsciiDigit(s[i])
  }

  predicate IsWord(rt: Runtime, s: string) {
    s != "" && forall i :: 0 <= i < |s| ==> rt.letter(s[i]) || rt.digit(s[i]) || s[i] == '_'
  }

  ghost predicate LegalLiteral(rt: Runtime, l: Literal) {
    match l
    case Quoted(q, ps) =>
      (q == '"' || q == '\'') && forall i :: 0 <= i < |ps| ==> LegalPiece(ps[i], q)
    case Variable(name) => IsWord(rt, name)
    case BoolLiteral(_) | NullLiteral => true
    case IntLiteral(negative, _, magnitude) => InRange(IntValue(negative, magnitude))
    case FloatLiteral(negative, digits, fraction) =>
      && (negative || digits != "") && AllDigits(digits) && AllDigits(fraction)
      && rt.scanFloat(DecimalText(l.negative, l.digits, l.fraction)).Some?
    case EnumLiteral(name) =>
      && IsWord(rt, name) && (rt.letter(name[0]) || name[0] == '_')
      && name != "true" && name != "false" && name != "null"
  }

  function LiteralValue(rt: Runtime, l: Literal): Value
    requires l.FloatLiteral? ==> rt.scanFloat(DecimalText(l.negative, l.digits, l.fraction)).Some?
  {
    match l
    case Quoted(_, ps) => Str(PiecesValue(ps))
    case Variable(name) => Str("$" + name)
    case BoolLiteral(b) => Bool(b)
    case NullLiteral => Null
    case IntLiteral(negative, _, magnitude) => Int(IntValue(negative, magnitude))
    case FloatLiteral(_, _, _) => Float(rt.scanFloat(DecimalText(l.negative, l.digits, l.fraction)).value)
    case EnumLiteral(name) => Str(name)
  }

  // ---------- fields ----------

  datatype Argument = Argument(name: string, afterName: Filler, afterColon: Filler, value: Literal, afterValue: Filler)

  /** An argument list or a selection set between its delimiters, with the filler inside and after them. */
  datatype Enclosed<T> = Absent | Enclosed(open: Filler, items: seq<T>, close: Filler)

  datatype Selection = Selection(
    name: string, afterName: Filler, arguments: Enclosed<Argument>, fields: Enclosed<Selection>)

  function ArgumentText(a: Argument, k: string): string {
    a.name + FillerText(a.afterName, ":" + FillerText(a.afterColon, LiteralText(a.value, FillerText(a.afterValue, k))))
  }

  function ArgumentsText(args: seq<Argument>, k: string): string {
    if args == [] then k else ArgumentText(args[0], ArgumentsText(args[1..], k))
  }

  function ArgumentListText(args: Enclosed<Argument>, k: string): string {
    match args
    case Absent => k
    case Enclosed(open, items, close) => "(" + FillerText(open, ArgumentsText(items, ")" + FillerText(close, k)))
  }

  function SelectionText(s: Selection, k: string): string
    decreases s, 1
  {
    s.name + FillerText(s.afterName, ArgumentListText(s.arguments, FieldsText(s.fields, k)))
  }

  function FieldsText(fields: Enclosed<Selection>, k: string): string
    decreases fields, 1
  {
    match fields
    case Absent => k
    case Enclosed(open, items, close) => "{" + FillerText(open, SelectionsText(items, "}" + FillerText(close, k)))
  }

  function SelectionsText(ss: seq<Selection>, k: string): string
    decreases ss
  {
    if ss == [] then k else SelectionText(ss[0], SelectionsText(ss[1..], k))
  }

  /** k does not continue a word. */
  ghost predicate WordBreak(rt: Runtime, k: string) {
    k != "" ==> !rt.letter(k[0]) && !rt.digit(k[0]) && k[0] != '_'
  }

  /** k does not continue a number. */
  predicate NumberBreak(k: string) {
    k != "" ==> !IsAsciiDigit(k[0]) && k[0] != '.'
  }

  /** k does not continue the literal. */
  ghost predicate LiteralBreak(rt: Runtime, l: Literal, k: string) {
    match l
    case Quoted(_, _) => true
    case IntLiteral(_, _, _) => NumberBreak(k)
    case FloatLiteral(_, _, _) => NumberBreak(k)
    case _ => WordBreak(rt, k)
  }

  ghost predicate LegalArgument(rt: Runtime, a: Argument) {
    && IsWord(rt, a.name) && LegalLiteral(rt, a.value)
    && Legal(a.afterName) && Legal(a.afterColon) && Legal(a.afterValue)
  }

  /** Legal arguments, with filler between a value and the next name where the name would continue the value. */
  ghost predicate LegalArguments(rt: Runtime, args: seq<Argument>) {
    args == [] || (
      && LegalArgument(rt, args[0])
      && (|args| > 1 ==> args[0].afterValue != [] || LiteralBreak(rt, args[0].value, args[1].name))
      && LegalArguments(rt, args[1..]))
  }

  ghost predicate LegalArgumentList(rt: Runtime, args: Enclosed<Argument>) {
    args.Enclosed? ==> Legal(args.open) && Legal(args.close) && LegalArguments(rt, args.items)
  }

  ghost predicate LegalSelection(rt: Runtime, s: Selection)
    decreases s, 1
  {
    IsWord(rt, s.name) && Legal(s.afterName) && LegalArgumentList(rt, s.arguments) && LegalFields(rt, s.fields)
  }

  ghost predicate LegalFields(rt: Runtime, fields: Enclosed<Selection>)
    decreases fields, 1
  {
    fields.Enclosed? ==> Legal(fields.open) && Legal(fields.close) && LegalSelections(rt, fields.items)
  }

  /** Legal selections, with filler between a bare name and the next name. */
  ghost predicate LegalSelections(rt: Runtime, ss: seq<Selection>)
    decreases ss
  {
    ss == [] || (
      && LegalSelection(rt, ss[0])
      && (|ss| > 1 && ss[0].arguments.Absent? && ss[0].fields.Absent? ==> ss[0].afterName != [])
      && LegalSelections(rt, ss[1..]))
  }

  // ---------- the tree that was printed ----------

  /** The arguments as a map: the last of several arguments with one name counts. */
  ghost function ArgumentMap(rt: Runtime, args: seq<Argument>, base: map<string, Value>): map<string, Value>
    requires LegalArguments(rt, args)
  {
    if args == [] then base
    else ArgumentMap(rt, args[1..], base[args[0].name := LiteralValue(rt, args[0].value)])
  }

  ghost function ArgumentsOf(rt: Runtime, args: Enclosed<Argument>): map<string, Value>
    requires LegalArgumentList(rt, args)
  {
    if args.Absent? then map[] else ArgumentMap(rt, args.items, map[])
  }

  ghost function Tree(rt: Runtime, s: Selection): Field
    requires LegalSelection(rt, s)
    decreases s, 1
  {
    Field(s.name, ArgumentsOf(rt, s.arguments), FieldsOf(rt, s.fields))
  }

  ghost function FieldsOf(rt: Runtime, fields: Enclosed<Selection>): seq<Field>
    requires LegalFields(rt, fields)
    decreases fields, 1
  {
    if fields.Absent? then [] else Trees(rt, fields.items)
  }

  ghost function Trees(rt: Runtime, ss: seq<Selection>): seq<Field>
    requires LegalSelections(rt, ss)
    decreases ss
  {
    if ss == [] then [] else [Tree(rt, ss[0])] + Trees(rt, ss[1..])
  }

  // ---------- reading text that ends the input ----------

  /** t ends input. */
  ghost predicate Ends(input: string, t: string) {
    |t| <= |input| && input[|input| - |t|..] == t
  }

  /** Where the end t of input starts. */
  ghost function Pos(input: string, t: string): nat
    requires Ends(input, t)
  {
    |input| - |t|
  }

  lemma Drop(input: string, a: string, k: string)
    requires Ends(input, a + k)
    ensures Ends(input, k) && Pos(input, k) == Pos(input, a + k) + |a|
    ensures input[Pos(input, a + k)..Pos(input, k)] == a
    ensures a != "" ==> input[Pos(input, a + k)] == a[0]
    ensures k != "" ==> input[Pos(input, k)] == k[0]
  {
    var s := input[Pos(input, a + k)..];
    assert s[..|a|] == a && s[|a|..] == k;
    assert a != "" ==> s[0] == (a + k)[0] == a[0];
    assert k != "" ==> s[|a|] == (a + k)[|a|] == k[0];
  }

  predicate IsPunctuation(c: char) {
    || c == '#' || c == '{' || c == '}' || c == '(' || c == ')' || c == ':'
    || c == '"' || c == '\'' || c == '$' || c == '-' || c == '.'
  }

  /** What the library's character classes must satisfy for names and punctuation to be told apart. */
  ghost predicate Sane(rt: Runtime) {
    && (forall c :: IsWordChar(rt, c) ==> !IsFillerChar(c) && !IsPunctuation(c))
    && (forall c :: 'a' <= c <= 'z' ==> rt.letter(c))
    && (forall c :: IsAsciiDigit(c) ==> rt.digit(c) && !rt.letter(c))
  }

  /** The classes of ASCII are sane, whatever the float conversion. */
  lemma AsciiIsSane(scanFloat: string -> Option<real>)
    ensures Sane(Runtime(c => 'a' <= c <= 'z' || 'A' <= c <= 'Z', IsAsciiDigit, scanFloat))
  {
    var rt := Runtime(c => 'a' <= c <= 'z' || 'A' <= c <= 'Z', IsAsciiDigit, scanFloat);
    assert forall c :: IsWordChar(rt, c) ==> '0' <= c <= '9' || 'A' <= c <= 'Z' || c == '_' || 'a' <= c <= 'z';
  }

  /** k starts with a token: not with filler. */
  predicate Token(k: string) {
    k != "" ==> !IsFillerChar(k[0]) && k[0] != '#'
  }

  // ---------- filler ----------

  lemma {:induction false} LineEndIsNewline(input: string, text: string, k: string)
    requires '\n' !in text && Ends(input, text + ("\n" + k))
    ensures Ends(input, "\n" + k) && LineEnd(input, Pos(input, text + ("\n" + k))) == Pos(input, "\n" + k)
    decreases |text|
  {
    var rest := "\n" + k;
    if text == "" {
      assert text + rest == rest;
      assert input[Pos(input, rest)] == '\n' by { Drop(input, "\n", k); }
    } else {
      assert text[0] in text;
      assert text + rest == [text[0]] + (text[1..] + rest);
      Drop(input, [text[0]], text[1..] + rest);
      LineEndIsNewline(input, text[1..], k);
    }
  }

  lemma CommentStep(input: string, p: nat, q: nat)
    requires p < |input| && input[p] == '#'
    requires 0 < q <= |input| && LineEnd(input, p + 1) == q - 1 && input[q - 1] == '\n'
    ensures SkipWhitespace(input, p) == SkipWhitespace(input, q)
  {
    assert LineEnd(input, p) == q - 1;
  }

  lemma CommentIsSkipped(input: string, text: string, k: string)
    requires '\n' !in text && Ends(input, "#" + (text + ("\n" + k)))
    ensures Ends(input, k)
    ensures SkipWhitespace(input, Pos(input, "#" + (text + ("\n" + k)))) == SkipWhitespace(input, Pos(input, k))
  {
    Drop(input, "#", text + ("\n" + k));
    LineEndIsNewline(input, text, k);
    Drop(input, "\n", k);
    CommentStep(input, Pos(input, "#" + (text + ("\n" + k))), Pos(input, k));
  }

  lemma GapIsSkipped(input: string, g: Gap, k: string)
    requires LegalGap(g) && Ends(input, GapText(g, k))
    ensures Ends(input, k) && SkipWhitespace(input, Pos(input, GapText(g, k))) == SkipWhitespace(input, Pos(input, k))
  {
    match g
    case Blank(c) =>
      Drop(input, [c], k);
    case Comment(text) => CommentIsSkipped(input, text, k);
  }

  /** Legal filler before a token is skipped, all of it. */
  lemma {:induction false} FillerIsSkipped(input: string, f: Filler, k: string)
    requires Legal(f) && Ends(input, FillerText(f, k)) && Token(k)
    ensures Ends(input, k) && SkipWhitespace(input, Pos(input, FillerText(f, k))) == Pos(input, k)
    decreases |f|
  {
    if f == [] {
      assert input[Pos(input, k)..] == k;
    } else {
      GapIsSkipped(input, f[0], FillerText(f[1..], k));
      FillerIsSkipped(input, f[1..], k);
    }
  }

  /** Filler, where there is some, ends words and numbers. */
  lemma FillerBreaks(rt: Runtime, f: Filler, k: string)
    requires Sane(rt) && Legal(f)
    ensures f == [] || WordBreak(rt, FillerText(f, k))
    ensures f == [] || NumberBreak(FillerText(f, k))
  {
    if f != [] {
      var c := FillerText(f, k)[0];
      assert IsFillerChar(c) || c == '#';
      assert IsAsciiDigit(c) ==> IsWordChar(rt, c);
    }
  }

  // ---------- words and literals ----------

  lemma {:induction false} WordIsRead(rt: Runtime, input: string, word: string, k: string)
    requires Ends(input, word + k) && WordBreak(rt, k)
    requires forall i :: 0 <= i < |word| ==> IsWordChar(rt, word[i])
    ensures Ends(input, k) && WordEnd(rt, input, Pos(input, word + k)) == Pos(input, k)
    ensures Word(rt, input, Pos(input, word + k)) == word
    decreases |word|
  {
    Drop(input, word, k);
    if word == "" {
      assert word + k == k;
    } else {
      assert word + k == [word[0]] + (word[1..] + k);
      Drop(input, [word[0]], word[1..] + k);
      WordIsRead(rt, input, word[1..], k);
    }
  }

  lemma Regroup(a: string, b: string, c: string)
    ensures (a + b) + c == a + (b + c)
  {
  }

  lemma PieceStep(input: string, p: nat, q: char, piece: Piece, buf: string)
    requires q != '\\' && LegalPiece(piece, q)
    requires p + |PieceText(piece)| <= |input| && input[p..p + |PieceText(piece)|] == PieceText(piece)
    ensures StringRest(input, p, q, buf) == StringRest(input, p + |PieceText(piece)|, q, buf + PieceValue(piece))
  {
    var text := input[p..p + |PieceText(piece)|];
    assert input[p] == text[0];
    assert !piece.Plain? ==> input[p + 1] == text[1];
  }

  lemma QuoteEndsString(input: string, q: char, k: string, buf: string)
    requires q != '\\' && Ends(input, [q] + k)
    ensures Ends(input, k) && StringRest(input, Pos(input, [q] + k), q, buf) == Ok(buf, Pos(input, k))
  {
    Drop(input, [q], k);
  }

  lemma {:induction false} PiecesAreRead(input: string, q: char, ps: seq<Piece>, k: string, buf: string)
    requires q != '\\'
    requires forall i :: 0 <= i < |ps| ==> LegalPiece(ps[i], q)
    requires Ends(input, PiecesText(ps, [q] + k))
    ensures Ends(input, k)
    ensures StringRest(input, Pos(input, PiecesText(ps, [q] + k)), q, buf) == Ok(buf + PiecesValue(ps), Pos(input, k))
    decreases |ps|
  {
    hide PieceText, PieceValue, LegalPiece, StringRest;
    if ps == [] {
      QuoteEndsString(input, q, k, buf);
      assert buf + PiecesValue(ps) == buf;
    } else {
      assert PiecesText(ps, [q] + k) == PieceText(ps[0]) + PiecesText(ps[1..], [q] + k);
      Drop(input, PieceText(ps[0]), PiecesText(ps[1..], [q] + k));
      PieceStep(input, Pos(input, PiecesText(ps, [q] + k)), q, ps[0], buf);
      PiecesAreRead(input, q, ps[1..], k, buf + PieceValue(ps[0]));
      Regroup(buf, PieceValue(ps[0]), PiecesValue(ps[1..]));
    }
  }

  lemma {:induction false} DigitsAreRead(input: string, digits: string, k: string)
    requires AllDigits(digits) && Ends(input, digits + k) && (k != "" ==> !IsAsciiDigit(k[0]))
    ensures Ends(input, k) && DigitsEnd(input, Pos(input, digits + k)) == Pos(input, k)
    decreases |digits|
  {
    Drop(input, digits, k);
    if digits == "" {
      assert digits + k == k;
    } else {
      assert digits + k == [digits[0]] + (digits[1..] + k);
      Drop(input, [digits[0]], digits[1..] + k);
      DigitsAreRead(input, digits[1..], k);
    }
  }

  lemma SignedDigitsAreRead(input: string, negative: bool, digits: string, k: string)
    requires (negative || digits != "") && AllDigits(digits) && Ends(input, NumberText(negative, digits) + k)
    requires k != "" ==> !IsAsciiDigit(k[0])
    ensures Ends(input, k)
    ensures DigitsEnd(input, SignEnd(input, Pos(input, NumberText(negative, digits) + k))) == Pos(input, k)
  {
    if negative {
      assert NumberText(negative, digits) + k == "-" + (digits + k);
      Drop(input, "-", digits + k);
    } else {
      assert NumberText(negative, digits) == digits;
      Drop(input, digits, k);
    }
    DigitsAreRead(input, digits, k);
  }

  /** A number is what its decimal digits say, with any zeros before them. */
  lemma {:induction false} DigitsSay(zeros: nat, n: nat)
    ensures AllDigits(IntDigits(zeros, n)) && IntDigits(zeros, n) != "" && Natural(IntDigits(zeros, n)) == n
    decreases zeros + n
  {
    var digits := IntDigits(zeros, n);
    if n < 10 {
      ZerosSayNothing(zeros);
      assert digits[..zeros] == seq(zeros, _ => '0');
    } else {
      DigitsSay(zeros, n / 10);
      assert digits[..|digits| - 1] == IntDigits(zeros, n / 10);
    }
  }

  lemma {:induction false} ZerosSayNothing(zeros: nat)
    ensures AllDigits(seq(zeros, _ => '0')) && Natural(seq(zeros, _ => '0')) == 0
  {
    if zeros > 0 {
      ZerosSayNothing(zeros - 1);
      assert seq(zeros, _ => '0')[..zeros - 1] == seq(zeros - 1, _ => '0');
    }
  }

  /** An integer is read exactly when it is in range, and as what it says. */
  lemma ScansIff(negative: bool, zeros: nat, magnitude: nat)
    ensures var n := IntValue(negative, magnitude);
      ScanInt(IntText(negative, zeros, magnitude)) == if InRange(n) then Some(n) else None
  {
    DigitsSay(zeros, magnitude);
    var digits := IntDigits(zeros, magnitude);
    assert ("-" + digits)[1..] == digits && ("-" + digits)[0] == '-';
    assert "" + digits == digits;
  }

  lemma IntIsRead(rt: Runtime, input: string, negative: bool, zeros: nat, magnitude: nat, k: string)
    requires Ends(input, IntText(negative, zeros, magnitude) + k) && NumberBreak(k)
    ensures Ends(input, k)
    ensures var text, n := IntText(negative, zeros, magnitude), IntValue(negative, magnitude);
      ParseNumberSpec(rt, input, Pos(input, text + k))
        == if InRange(n) then Ok(Int(n), Pos(input, k)) else Err(InvalidNumber(text))
  {
    hide ScanInt, IntDigits;
    DigitsSay(zeros, magnitude);
    ScansIff(negative, zeros, magnitude);
    SignedDigitsAreRead(input, negative, IntDigits(zeros, magnitude), k);
    Drop(input, IntText(negative, zeros, magnitude), k);
  }

  /** An integer argument is its value when that fits into 64 bits, and an error otherwise. */
  lemma IntIsParsed(rt: Runtime, input: string, negative: bool, zeros: nat, magnitude: nat, k: string)
    requires Sane(rt) && Ends(input, IntText(negative, zeros, magnitude) + k) && NumberBreak(k)
    ensures Ends(input, k)
    ensures var text, n := IntText(negative, zeros, magnitude), IntValue(negative, magnitude);
      ParseValueSpec(rt, input, Pos(input, text + k))
        == if InRange(n) then Ok(Int(n), Pos(input, k)) else Err(InvalidNumber(text))
  {
    hide ParseNumberSpec, ParseValueSpec, IntDigits;
    DigitsSay(zeros, magnitude);
    NumberIsParsed(rt, input, IntText(negative, zeros, magnitude), k);
    IntIsRead(rt, input, negative, zeros, magnitude, k);
  }

  lemma FractionIsRead(input: string, fraction: string, k: string)
    requires AllDigits(fraction) && Ends(input, "." + (fraction + k)) && NumberBreak(k)
    ensures Ends(input, k)
    ensures var point := Pos(input, "." + (fraction + k));
      Sees(input, point, '.') && DigitsEnd(input, point + 1) == Pos(input, k)
  {
    Drop(input, ".", fraction + k);
    DigitsAreRead(input, fraction, k);
  }

  lemma DecimalParts(negative: bool, digits: string, fraction: string, k: string)
    ensures DecimalText(negative, digits, fraction) + k == NumberText(negative, digits) + ("." + (fraction + k))
  {
  }

  lemma DecimalEnds(input: string, negative: bool, digits: string, fraction: string, k: string)
    requires (negative || digits != "") && AllDigits(digits) && AllDigits(fraction) && NumberBreak(k)
    requires Ends(input, DecimalText(negative, digits, fraction) + k)
    ensures Ends(input, k)
    ensures var p := Pos(input, DecimalText(negative, digits, fraction) + k);
      var point := DigitsEnd(input, SignEnd(input, p));
      && Sees(input, point, '.') && DigitsEnd(input, point + 1) == Pos(input, k)
      && input[p..Pos(input, k)] == DecimalText(negative, digits, fraction)
  {
    Drop(input, DecimalText(negative, digits, fraction), k);
    DecimalParts(negative, digits, fraction, k);
    SignedDigitsAreRead(input, negative, digits, "." + (fraction + k));
    FractionIsRead(input, fraction, k);
  }

  /** A number with a point, once it is known where its parts end. */
  lemma PointMakesFloat(rt: Runtime, input: string, p: nat, end: nat)
    requires p <= |input|
    requires var point := DigitsEnd(input, SignEnd(input, p));
      Sees(input, point, '.') && DigitsEnd(input, point + 1) == end && p <= end <= |input|
    requires rt.scanFloat(input[p..end]).Some?
    ensures ParseNumberSpec(rt, input, p) == Ok(Float(rt.scanFloat(input[p..end]).value), end)
  {
    hide DigitsEnd, SignEnd;
  }

  lemma {:induction false} FloatIsRead(rt: Runtime, input: string, l: Literal, k: string)
    requires l.FloatLiteral? && LegalLiteral(rt, l) && Ends(input, LiteralText(l, k)) && NumberBreak(k)
    ensures Ends(input, k)
    ensures ParseNumberSpec(rt, input, Pos(input, LiteralText(l, k))) == Ok(LiteralValue(rt, l), Pos(input, k))
  {
    hide DigitsEnd, SignEnd, ParseNumberSpec, Ends, DecimalText, AllDigits, NumberBreak;
    DecimalEnds(input, l.negative, l.digits, l.fraction, k);
    PointMakesFloat(rt, input, Pos(input, LiteralText(l, k)), Pos(input, k));
  }

  /** No number starts a word that reads true, false or null. */
  lemma NumberIsNoWord(rt: Runtime, input: string, p: nat)
    requires Sane(rt) && p < |input| && (input[p] == '-' || IsAsciiDigit(input[p]))
    ensures var w := Word(rt, input, p); w != "true" && w != "false" && w != "null"
  {
    if WordEnd(rt, input, p) > p {
      assert Word(rt, input, p)[0] == input[p];
    }
  }

  lemma NumberIsParsed(rt: Runtime, input: string, number: string, k: string)
    requires Sane(rt) && number != "" && (number[0] == '-' || IsAsciiDigit(number[0])) && Ends(input, number + k)
    ensures ParseValueSpec(rt, input, Pos(input, number + k)) == ParseNumberSpec(rt, input, Pos(input, number + k))
  {
    Drop(input, number, k);
    NumberIsNoWord(rt, input, Pos(input, number + k));
  }

  lemma WordIsParsed(rt: Runtime, input: string, word: string, k: string)
    requires Sane(rt) && IsWord(rt, word) && (rt.letter(word[0]) || word[0] == '_')
    requires Ends(input, word + k) && WordBreak(rt, k)
    ensures Ends(input, k)
    ensures ParseValueSpec(rt, input, Pos(input, word + k))
         == Ok(if word == "true" then Bool(true) else if word == "false" then Bool(false)
               else if word == "null" then Null else Str(word), Pos(input, k))
  {
    Drop(input, word, k);
    WordIsRead(rt, input, word, k);
    assert IsWordChar(rt, word[0]);
  }

  lemma KeywordIsWord(rt: Runtime, word: string)
    requires Sane(rt) && word != "" && forall i :: 0 <= i < |word| ==> 'a' <= word[i] <= 'z'
    ensures IsWord(rt, word) && rt.letter(word[0])
  {
  }

  lemma VariableText(input: string, name: string, k: string)
    requires Ends(input, "$" + (name + k))
    ensures Ends(input, name + k) && Ends(input, k)
    ensures var p := Pos(input, "$" + (name + k));
      Sees(input, p, '$') && Pos(input, name + k) == p + 1 && input[p..Pos(input, k)] == "$" + name
  {
    Drop(input, "$", name + k);
    Drop(input, name, k);
    var p := Pos(input, "$" + (name + k));
    assert input[p..Pos(input, k)] == input[p..p + 1] + input[p + 1..Pos(input, k)];
  }

  lemma VariableIsParsed(rt: Runtime, input: string, name: string, k: string)
    requires Sane(rt) && IsWord(rt, name) && Ends(input, "$" + (name + k)) && WordBreak(rt, k)
    ensures Ends(input, k)
    ensures ParseValueSpec(rt, input, Pos(input, "$" + (name + k))) == Ok(Str("$" + name), Pos(input, k))
  {
    VariableText(input, name, k);
    WordIsRead(rt, input, name, k);
  }

  lemma QuotedIsParsed(rt: Runtime, input: string, q: char, ps: seq<Piece>, k: string)
    requires LegalLiteral(rt, Quoted(q, ps)) && Ends(input, [q] + PiecesText(ps, [q] + k))
    ensures Ends(input, k)
    ensures ParseValueSpec(rt, input, Pos(input, [q] + PiecesText(ps, [q] + k)))
         == Ok(Str(PiecesValue(ps)), Pos(input, k))
  {
    hide StringRest, PiecesText, PiecesValue;
    Drop(input, [q], PiecesText(ps, [q] + k));
    PiecesAreRead(input, q, ps, k, "");
    assert "" + PiecesValue(ps) == PiecesValue(ps);
  }

  /** Every legal literal is read back, up to the text after it. */
  lemma LiteralIsParsed(rt: Runtime, input: string, l: Literal, k: string)
    requires Sane(rt) && LegalLiteral(rt, l)
    requires Ends(input, LiteralText(l, k)) && LiteralBreak(rt, l, k)
    ensures Ends(input, k)
    ensures ParseValueSpec(rt, input, Pos(input, LiteralText(l, k))) == Ok(LiteralValue(rt, l), Pos(input, k))
  {
    match l
    case Quoted(q, ps) => QuotedIsParsed(rt, input, q, ps, k);
    case Variable(name) => VariableIsParsed(rt, input, name, k);
    case BoolLiteral(b) =>
      KeywordIsWord(rt, if b then "true" else "false");
      WordIsParsed(rt, input, if b then "true" else "false", k);
    case NullLiteral =>
      KeywordIsWord(rt, "null");
      WordIsParsed(rt, input, "null", k);
    case EnumLiteral(name) => WordIsParsed(rt, input, name, k);
    case IntLiteral(negative, zeros, magnitude) => IntIsParsed(rt, input, negative, zeros, magnitude, k);
    case FloatLiteral(negative, digits, fraction) =>
      NumberIsParsed(rt, input, DecimalText(negative, digits, fraction), k);
      FloatIsRead(rt, input, l, k);
  }
}
