/** Parsing inverts printing for GraphQL arguments, selections and whole queries. */
module GraphQLInverse {
  import opened Text
  import opened GraphQLParser
  import opened GraphQLPrinter

  // ---------- arguments ----------

  lemma LiteralStarts(rt: Runtime, l: Literal, k: string)
    requires Sane(rt) && LegalLiteral(rt, l)
    ensures Token(LiteralText(l, k))
  {
    var t := LiteralText(l, k);
    assert t[0] == '"' || t[0] == '\'' || t[0] == '$' || t[0] == '-' || IsWordChar(rt, t[0]) by {
      match l
      case IntLiteral(negative, zeros, magnitude) =>
        DigitsSay(zeros, magnitude);
        assert negative || t[0] == IntDigits(zeros, magnitude)[0];
      case FloatLiteral(negative, digits, fraction) => assert negative || t[0] == digits[0];
      case EnumLiteral(name) => assert t[0] == name[0];
      case BoolLiteral(b) => assert 'a' <= t[0] <= 'z';
      case NullLiteral => assert 'a' <= t[0] <= 'z';
      case _ =>
    }
  }

  /** A name, the filler after it and what comes then. */
  lemma NameIsRead(rt: Runtime, input: string, name: string, f: Filler, k: string)
    requires Sane(rt) && IsWord(rt, name) && Legal(f) && Token(k) && (f == [] ==> WordBreak(rt, k))
    requires Ends(input, name + FillerText(f, k))
    ensures Ends(input, k)
    ensures Word(rt, input, Pos(input, name + FillerText(f, k))) == name
    ensures SkipWhitespace(input, WordEnd(rt, input, Pos(input, name + FillerText(f, k)))) == Pos(input, k)
  {
    FillerBreaks(rt, f, k);
    WordIsRead(rt, input, name, FillerText(f, k));
    FillerIsSkipped(input, f, k);
  }

  /** What may follow an argument. */
  ghost predicate ArgumentBreak(rt: Runtime, a: Argument, k: string) {
    Token(k) && (a.afterValue == [] ==> LiteralBreak(rt, a.value, k))
  }

  lemma TokenIsNotSkipped(input: string, k: string)
    requires Ends(input, k) && Token(k)
    ensures SkipWhitespace(input, Pos(input, k)) == Pos(input, k)
  {
    assert FillerText([], k) == k;
    FillerIsSkipped(input, [], k);
  }

  /** A value with its filler is read, and no comma is left to skip. */
  lemma ValueIsRead(rt: Runtime, input: string, a: Argument, k: string)
    requires Sane(rt) && LegalArgument(rt, a) && ArgumentBreak(rt, a, k)
    requires Ends(input, LiteralText(a.value, FillerText(a.afterValue, k)))
    ensures Ends(input, k)
    ensures var r := ParseValueSpec(rt, input, Pos(input, LiteralText(a.value, FillerText(a.afterValue, k))));
      r.Ok? && r.value == LiteralValue(rt, a.value) && AfterValue(input, r.pos) == Pos(input, k)
  {
    FillerBreaks(rt, a.afterValue, k);
    LiteralIsParsed(rt, input, a.value, FillerText(a.afterValue, k));
    FillerIsSkipped(input, a.afterValue, k);
    Drop(input, "", k);
    assert "" + k == k;
  }

  lemma ArgumentIsParsed(rt: Runtime, input: string, a: Argument, k: string)
    requires Sane(rt) && LegalArgument(rt, a) && ArgumentBreak(rt, a, k) && Ends(input, ArgumentText(a, k))
    ensures Ends(input, k)
    ensures ParseArgumentSpec(rt, input, Pos(input, ArgumentText(a, k)))
         == Ok((a.name, LiteralValue(rt, a.value)), Pos(input, k))
  {
    hide ParseValueSpec, AfterValue, Word, WordEnd, SkipWhitespace, LiteralText, LiteralValue, FillerText;
    var value := LiteralText(a.value, FillerText(a.afterValue, k));
    var rest := FillerText(a.afterColon, value);
    NameIsRead(rt, input, a.name, a.afterName, ":" + rest);
    Drop(input, ":", rest);
    LiteralStarts(rt, a.value, FillerText(a.afterValue, k));
    FillerIsSkipped(input, a.afterColon, value);
    ValueIsRead(rt, input, a, k);
  }

  /** What follows an argument: the next name, or the closing parenthesis. */
  lemma ArgumentsStart(rt: Runtime, args: seq<Argument>, k: string)
    requires Sane(rt) && LegalArguments(rt, args)
    ensures var t := ArgumentsText(args, ")" + k);
      && Token(t) && t != "" && (t[0] == ')' <==> args == [])
      && (args == [] ==> WordBreak(rt, t) && NumberBreak(t)) && (args != [] ==> t[0] == args[0].name[0])
  {
    if args != [] {
      assert ArgumentsText(args, ")" + k)
          == args[0].name + ArgumentText(args[0], ArgumentsText(args[1..], ")" + k))[|args[0].name|..];
    }
  }

  lemma {:induction false} ArgumentsAreParsed(
    rt: Runtime, input: string, args: seq<Argument>, base: map<string, Value>, k: string)
    requires Sane(rt) && LegalArguments(rt, args) && Ends(input, ArgumentsText(args, ")" + k))
    ensures Ends(input, k)
    ensures ArgumentsRest(rt, input, Pos(input, ArgumentsText(args, ")" + k)), base)
         == Ok(ArgumentMap(rt, args, base), Pos(input, k))
    decreases |args|
  {
    hide ParseArgumentSpec, ArgumentText, LiteralValue, ParseValueSpec, SkipWhitespace;
    ArgumentsStart(rt, args, k);
    Drop(input, "", ArgumentsText(args, ")" + k));
    assert "" + ArgumentsText(args, ")" + k) == ArgumentsText(args, ")" + k);
    if args == [] {
      Drop(input, ")", k);
    } else {
      ArgumentsStart(rt, args[1..], k);
      ArgumentIsParsed(rt, input, args[0], ArgumentsText(args[1..], ")" + k));
      ArgumentsAreParsed(rt, input, args[1..], base[args[0].name := LiteralValue(rt, args[0].value)], k);
    }
  }

  lemma ArgumentListIsParsed(rt: Runtime, input: string, list: Enclosed<Argument>, k: string)
    requires Sane(rt) && LegalArgumentList(rt, list) && Ends(input, ArgumentListText(list, k))
    requires Token(k) && (k != "" ==> k[0] != '(')
    ensures Ends(input, k)
    ensures OptionalArguments(rt, input, Pos(input, ArgumentListText(list, k)))
         == Ok(ArgumentsOf(rt, list), Pos(input, k))
  {
    hide SkipWhitespace, FillerText;
    if list.Absent? {
      Drop(input, "", k);
      assert "" + k == k;
    } else {
      var close := FillerText(list.close, k);
      var items := ArgumentsText(list.items, ")" + close);
      Drop(input, "(", FillerText(list.open, items));
      ArgumentsStart(rt, list.items, close);
      FillerIsSkipped(input, list.open, items);
      ArgumentsAreParsed(rt, input, list.items, map[], close);
      FillerIsSkipped(input, list.close, k);
    }
  }

  // ---------- selections ----------

  /** What may follow a field: a token that does not open anything and, after a bare name, no word. */
  ghost predicate FieldBreak(rt: Runtime, s: Selection, k: string) {
    && Token(k) && (k != "" ==> k[0] != '(' && k[0] != '{')
    && (s.arguments.Absent? && s.fields.Absent? && s.afterName == [] ==> WordBreak(rt, k))
  }

  lemma ListsStart(rt: Runtime, s: Selection, k: string)
    requires Sane(rt) && FieldBreak(rt, s, k)
    ensures var fields := FieldsText(s.fields, k); var lists := ArgumentListText(s.arguments, fields);
      && Token(fields) && (fields != "" ==> fields[0] != '(')
      && (fields != "" && fields[0] == '{' <==> s.fields.Enclosed?)
      && Token(lists) && (s.afterName == [] ==> WordBreak(rt, lists))
  {
    var fields := FieldsText(s.fields, k);
    if s.fields.Enclosed? {
      assert fields == ['{'] + fields[1..];
    }
    if s.arguments.Enclosed? {
      var lists := ArgumentListText(s.arguments, fields);
      assert lists == ['('] + lists[1..];
    }
  }

  lemma {:induction false} SelectionIsParsed(rt: Runtime, input: string, s: Selection, k: string)
    requires Sane(rt) && LegalSelection(rt, s) && FieldBreak(rt, s, k) && Ends(input, SelectionText(s, k))
    ensures Ends(input, k)
    ensures ParseFieldSpec(rt, input, Pos(input, SelectionText(s, k))) == Ok(Tree(rt, s), Pos(input, k))
    decreases s, 1
  {
    hide OptionalArguments, ParseSelectionSpec, Word, WordEnd, SkipWhitespace;
    hide ArgumentListText, FillerText, ParseValueSpec;
    var fields := FieldsText(s.fields, k);
    var lists := ArgumentListText(s.arguments, fields);
    ListsStart(rt, s, k);
    NameIsRead(rt, input, s.name, s.afterName, lists);
    ArgumentListIsParsed(rt, input, s.arguments, fields);
    Drop(input, "", fields);
    assert "" + fields == fields;
    if s.fields.Enclosed? {
      FieldsAreParsed(rt, input, s.fields, k);
    }
  }

  /** What follows a field: the next name, or the closing brace. */
  lemma SelectionsStart(rt: Runtime, ss: seq<Selection>, k: string)
    requires Sane(rt) && LegalSelections(rt, ss)
    ensures var t := SelectionsText(ss, "}" + k);
      && Token(t) && t != "" && t[0] != '(' && t[0] != '{' && (t[0] == '}' <==> ss == [])
      && (ss == [] ==> WordBreak(rt, t))
  {
    if ss != [] {
      var s, rest := ss[0], SelectionsText(ss[1..], "}" + k);
      assert SelectionsText(ss, "}" + k) == SelectionText(s, rest);
    }
  }

  lemma {:induction false} SelectionsAreParsed(
    rt: Runtime, input: string, ss: seq<Selection>, before: seq<Field>, k: string)
    requires Sane(rt) && LegalSelections(rt, ss) && Ends(input, SelectionsText(ss, "}" + k))
    ensures Ends(input, k)
    ensures FieldsRest(rt, input, Pos(input, SelectionsText(ss, "}" + k)), before)
         == Ok(before + Trees(rt, ss), SkipWhitespace(input, Pos(input, k)))
    decreases ss, 0
  {
    hide ParseFieldSpec, SelectionText, SkipWhitespace;
    var text := SelectionsText(ss, "}" + k);
    SelectionsStart(rt, ss, k);
    if ss == [] {
      Drop(input, "}", k);
      assert before + Trees(rt, ss) == before;
    } else {
      var rest := SelectionsText(ss[1..], "}" + k);
      SelectionsStart(rt, ss[1..], k);
      SelectionIsParsed(rt, input, ss[0], rest);
      TokenIsNotSkipped(input, rest);
      SelectionsAreParsed(rt, input, ss[1..], before + [Tree(rt, ss[0])], k);
      assert (before + [Tree(rt, ss[0])]) + Trees(rt, ss[1..]) == before + Trees(rt, ss);
    }
  }

  lemma SetOpens(rt: Runtime, input: string, open: Filler, inner: string)
    requires Legal(open) && Token(inner) && Ends(input, "{" + FillerText(open, inner))
    ensures Ends(input, inner)
    ensures ParseSelectionSpec(rt, input, Pos(input, "{" + FillerText(open, inner)))
         == FieldsRest(rt, input, Pos(input, inner), [])
  {
    hide FieldsRest, FillerText, SkipWhitespace;
    Drop(input, "{", FillerText(open, inner));
    FillerIsSkipped(input, open, inner);
  }

  /** A selection set up to its brace; anything may follow. */
  lemma {:induction false} SetIsParsed(rt: Runtime, input: string, open: Filler, items: seq<Selection>, k: string)
    requires Sane(rt) && Legal(open) && LegalSelections(rt, items)
    requires Ends(input, "{" + FillerText(open, SelectionsText(items, "}" + k)))
    ensures Ends(input, k)
    ensures ParseSelectionSpec(rt, input, Pos(input, "{" + FillerText(open, SelectionsText(items, "}" + k))))
         == Ok(Trees(rt, items), SkipWhitespace(input, Pos(input, k)))
    decreases items, 1
  {
    SelectionsStart(rt, items, k);
    SetOpens(rt, input, open, SelectionsText(items, "}" + k));
    SelectionsAreParsed(rt, input, items, [], k);
    assert [] + Trees(rt, items) == Trees(rt, items);
  }

  lemma {:induction false} FieldsAreParsed(rt: Runtime, input: string, fields: Enclosed<Selection>, k: string)
    requires Sane(rt) && fields.Enclosed? && LegalFields(rt, fields) && Ends(input, FieldsText(fields, k)) && Token(k)
    ensures Ends(input, k)
    ensures ParseSelectionSpec(rt, input, Pos(input, FieldsText(fields, k))) == Ok(FieldsOf(rt, fields), Pos(input, k))
    decreases fields, 1
  {
    SetIsParsed(rt, input, fields.open, fields.items, FillerText(fields.close, k));
    FillerIsSkipped(input, fields.close, k);
  }

  // ---------- queries ----------

  /** An operation keyword with an optional name and optional variable definitions ("" when absent). */
  datatype Operation =
    | Shorthand
    | Operation(keyword: string, gap: Filler, name: string, nameGap: Filler, variables: string, variablesGap: Filler)

  datatype Document = Document(lead: Filler, operation: Operation, open: Filler, fields: seq<Selection>)

  function VariablesText(o: Operation, k: string): string
    requires o.Operation?
  {
    if o.variables == "" then k else o.variables + FillerText(o.variablesGap, k)
  }

  function NameText(o: Operation, k: string): string
    requires o.Operation?
  {
    if o.name == "" then k else o.name + FillerText(o.nameGap, k)
  }

  function OperationText(o: Operation, k: string): string {
    if o.Shorthand? then k else o.keyword + FillerText(o.gap, NameText(o, VariablesText(o, k)))
  }

  function BodyText(d: Document, k: string): string {
    "{" + FillerText(d.open, SelectionsText(d.fields, "}" + k))
  }

  function DocumentText(d: Document, k: string): string {
    FillerText(d.lead, OperationText(d.operation, BodyText(d, k)))
  }

  /** t closes the parentheses it opens, and the last of them only at its end. */
  predicate Closes(t: string, depth: int) {
    t != "" &&
    if t[0] == ')' && depth == 1 then |t| == 1
    else Closes(t[1..], if t[0] == '(' then depth + 1 else if t[0] == ')' then depth - 1 else depth)
  }

  ghost predicate LegalOperation(rt: Runtime, o: Operation) {
    o.Operation? ==>
      && o.keyword in {"query", "mutation", "subscription"} && Legal(o.gap) && Legal(o.nameGap) && Legal(o.variablesGap)
      && (o.name == "" || (IsWord(rt, o.name) && o.gap != []))
      && (o.variables == "" || (o.variables[0] == '(' && Closes(o.variables, 0)))
  }

  ghost predicate LegalDocument(rt: Runtime, d: Document) {
    Legal(d.lead) && LegalOperation(rt, d.operation) && Legal(d.open) && LegalSelections(rt, d.fields)
  }

  lemma {:induction false} ParensAreSkipped(input: string, t: string, depth: int, k: string)
    requires Ends(input, t + k) && Closes(t, depth)
    ensures Ends(input, k) && SkipParens(input, Pos(input, t + k), depth) == Pos(input, k)
    decreases |t|
  {
    Drop(input, t, k);
    if !(t[0] == ')' && depth == 1) {
      assert t + k == [t[0]] + (t[1..] + k);
      Drop(input, [t[0]], t[1..] + k);
      ParensAreSkipped(input, t[1..], if t[0] == '(' then depth + 1 else if t[0] == ')' then depth - 1 else depth, k);
    }
  }

  /** The text after the operation's head: it opens a list of variables or the body. */
  predicate Opens(k: string) {
    k != "" && (k[0] == '(' || k[0] == '{')
  }

  lemma OpeningBreaks(rt: Runtime, k: string)
    requires Sane(rt) && Opens(k)
    ensures Token(k) && WordBreak(rt, k)
  {
    assert k == [k[0]] + k[1..];
  }

  lemma VariablesAreSkipped(rt: Runtime, input: string, o: Operation, k: string)
    requires Sane(rt) && o.Operation? && LegalOperation(rt, o) && Ends(input, VariablesText(o, k))
    requires k != "" && k[0] == '{'
    ensures Ends(input, k) && SkipVariables(input, Pos(input, VariablesText(o, k))) == Pos(input, k)
    ensures Opens(VariablesText(o, k))
  {
    OpeningBreaks(rt, k);
    if o.variables == "" {
      Drop(input, "", k);
      assert "" + k == k;
    } else {
      Drop(input, o.variables, FillerText(o.variablesGap, k));
      ParensAreSkipped(input, o.variables, 0, FillerText(o.variablesGap, k));
      FillerIsSkipped(input, o.variablesGap, k);
    }
  }

  lemma OperationNameIsSkipped(rt: Runtime, input: string, o: Operation, k: string)
    requires Sane(rt) && o.Operation? && LegalOperation(rt, o) && Ends(input, NameText(o, k)) && Opens(k)
    ensures Ends(input, k) && SkipOperationName(rt, input, Pos(input, NameText(o, k))) == Pos(input, k)
    ensures Token(NameText(o, k)) && (o.name == "" ==> WordBreak(rt, NameText(o, k)))
  {
    OpeningBreaks(rt, k);
    if o.name == "" {
      Drop(input, "", k);
      assert "" + k == k;
    } else {
      Drop(input, o.name, FillerText(o.nameGap, k));
      NameIsRead(rt, input, o.name, o.nameGap, k);
    }
  }

  lemma OperationIsWord(rt: Runtime, keyword: string)
    requires Sane(rt) && IsOperation(keyword)
    ensures IsWord(rt, keyword)
  {
    KeywordIsWord(rt, "query");
    KeywordIsWord(rt, "mutation");
    KeywordIsWord(rt, "subscription");
  }

  lemma OperationIsSkipped(rt: Runtime, input: string, o: Operation, k: string)
    requires Sane(rt) && o.Operation? && LegalOperation(rt, o) && Ends(input, OperationText(o, k))
    requires k != "" && k[0] == '{'
    ensures Ends(input, k) && Word(rt, input, Pos(input, OperationText(o, k))) == o.keyword
    ensures var named := SkipWhitespace(input, WordEnd(rt, input, Pos(input, OperationText(o, k))));
      SkipVariables(input, SkipOperationName(rt, input, named)) == Pos(input, k)
    ensures Token(OperationText(o, k))
  {
    hide SkipVariables, SkipOperationName, Word, WordEnd, SkipWhitespace, FillerText, VariablesText, NameText;
    var variables := VariablesText(o, k);
    var name := NameText(o, variables);
    EndsLater(input, o, k);
    VariablesAreSkipped(rt, input, o, k);
    OperationNameIsSkipped(rt, input, o, variables);
    OperationIsWord(rt, o.keyword);
    NameIsRead(rt, input, o.keyword, o.gap, name);
  }

  lemma {:induction false} EndsAfterFiller(input: string, f: Filler, k: string)
    requires Ends(input, FillerText(f, k))
    ensures Ends(input, k)
    decreases |f|
  {
    if f != [] {
      var rest := FillerText(f[1..], k);
      match f[0] {
        case Blank(c) => Drop(input, [c], rest);
        case Comment(text) =>
          Drop(input, "#", text + ("\n" + rest));
          Drop(input, text, "\n" + rest);
          Drop(input, "\n", rest);
      }
      EndsAfterFiller(input, f[1..], k);
    }
  }

  lemma EndsLater(input: string, o: Operation, k: string)
    requires o.Operation? && Ends(input, OperationText(o, k))
    ensures Ends(input, NameText(o, VariablesText(o, k))) && Ends(input, VariablesText(o, k))
  {
    var variables := VariablesText(o, k);
    var name := NameText(o, variables);
    Drop(input, o.keyword, FillerText(o.gap, name));
    EndsAfterFiller(input, o.gap, name);
    if o.name != "" {
      Drop(input, o.name, FillerText(o.nameGap, variables));
      EndsAfterFiller(input, o.nameGap, variables);
    }
  }

  lemma BodyIsFound(rt: Runtime, input: string, d: Document, k: string)
    requires Sane(rt) && LegalDocument(rt, d) && input == DocumentText(d, k)
    ensures Ends(input, BodyText(d, k)) && BodyStart(rt, input) == Pos(input, BodyText(d, k))
  {
    var body := BodyText(d, k);
    var operation := OperationText(d.operation, body);
    assert Ends(input, input) && Pos(input, input) == 0;
    EndsAfterFiller(input, d.lead, operation);
    if d.operation.Shorthand? {
      OpeningBreaks(rt, body);
      Drop(input, "{", body[1..]);
      assert Word(rt, input, Pos(input, body)) == "";
    } else {
      OperationIsSkipped(rt, input, d.operation, body);
    }
    FillerIsSkipped(input, d.lead, operation);
  }

  /**
   * Parsing inverts printing: a query printed with any legal filler between its tokens, and with
   * anything at all after its last brace, parses to the tree that was printed.
   */
  lemma ParseInvertsPrint(rt: Runtime, d: Document, tail: string)
    requires Sane(rt) && LegalDocument(rt, d)
    ensures var r := ParseQuerySpec(rt, DocumentText(d, tail)); r.Ok? && r.value == Trees(rt, d.fields)
  {
    BodyIsFound(rt, DocumentText(d, tail), d, tail);
    SetIsParsed(rt, DocumentText(d, tail), d.open, d.fields, tail);
  }
}
