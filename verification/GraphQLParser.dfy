/**
 * The recursive-descent GraphQL parser: internal/graphql/schema.go. Positions index the sequence of code points.
 * Every method of the parser is proved against a function of the input and a position that returns the value read
 * and the position after it; those functions also bound the positions, which is why the parser always terminates.
 */
module GraphQLParser {
  import opened Text

  datatype Option<+T> = None | Some(value: T)

  /** unicode.IsLetter, unicode.IsDigit and the conversion of decimal text to float64. */
  datatype Runtime = Runtime(letter: char -> bool, digit: char -> bool, scanFloat: string -> Option<real>)

  /** A field argument. Variables and enum values come back as strings. */
  datatype Value = Str(s: string) | Bool(b: bool) | Null | Int(n: int) | Float(x: real)

  datatype Field = Field(name: string, arguments: map<string, Value>, fields: seq<Field>)

  datatype ErrorKind =
    | ExpectedOpenBrace | ExpectedCloseBrace | ExpectedFieldName
    | ExpectedArgumentName | ExpectedColon | ExpectedCloseParen
    | UnexpectedEnd | ExpectedVariableName | UnexpectedCharacter | UnterminatedString

  datatype Error = At(kind: ErrorKind, pos: nat) | InvalidNumber(text: string)

  datatype Parsed<+T> = Ok(value: T, pos: nat) | Err(error: Error)

  // ---------- characters and words ----------

  predicate IsWordChar(rt: Runtime, c: char) {
    rt.letter(c) || rt.digit(c) || c == '_'
  }

  predicate IsAsciiDigit(c: char) {
    '0' <= c <= '9'
  }

  predicate IsFillerChar(c: char) {
    IsSpace(c) || c == ','
  }

  /** c stands at pos. */
  predicate Sees(input: string, pos: nat, c: char) {
    pos < |input| && input[pos] == c
  }

  function SkipBlanks(input: string, pos: nat): (p: nat)
    requires pos <= |input|
    ensures pos <= p <= |input|
    ensures p < |input| ==> !IsFillerChar(input[p])
    decreases |input| - pos
  {
    if pos < |input| && IsFillerChar(input[pos]) then SkipBlanks(input, pos + 1) else pos
  }

  function LineEnd(input: string, pos: nat): (p: nat)
    requires pos <= |input|
    ensures pos <= p <= |input|
    ensures Sees(input, pos, '#') ==> pos < p
    decreases |input| - pos
  {
    if pos < |input| && input[pos] != '\n' then LineEnd(input, pos + 1) else pos
  }

  function SkipWhitespace(input: string, pos: nat): (p: nat)
    requires pos <= |input|
    ensures pos <= p <= |input|
    decreases |input| - pos
  {
    var p := SkipBlanks(input, pos);
    if Sees(input, p, '#') then SkipWhitespace(input, LineEnd(input, p)) else p
  }

  function WordEnd(rt: Runtime, input: string, pos: nat): (p: nat)
    requires pos <= |input|
    ensures pos <= p <= |input|
    decreases |input| - pos
  {
    if pos < |input| && IsWordChar(rt, input[pos]) then WordEnd(rt, input, pos + 1) else pos
  }

  function Word(rt: Runtime, input: string, pos: nat): string
    requires pos <= |input|
  {
    input[pos..WordEnd(rt, input, pos)]
  }

  function SkipParens(input: string, pos: nat, depth: int): (p: nat)
    requires pos <= |input|
    ensures pos <= p <= |input|
    decreases |input| - pos
  {
    if pos == |input| then pos
    else if input[pos] == '(' then SkipParens(input, pos + 1, depth + 1)
    else if input[pos] == ')' && depth == 1 then pos + 1
    else SkipParens(input, pos + 1, if input[pos] == ')' then depth - 1 else depth)
  }

  // ---------- values ----------

  function Unescape(c: char): string {
    match c
    case 'n' => "\n"
    case 't' => "\t"
    case '\\' => "\\"
    case '"' => "\""
    case '\'' => "'"
    case _ => ['\\', c]
  }

  /** The rest of a string literal, pos standing after what has been read into buf. */
  function StringRest(input: string, pos: nat, quote: char, buf: string): (r: Parsed<string>)
    requires pos <= |input|
    ensures r.Ok? ==> pos < r.pos <= |input|
    decreases |input| - pos
  {
    if pos == |input| then Err(At(UnterminatedString, pos))
    else if input[pos] == '\\' && pos + 1 < |input| then
      StringRest(input, pos + 2, quote, buf + Unescape(input[pos + 1]))
    else if input[pos] == quote then Ok(buf, pos + 1)
    else StringRest(input, pos + 1, quote, buf + [input[pos]])
  }

  function DigitsEnd(input: string, pos: nat): (p: nat)
    requires pos <= |input|
    ensures pos <= p <= |input|
    decreases |input| - pos
  {
    if pos < |input| && IsAsciiDigit(input[pos]) then DigitsEnd(input, pos + 1) else pos
  }

  function SignEnd(input: string, pos: nat): (p: nat)
    requires pos <= |input|
    ensures pos <= p <= |input|
  {
    if Sees(input, pos, '-') then pos + 1 else pos
  }

  function Natural(digits: string): nat
    requires forall i :: 0 <= i < |digits| ==> IsAsciiDigit(digits[i])
  {
    if digits == "" then 0
    else
      assert IsAsciiDigit(digits[|digits| - 1]);
      Natural(digits[..|digits| - 1]) * 10 + (digits[|digits| - 1] as int - '0' as int)
  }

  const MIN_INT := -0x8000_0000_0000_0000
  const MAX_INT := 0x7fff_ffff_ffff_ffff

  /** fmt.Sscanf(text, "%d", &n): fails without digits and outside the range of int. */
  function ScanInt(text: string): Option<int> {
    var negative := text != "" && text[0] == '-';
    var digits := if negative then text[1..] else text;
    if digits == "" || exists i :: 0 <= i < |digits| && !IsAsciiDigit(digits[i]) then None
    else
      var n: int := if negative then 0 - Natural(digits) else Natural(digits);
      if MIN_INT <= n <= MAX_INT then Some(n) else None
  }

  function ParseNumberSpec(rt: Runtime, input: string, pos: nat): (r: Parsed<Value>)
    requires pos <= |input|
    ensures r.Ok? ==> pos <= r.pos <= |input|
  {
    var whole := DigitsEnd(input, SignEnd(input, pos));
    if Sees(input, whole, '.') then
      var end := DigitsEnd(input, whole + 1);
      match rt.scanFloat(input[pos..end])
      case Some(x) => Ok(Float(x), end)
      case None => Err(InvalidNumber(input[pos..end]))
    else
      match ScanInt(input[pos..whole])
      case Some(n) => Ok(Int(n), whole)
      case None => Err(InvalidNumber(input[pos..whole]))
  }

  function ParseValueSpec(rt: Runtime, input: string, pos: nat): (r: Parsed<Value>)
    requires pos <= |input|
    ensures r.Ok? ==> pos <= r.pos <= |input|
  {
    if pos == |input| then Err(At(UnexpectedEnd, pos))
    else
      var ch := input[pos];
      if ch == '"' || ch == '\'' then
        match StringRest(input, pos + 1, ch, "")
        case Ok(s, p) => Ok(Str(s), p)
        case Err(e) => Err(e)
      else if ch == '$' then
        var end := WordEnd(rt, input, pos + 1);
        if end == pos + 1 then Err(At(ExpectedVariableName, pos + 1)) else Ok(Str(input[pos..end]), end)
      else
        var end := WordEnd(rt, input, pos);
        if input[pos..end] == "true" then Ok(Bool(true), end)
        else if input[pos..end] == "false" then Ok(Bool(false), end)
        else if input[pos..end] == "null" then Ok(Null, end)
        else if ch == '-' || IsAsciiDigit(ch) then ParseNumberSpec(rt, input, pos)
        else if rt.letter(ch) || ch == '_' then Ok(Str(input[pos..end]), end)
        else Err(At(UnexpectedCharacter, pos))
  }

  // ---------- arguments and fields ----------

  /** After an argument value: filler and an optional comma with its own filler. */
  function AfterValue(input: string, pos: nat): (p: nat)
    requires pos <= |input|
    ensures pos <= p <= |input|
  {
    var p := SkipWhitespace(input, pos);
    if Sees(input, p, ',') then SkipWhitespace(input, p + 1) else p
  }

  /** One argument, from its name to the filler after its value. */
  function ParseArgumentSpec(rt: Runtime, input: string, pos: nat): (r: Parsed<(string, Value)>)
    requires pos <= |input|
    ensures r.Ok? ==> pos < r.pos <= |input|
  {
    var name := Word(rt, input, pos);
    if name == "" then Err(At(ExpectedArgumentName, pos))
    else
      var colon := SkipWhitespace(input, WordEnd(rt, input, pos));
      if !Sees(input, colon, ':') then Err(At(ExpectedColon, colon))
      else
        match ParseValueSpec(rt, input, SkipWhitespace(input, colon + 1))
        case Err(e) => Err(e)
        case Ok(v, p) => Ok((name, v), AfterValue(input, p))
  }

  /** How one argument is read once its name and colon are. */
  lemma ArgumentContinues(rt: Runtime, input: string, pos: nat, colon: nat, v: Parsed<Value>)
    requires pos <= |input| && Word(rt, input, pos) != ""
    requires colon == SkipWhitespace(input, WordEnd(rt, input, pos)) && Sees(input, colon, ':')
    requires v == ParseValueSpec(rt, input, SkipWhitespace(input, colon + 1))
    ensures v.Err? ==> ParseArgumentSpec(rt, input, pos) == Err(v.error)
    ensures v.Ok? ==>
      ParseArgumentSpec(rt, input, pos) == Ok((Word(rt, input, pos), v.value), AfterValue(input, v.pos))
  {
    hide ParseValueSpec, AfterValue, Word;
  }

  /** The arguments from pos on, added to those read so far; the last value given to a name wins. */
  function ArgumentsRest(rt: Runtime, input: string, pos: nat, args: map<string, Value>)
    : (r: Parsed<map<string, Value>>)
    requires pos <= |input|
    ensures r.Ok? ==> pos < r.pos <= |input|
    decreases |input| - pos
  {
    if pos == |input| then Err(At(ExpectedCloseParen, pos))
    else if input[pos] == ')' then Ok(args, pos + 1)
    else
      match ParseArgumentSpec(rt, input, pos)
      case Err(e) => Err(e)
      case Ok(arg, p) => ArgumentsRest(rt, input, p, args[arg.0 := arg.1])
  }

  /** Optional arguments, with the filler after them. */
  function OptionalArguments(rt: Runtime, input: string, pos: nat): (r: Parsed<map<string, Value>>)
    requires pos <= |input|
    ensures r.Ok? ==> pos <= r.pos <= |input|
  {
    if !Sees(input, pos, '(') then Ok(map[], pos)
    else
      match ArgumentsRest(rt, input, SkipWhitespace(input, pos + 1), map[])
      case Err(e) => Err(e)
      case Ok(args, p) => Ok(args, SkipWhitespace(input, p))
  }

  function ParseFieldSpec(rt: Runtime, input: string, pos: nat): (r: Parsed<Field>)
    requires pos <= |input|
    ensures r.Ok? ==> pos < r.pos <= |input|
    decreases |input| - pos, 1
  {
    var name := Word(rt, input, pos);
    if name == "" then Err(At(ExpectedFieldName, pos))
    else
      match OptionalArguments(rt, input, SkipWhitespace(input, WordEnd(rt, input, pos)))
      case Err(e) => Err(e)
      case Ok(args, p) =>
        if !Sees(input, p, '{') then Ok(Field(name, args, []), p)
        else
          match ParseSelectionSpec(rt, input, p)
          case Err(e) => Err(e)
          case Ok(fields, p') => Ok(Field(name, args, fields), p')
  }

  function FieldsRest(rt: Runtime, input: string, pos: nat, fields: seq<Field>): (r: Parsed<seq<Field>>)
    requires pos <= |input|
    ensures r.Ok? ==> pos < r.pos <= |input|
    decreases |input| - pos, 2
  {
    if pos == |input| then Err(At(ExpectedCloseBrace, pos))
    else if input[pos] == '}' then Ok(fields, SkipWhitespace(input, pos + 1))
    else
      match ParseFieldSpec(rt, input, pos)
      case Err(e) => Err(e)
      case Ok(f, p) => FieldsRest(rt, input, SkipWhitespace(input, p), fields + [f])
  }

  function ParseSelectionSpec(rt: Runtime, input: string, pos: nat): (r: Parsed<seq<Field>>)
    requires pos <= |input|
    ensures r.Ok? ==> pos < r.pos <= |input|
    decreases |input| - pos, 0
  {
    if !Sees(input, pos, '{') then Err(At(ExpectedOpenBrace, pos))
    else FieldsRest(rt, input, SkipWhitespace(input, pos + 1), [])
  }

  // ---------- queries ----------

  predicate IsOperation(word: string) {
    word == "query" || word == "mutation" || word == "subscription"
  }

  function SkipOperationName(rt: Runtime, input: string, pos: nat): (p: nat)
    requires pos <= |input|
    ensures pos <= p <= |input|
  {
    if pos < |input| && input[pos] != '{' && input[pos] != '('
    then SkipWhitespace(input, WordEnd(rt, input, pos)) else pos
  }

  function SkipVariables(input: string, pos: nat): (p: nat)
    requires pos <= |input|
    ensures pos <= p <= |input|
  {
    if Sees(input, pos, '(') then SkipWhitespace(input, SkipParens(input, pos, 0)) else pos
  }

  /** Where the selection set must start. */
  function BodyStart(rt: Runtime, input: string): (p: nat)
    ensures p <= |input|
  {
    var start := SkipWhitespace(input, 0);
    if IsOperation(Word(rt, input, start)) then
      var named := SkipWhitespace(input, WordEnd(rt, input, start));
      SkipVariables(input, SkipOperationName(rt, input, named))
    else start
  }

  function ParseQuerySpec(rt: Runtime, input: string): Parsed<seq<Field>> {
    ParseSelectionSpec(rt, input, BodyStart(rt, input))
  }

  // ---------- the parser ----------

  class Parser {
    const rt: Runtime
    const input: string
    var pos: nat

    ghost predicate Valid()
      reads this
    {
      pos <= |input|
    }

    constructor (rt: Runtime, input: string)
      ensures Valid() && this.rt == rt && this.input == input && pos == 0
    {
      this.rt, this.input, this.pos := rt, input, 0;
    }

    method SkipFiller()
      requires Valid()
      modifies this
      ensures Valid() && pos == SkipWhitespace(input, old(pos))
      decreases |input| - pos
    {
      while pos < |input| && IsFillerChar(input[pos])
        invariant old(pos) <= pos <= |input|
        invariant SkipBlanks(input, pos) == SkipBlanks(input, old(pos))
      {
        pos := pos + 1;
      }
      if pos < |input| && input[pos] == '#' {
        ghost var hash := pos;
        while pos < |input| && input[pos] != '\n'
          invariant hash <= pos <= |input|
          invariant LineEnd(input, pos) == LineEnd(input, hash)
          decreases |input| - pos
        {
          pos := pos + 1;
        }
        SkipFiller();
      }
    }

    method ReadWord() returns (word: string)
      requires Valid()
      modifies this
      ensures Valid() && pos == WordEnd(rt, input, old(pos)) && word == Word(rt, input, old(pos))
    {
      var start := pos;
      while pos < |input| && IsWordChar(rt, input[pos])
        invariant start <= pos <= |input|
        invariant WordEnd(rt, input, pos) == WordEnd(rt, input, start)
      {
        pos := pos + 1;
      }
      word := input[start..pos];
    }

    method PeekWord() returns (word: string)
      requires Valid()
      modifies this
      ensures pos == old(pos) && word == Word(rt, input, pos)
    {
      var saved := pos;
      word := ReadWord();
      pos := saved;
    }

    method SkipParenthesized()
      requires Valid() && Sees(input, pos, '(')
      modifies this
      ensures Valid() && pos == SkipParens(input, old(pos), 0)
    {
      var depth := 0;
      while pos < |input|
        invariant old(pos) <= pos <= |input|
        invariant SkipParens(input, old(pos), 0) == SkipParens(input, pos, depth)
      {
        if input[pos] == '(' {
          depth := depth + 1;
        } else if input[pos] == ')' {
          depth := depth - 1;
          if depth == 0 {
            pos := pos + 1;
            return;
          }
        }
        pos := pos + 1;
      }
    }

    method ParseString(quote: char) returns (r: Parsed<string>)
      requires Valid() && pos < |input|
      modifies this
      ensures Valid() && old(pos) < pos
      ensures r == StringRest(input, old(pos) + 1, quote, "")
      ensures r.Ok? ==> pos == r.pos
    {
      pos := pos + 1;
      var buf := "";
      while pos < |input|
        invariant old(pos) < pos <= |input|
        invariant StringRest(input, old(pos) + 1, quote, "") == StringRest(input, pos, quote, buf)
        decreases |input| - pos
      {
        var ch := input[pos];
        if ch == '\\' && pos + 1 < |input| {
          pos := pos + 1;
          buf := buf + Unescape(input[pos]);
          pos := pos + 1;
          continue;
        }
        if ch == quote {
          pos := pos + 1;
          return Ok(buf, pos);
        }
        buf := buf + [ch];
        pos := pos + 1;
      }
      return Err(At(UnterminatedString, pos));
    }

    method SkipDigits()
      requires Valid()
      modifies this
      ensures Valid() && pos == DigitsEnd(input, old(pos))
    {
      while pos < |input| && IsAsciiDigit(input[pos])
        invariant old(pos) <= pos <= |input|
        invariant DigitsEnd(input, pos) == DigitsEnd(input, old(pos))
      {
        pos := pos + 1;
      }
    }

    method ParseNumber() returns (r: Parsed<Value>)
      requires Valid()
      modifies this
      ensures Valid() && old(pos) <= pos && r == ParseNumberSpec(rt, input, old(pos))
      ensures r.Ok? ==> pos == r.pos
    {
      var start := pos;
      if pos < |input| && input[pos] == '-' {
        pos := pos + 1;
      }
      SkipDigits();
      if pos < |input| && input[pos] == '.' {
        pos := pos + 1;
        SkipDigits();
        var x := rt.scanFloat(input[start..pos]);
        return if x.Some? then Ok(Float(x.value), pos) else Err(InvalidNumber(input[start..pos]));
      }
      var n := ScanInt(input[start..pos]);
      return if n.Some? then Ok(Int(n.value), pos) else Err(InvalidNumber(input[start..pos]));
    }

    method ParseVariable() returns (r: Parsed<Value>)
      requires Valid() && Sees(input, pos, '$')
      modifies this
      ensures Valid() && old(pos) < pos && r == ParseValueSpec(rt, input, old(pos))
      ensures r.Ok? ==> pos == r.pos
    {
      pos := pos + 1;
      var name := ReadWord();
      if name == "" {
        return Err(At(ExpectedVariableName, pos));
      }
      assert input[old(pos)..pos] == "$" + name;
      return Ok(Str("$" + name), pos);
    }

    method ParseValue() returns (r: Parsed<Value>)
      requires Valid()
      modifies this
      ensures Valid() && old(pos) <= pos && r == ParseValueSpec(rt, input, old(pos))
      ensures r.Ok? ==> pos == r.pos
    {
      if pos >= |input| {
        return Err(At(UnexpectedEnd, pos));
      }
      var ch := input[pos];
      if ch == '"' || ch == '\'' {
        var s := ParseString(ch);
        return match s case Ok(text, p) => Ok(Str(text), p) case Err(e) => Err(e);
      }
      if ch == '$' {
        r := ParseVariable();
        return;
      }
      var word := PeekWord();
      if word == "true" || word == "false" || word == "null" {
        var _ := ReadWord();
        return Ok(if word == "null" then Null else Bool(word == "true"), pos);
      }
      if ch == '-' || IsAsciiDigit(ch) {
        r := ParseNumber();
        return;
      }
      if rt.letter(ch) || ch == '_' {
        word := ReadWord();
        return Ok(Str(word), pos);
      }
      return Err(At(UnexpectedCharacter, pos));
    }

    /** The filler after an argument value, with the comma it may hold. */
    method SkipComma()
      requires Valid()
      modifies this
      ensures Valid() && pos == AfterValue(input, old(pos))
    {
      SkipFiller();
      if pos < |input| && input[pos] == ',' {
        pos := pos + 1;
        SkipFiller();
      }
    }

    method ParseArgument() returns (r: Parsed<(string, Value)>)
      requires Valid()
      modifies this
      ensures Valid() && old(pos) <= pos && r == ParseArgumentSpec(rt, input, old(pos))
      ensures r.Ok? ==> pos == r.pos
    {
      hide ParseValueSpec;
      var name := ReadWord();
      if name == "" {
        return Err(At(ExpectedArgumentName, pos));
      }
      SkipFiller();
      if pos >= |input| || input[pos] != ':' {
        return Err(At(ExpectedColon, pos));
      }
      ghost var colon := pos;
      pos := pos + 1;
      SkipFiller();
      var v := ParseValue();
      ArgumentContinues(rt, input, old(pos), colon, v);
      if v.Err? {
        return Err(v.error);
      }
      SkipComma();
      return Ok((name, v.value), pos);
    }

    method ParseArguments() returns (r: Parsed<map<string, Value>>)
      requires Valid() && Sees(input, pos, '(')
      modifies this
      ensures Valid() && old(pos) < pos
      ensures r == ArgumentsRest(rt, input, SkipWhitespace(input, old(pos) + 1), map[])
      ensures r.Ok? ==> pos == r.pos
    {
      pos := pos + 1;
      SkipFiller();
      ghost var start := pos;
      var args: map<string, Value> := map[];
      while pos < |input| && input[pos] != ')'
        invariant start <= pos <= |input|
        invariant ArgumentsRest(rt, input, start, map[]) == ArgumentsRest(rt, input, pos, args)
      {
        var arg := ParseArgument();
        if arg.Err? {
          return Err(arg.error);
        }
        args := args[arg.value.0 := arg.value.1];
      }
      if pos >= |input| {
        return Err(At(ExpectedCloseParen, pos));
      }
      pos := pos + 1;
      return Ok(args, pos);
    }

    method ParseField() returns (r: Parsed<Field>)
      requires Valid()
      modifies this
      ensures Valid() && old(pos) <= pos && r == ParseFieldSpec(rt, input, old(pos))
      ensures r.Ok? ==> pos == r.pos
      decreases |input| - pos, 1
    {
      hide ParseArgumentSpec, ParseValueSpec;
      var name := ReadWord();
      if name == "" {
        return Err(At(ExpectedFieldName, pos));
      }
      hide Word;
      SkipFiller();
      var args: map<string, Value> := map[];
      ghost var opening := pos;
      if pos < |input| && input[pos] == '(' {
        var parsed := ParseArguments();
        if parsed.Err? {
          assert OptionalArguments(rt, input, opening) == Err(parsed.error);
          return Err(parsed.error);
        }
        args := parsed.value;
        SkipFiller();
      }
      assert OptionalArguments(rt, input, opening) == Ok(args, pos);
      if pos < |input| && input[pos] == '{' {
        var sub := ParseSelectionSet();
        if sub.Err? {
          return Err(sub.error);
        }
        return Ok(Field(name, args, sub.value), pos);
      }
      return Ok(Field(name, args, []), pos);
    }

    method ParseSelectionSet() returns (r: Parsed<seq<Field>>)
      requires Valid()
      modifies this
      ensures Valid() && old(pos) <= pos && r == ParseSelectionSpec(rt, input, old(pos))
      ensures r.Ok? ==> pos == r.pos
      decreases |input| - pos, 0
    {
      if pos >= |input| || input[pos] != '{' {
        return Err(At(ExpectedOpenBrace, pos));
      }
      pos := pos + 1;
      SkipFiller();
      ghost var start := pos;
      var fields := [];
      while pos < |input| && input[pos] != '}'
        invariant old(pos) < start <= pos <= |input|
        invariant FieldsRest(rt, input, start, []) == FieldsRest(rt, input, pos, fields)
        decreases |input| - pos
      {
        var f := ParseField();
        if f.Err? {
          return Err(f.error);
        }
        fields := fields + [f.value];
        SkipFiller();
      }
      if pos >= |input| {
        return Err(At(ExpectedCloseBrace, pos));
      }
      pos := pos + 1;
      SkipFiller();
      return Ok(fields, pos);
    }

    method SkipOperation()
      requires Valid() && pos == 0
      modifies this
      ensures Valid() && pos == BodyStart(rt, input)
    {
      SkipFiller();
      var word := PeekWord();
      if word == "query" || word == "mutation" || word == "subscription" {
        var _ := ReadWord();
        SkipFiller();
        if pos < |input| && input[pos] != '{' && input[pos] != '(' {
          var _ := ReadWord();
          SkipFiller();
        }
        if pos < |input| && input[pos] == '(' {
          SkipParenthesized();
          SkipFiller();
        }
      }
    }
  }

  /** ParseQuery: for every input it terminates, with the outcome of ParseQuerySpec. */
  method ParseQuery(rt: Runtime, query: string) returns (r: Parsed<seq<Field>>)
    ensures r == ParseQuerySpec(rt, query)
  {
    var p := new Parser(rt, query);
    p.SkipOperation();
    r := p.ParseSelectionSet();
  }
}
