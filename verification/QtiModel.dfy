/**
 * Quiz questions (internal/qti/model.go), the Canvas Classic item tree
 * (internal/qti/parser_classic.go) and the type tables (internal/qti/mapping.go).
 * XML and JSON text is not modelled: items are trees, answers are decoded values.
 */
module QtiModel {

  datatype Option<+T> = None | Some(value: T)

  datatype Result<+T, +E> = Ok(value: T) | Err(error: E)

  // ---------- question types ----------

  /** The unified types; Unlisted stands for a string that is not in the tables. */
  datatype QuestionType =
    | MultipleChoice | MultipleAnswer | TrueFalse | ShortAnswer | Essay | Matching
    | FillInMultipleBlanks | Numerical | Formula | FileUpload | TextOnly
    | FillInTheBlank | MultipleDropdown | Ordering | Categorization | HotSpot
    | Unlisted(name: string)

  /** The values of Canvas's question_type field; Foreign stands for any other entry. */
  datatype CanvasType =
    | MultipleChoiceQuestion | MultipleAnswersQuestion | TrueFalseQuestion
    | ShortAnswerQuestion | EssayQuestion | MatchingQuestion
    | FillInMultipleBlanksQuestion | NumericalQuestion | CalculatedQuestion
    | FileUploadQuestion | TextOnlyQuestion | MultipleDropdownsQuestion
    | Foreign(entry: string)

  function MapCanvasClassicType(c: CanvasType): Option<QuestionType> {
    match c
    case MultipleChoiceQuestion => Some(MultipleChoice)
    case MultipleAnswersQuestion => Some(MultipleAnswer)
    case TrueFalseQuestion => Some(TrueFalse)
    case ShortAnswerQuestion => Some(ShortAnswer)
    case EssayQuestion => Some(Essay)
    case MatchingQuestion => Some(Matching)
    case FillInMultipleBlanksQuestion => Some(FillInMultipleBlanks)
    case NumericalQuestion => Some(Numerical)
    case CalculatedQuestion => Some(Formula)
    case FileUploadQuestion => Some(FileUpload)
    case TextOnlyQuestion => Some(TextOnly)
    case MultipleDropdownsQuestion => Some(MultipleDropdown)
    case Foreign(_) => None
  }

  function MapUnifiedToCanvasClassic(t: QuestionType): Option<CanvasType> {
    match t
    case MultipleChoice => Some(MultipleChoiceQuestion)
    case MultipleAnswer => Some(MultipleAnswersQuestion)
    case TrueFalse => Some(TrueFalseQuestion)
    case ShortAnswer => Some(ShortAnswerQuestion)
    case Essay => Some(EssayQuestion)
    case Matching => Some(MatchingQuestion)
    case FillInMultipleBlanks => Some(FillInMultipleBlanksQuestion)
    case Numerical => Some(NumericalQuestion)
    case Formula => Some(CalculatedQuestion)
    case FileUpload => Some(FileUploadQuestion)
    case TextOnly => Some(TextOnlyQuestion)
    case MultipleDropdown => Some(MultipleDropdownsQuestion)
    case Ordering => Some(MatchingQuestion)
    case Categorization => Some(MatchingQuestion)
    case HotSpot => Some(MultipleChoiceQuestion)
    case FillInTheBlank => Some(ShortAnswerQuestion)
    case Unlisted(_) => None
  }

  // ---------- questions ----------

  /** One entry of an answers array. A JSON field that is absent is "" or 0, as Go decodes it. */
  datatype AnswerOption = AnswerOption(
    id: string, text: string, weight: real,
    blankID: string := "", left: string := "", rightID: string := "",
    matchID: string := "", num: NumberFields := NumberFields())

  /** The fields of numerical and formula answers. */
  datatype NumberFields = NumberFields(
    margin: string := "", exact: string := "", numericalType: string := "",
    start: string := "", end: string := "", approximate: string := "", precision: string := "",
    answerValue: string := "", tolerance: string := "")

  /** A decoded answers column: an array of options, a map of blanks, or neither. */
  datatype Answers =
    | Options(options: seq<AnswerOption>)
    | Blanks(blanks: map<string, seq<string>>)
    /** A map with values that are no lists of strings: json.Unmarshal fails and still leaves what it decoded. */
    | PartialBlanks(decoded: map<string, seq<string>>)
    | Undecodable

  datatype Body = Body(
    questionType: QuestionType, text: string, points: Option<real>, answers: Answers,
    correct: string, incorrect: string, neutral: string)

  datatype Question = Question(id: nat, position: int, body: Body)

  // ---------- numbers as texts ----------

  /**
   * How the library reads and writes numbers: decimal is the exact reading of a trimmed text (big.Rat), float that of
   * strconv.ParseFloat, round the float64 nearest to a number, and format the shortest decimal that float reads back.
   */
  datatype Numbers = Numbers(
    decimal: string -> Option<real>, float: string -> Option<real>, round: real -> real, format: real -> string)

  // ---------- grading ----------

  /** A question without a usable key is left to an instructor. */
  datatype Verdict = Manual | Graded(correct: bool)

  // ---------- item trees ----------

  datatype ItemIdent = ById(id: nat) | ByPosition(position: int) | OtherIdent(ident: string)

  /** A qtimetadatafield. PointsPossible(None) is an entry ParseFloat rejects. */
  datatype MetaField =
    | QuestionTypeField(canvasType: CanvasType)
    | PointsField(points: Option<real>)
    | AnswerExactField(entry: string)
    | AnswerMarginField(entry: string)
    | OtherField

  datatype ResponseLabel = ResponseLabel(ident: string, material: seq<string>)

  datatype ResponseLid = ResponseLid(ident: string, material: seq<string>, labels: seq<ResponseLabel>)

  datatype ResponseStr = ResponseStr(ident: string)

  datatype VarEqual = VarEqual(respident: string, value: string)

  /** The texts of the vargte, vargt and varlte elements of one block. */
  datatype Bounds = Bounds(gte: seq<string>, gt: seq<string>, lte: seq<string>)

  const NO_BOUNDS := Bounds([], [], [])

  /**
   * A conditionvar: its varequal children (direct ones, those under and, those under or), its own bounds, those of
   * its <and>, and those of an <and> inside its <or>.
   */
  datatype ConditionVar = ConditionVar(
    direct: seq<VarEqual>, underAnd: seq<VarEqual> := [], underOr: seq<VarEqual> := [],
    own: Bounds := NO_BOUNDS, wrapped: Bounds := NO_BOUNDS, band: Option<Bounds> := None)

  /** A respcondition with the score its setvar gives it (0 when there is none). */
  datatype RespCondition = RespCondition(score: real, cond: ConditionVar, displayFeedback: seq<string> := [])

  datatype Feedback = Feedback(ident: string, material: seq<string>)

  datatype Presentation = Presentation(lids: seq<ResponseLid>, strs: seq<ResponseStr>)

  datatype Item = Item(
    ident: ItemIdent, metadata: seq<MetaField>, material: seq<string>,
    presentation: Presentation, conditions: seq<RespCondition>, feedback: seq<Feedback>)

  // ---------- sequences ----------

  function Init<T>(s: seq<T>): seq<T>
    requires s != []
  {
    s[..|s| - 1]
  }

  function Last<T>(s: seq<T>): T
    requires s != []
  {
    s[|s| - 1]
  }

  lemma TakeMore<T>(s: seq<T>, i: nat)
    requires i < |s|
    ensures Init(s[..i + 1]) == s[..i] && Last(s[..i + 1]) == s[i]
  {
  }

  lemma SlicesOfAppend<T>(a: seq<T>, b: seq<T>, p: nat, q: nat)
    requires p <= q
    ensures q <= |a| ==> (a + b)[p..q] == a[p..q]
    ensures (a + b)[|a|..|a| + |b|] == b
  {
  }
}
